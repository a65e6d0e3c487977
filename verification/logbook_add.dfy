/** The form that adds a logbook entry (src/pages/Logbooks/LogbooksAdd.tsx):
    a date, a session record (check-in, check-out, location), a list of task
    descriptions and the trainee id taken from the route. */
module LogbookAdd {
  import opened Wrappers

  datatype Session = Session(checkIn: string, checkOut: string, location: string)

  /** The inputs wired to `handleSessionChange` (`name` = check_in, check_out, location). */
  datatype SessionField = CheckIn | CheckOut | Location

  datatype LogbookData = LogbookData(date: string, session: Session, task: seq<string>, userId: Option<string>)

  function SessionValue(s: Session, f: SessionField): string {
    match f
    case CheckIn => s.checkIn
    case CheckOut => s.checkOut
    case Location => s.location
  }

  /** `{ ...session, [name]: value }`. */
  function SetSessionValue(s: Session, f: SessionField, v: string): (r: Session)
    ensures SessionValue(r, f) == v
    ensures forall g :: g != f ==> SessionValue(r, g) == SessionValue(s, g)
  {
    match f
    case CheckIn => s.(checkIn := v)
    case CheckOut => s.(checkOut := v)
    case Location => s.(location := v)
  }

  /** `tasks.filter((_, i) => i !== index)`: keeps every element whose
      position differs from `index`. */
  function DropIndex(tasks: seq<string>, index: int): seq<string> {
    if tasks == [] then []
    else
      var n := |tasks| - 1;
      DropIndex(tasks[..n], index) + (if n == index then [] else [tasks[n]])
  }

  /** Dropping an existing position removes exactly that element and keeps the
      others in order; any other index removes nothing. */
  lemma {:induction false} DropIndexRemovesOne(tasks: seq<string>, index: int)
    ensures 0 <= index < |tasks| ==> DropIndex(tasks, index) == tasks[..index] + tasks[index + 1..]
    ensures !(0 <= index < |tasks|) ==> DropIndex(tasks, index) == tasks
  {
    if tasks != [] {
      var n := |tasks| - 1;
      DropIndexRemovesOne(tasks[..n], index);
      if index == n {
        assert tasks[..index] + tasks[index + 1..] == tasks[..n];
      } else if 0 <= index < n {
        assert tasks[..n][..index] == tasks[..index];
        assert tasks[..n][index + 1..] + [tasks[n]] == tasks[index + 1..];
      } else {
        assert tasks[..n] + [tasks[n]] == tasks;
      }
    }
  }

  /** The trash button is rendered for every task but the first. */
  predicate RemoveOffered(index: int) {
    index > 0
  }

  class LogbookForm {
    var data: LogbookData

    /** The form always shows at least one task input. */
    ghost predicate Valid()
      reads this
    {
      |data.task| >= 1
    }

    /** The initial state: empty date and session, one empty task, the route id. */
    constructor (routeId: Option<string>)
      ensures Valid()
      ensures data == LogbookData("", Session("", "", ""), [""], routeId)
    {
      data := LogbookData("", Session("", "", ""), [""], routeId);
    }

    /** The only input wired to `handleInputChange` is `date`. */
    method HandleInputChange(value: string)
      modifies this
      ensures data.date == value
      ensures data.session == old(data.session) && data.task == old(data.task) && data.userId == old(data.userId)
    {
      data := data.(date := value);
    }

    method HandleSessionChange(f: SessionField, value: string)
      modifies this
      ensures SessionValue(data.session, f) == value
      ensures forall g :: g != f ==> SessionValue(data.session, g) == SessionValue(old(data.session), g)
      ensures data.date == old(data.date) && data.task == old(data.task) && data.userId == old(data.userId)
    {
      data := data.(session := SetSessionValue(data.session, f, value));
    }

    method HandleAddTask()
      modifies this
      ensures old(Valid()) ==> Valid()
      ensures data.task == old(data.task) + [""]
      ensures data.date == old(data.date) && data.session == old(data.session) && data.userId == old(data.userId)
    {
      data := data.(task := data.task + [""]);
    }

    /** Called from the input of task `index`, which exists. */
    method HandleTaskChange(index: nat, value: string)
      requires index < |data.task|
      modifies this
      ensures |data.task| == |old(data.task)|
      ensures data.task[index] == value
      ensures forall i :: 0 <= i < |data.task| && i != index ==> data.task[i] == old(data.task)[i]
      ensures data.date == old(data.date) && data.session == old(data.session) && data.userId == old(data.userId)
    {
      var updated := data.task;
      updated := updated[index := value];
      data := data.(task := updated);
    }

    method HandleRemoveTask(index: int)
      modifies this
      ensures 0 <= index < |old(data.task)| ==> data.task == old(data.task)[..index] + old(data.task)[index + 1..]
      ensures !(0 <= index < |old(data.task)|) ==> data.task == old(data.task)
      ensures data.date == old(data.date) && data.session == old(data.session) && data.userId == old(data.userId)
    {
      DropIndexRemovesOne(data.task, index);
      data := data.(task := DropIndex(data.task, index));
    }

    /** A click on the trash button of task `index`: the first task is never
        removed and the form keeps at least one task. */
    method ClickRemove(index: nat)
      requires Valid() && index < |data.task| && RemoveOffered(index)
      modifies this
      ensures Valid()
      ensures |data.task| == |old(data.task)| - 1
      ensures data.task[0] == old(data.task)[0]
      ensures data.task == old(data.task)[..index] + old(data.task)[index + 1..]
    {
      HandleRemoveTask(index);
    }
  }
}
