/** The form that adds a division (src/pages/Divison/DivisionAdd.tsx): the id
    is proposed from the existing divisions, the name is typed in. */
module DivisionAdd {
  import opened Wrappers

  /** `Math.max(...ids)` of a non-empty list. */
  function MaxId(ids: seq<int>): (r: int)
    requires |ids| > 0
    ensures r in ids
    ensures forall i :: 0 <= i < |ids| ==> ids[i] <= r
  {
    if |ids| == 1 then ids[0]
    else
      var rest := MaxId(ids[1..]);
      if ids[0] >= rest then ids[0] else rest
  }

  /** The id the effect proposes: the highest existing id plus one, or 1 when
      there are no divisions. It is greater than every existing id. */
  function NextId(ids: seq<int>): (r: int)
    ensures |ids| == 0 ==> r == 1
    ensures |ids| > 0 ==> r - 1 in ids
    ensures forall i :: 0 <= i < |ids| ==> ids[i] < r
  {
    if |ids| > 0 then MaxId(ids) + 1 else 1
  }

  /** The form state: `id` is the empty string (`None`) until the effect runs. */
  datatype DivisionData = DivisionData(id: Option<int>, name: string)

  class DivisionForm {
    var data: DivisionData

    constructor ()
      ensures data == DivisionData(None, "")
    {
      data := DivisionData(None, "");
    }

    /** The effect that runs whenever the division list changes. */
    method ApplyNextId(divisionIds: seq<int>)
      modifies this
      ensures data.id == Some(NextId(divisionIds))
      ensures data.name == old(data.name)
    {
      if |divisionIds| > 0 {
        var highestId := MaxId(divisionIds);
        data := data.(id := Some(highestId + 1));
      } else {
        data := data.(id := Some(1));
      }
    }

    /** The id input is read-only, so `name` is the only field typed in. */
    method HandleInputChange(value: string)
      modifies this
      ensures data.name == value && data.id == old(data.id)
    {
      data := data.(name := value);
    }
  }
}
