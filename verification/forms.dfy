/** What the trainee and admin forms share: the field-value documents they
    send to the store, the nine trainee fields, and the password check
    message (src/pages/Trainee/TraineeAdd.tsx, src/pages/Trainee/TraineeEdit.tsx,
    src/pages/Admin/AdminAdd.tsx). */
module Forms {
  import opened Wrappers

  const PasswordMismatch := "Passwords do not match."

  /** A field value of a stored document: the forms write strings and the
      `isActive` flag. */
  datatype Value = Str(s: string) | Bool(b: bool)

  type Doc = map<string, Value>

  /** JavaScript truthiness of a field value. */
  predicate Truthy(v: Value) {
    match v
    case Str(s) => s != ""
    case Bool(b) => b
  }

  /** The inputs wired to `handleInputChange` in the trainee forms. */
  datatype TraineeField = Name | Email | Division | TraineeType | StartDate | EndDate | Nik | Address | Dob

  /** The input's `name` attribute, which is also the document key. */
  function TraineeKey(f: TraineeField): string {
    match f
    case Name => "name"
    case Email => "email"
    case Division => "division"
    case TraineeType => "trainee_type"
    case StartDate => "start_date"
    case EndDate => "end_date"
    case Nik => "nik"
    case Address => "address"
    case Dob => "dob"
  }

  const TraineeKeys: set<string> :=
    {"name", "email", "division", "trainee_type", "start_date", "end_date", "nik", "address", "dob"}

  /** Every key names exactly one field. */
  lemma TraineeKeysExact()
    ensures forall f :: TraineeKey(f) in TraineeKeys
    ensures forall k :: k in TraineeKeys ==> exists f :: TraineeKey(f) == k
    ensures forall f, g :: TraineeKey(f) == TraineeKey(g) ==> f == g
  {
    assert TraineeKey(Name) == "name" && TraineeKey(Email) == "email" && TraineeKey(Division) == "division";
    assert TraineeKey(TraineeType) == "trainee_type" && TraineeKey(StartDate) == "start_date";
    assert TraineeKey(EndDate) == "end_date" && TraineeKey(Nik) == "nik";
    assert TraineeKey(Address) == "address" && TraineeKey(Dob) == "dob";
  }

  /** The keys the forms store beside the fields are not field keys. */
  lemma ExtraKeysNotFields()
    ensures forall f :: TraineeKey(f) != "role" && TraineeKey(f) != "password" && TraineeKey(f) != "isActive"
    ensures "role" !in TraineeKeys && "password" !in TraineeKeys && "isActive" !in TraineeKeys
  {
  }

  datatype TraineeData = TraineeData(
    name: string, email: string, division: string, traineeType: string,
    startDate: string, endDate: string, nik: string, address: string, dob: string)

  const EmptyTrainee := TraineeData("", "", "", "", "", "", "", "", "")

  function TraineeGet(d: TraineeData, f: TraineeField): string {
    match f
    case Name => d.name
    case Email => d.email
    case Division => d.division
    case TraineeType => d.traineeType
    case StartDate => d.startDate
    case EndDate => d.endDate
    case Nik => d.nik
    case Address => d.address
    case Dob => d.dob
  }

  /** `{ ...prev, [name]: value }`: the named field changes, no other does. */
  function TraineeSet(d: TraineeData, f: TraineeField, v: string): (r: TraineeData)
    ensures TraineeGet(r, f) == v
    ensures forall g :: g != f ==> TraineeGet(r, g) == TraineeGet(d, g)
  {
    match f
    case Name => d.(name := v)
    case Email => d.(email := v)
    case Division => d.(division := v)
    case TraineeType => d.(traineeType := v)
    case StartDate => d.(startDate := v)
    case EndDate => d.(endDate := v)
    case Nik => d.(nik := v)
    case Address => d.(address := v)
    case Dob => d.(dob := v)
  }

  /** Two trainee records with the same field values are the same record. */
  lemma TraineeExtensional(d: TraineeData, e: TraineeData)
    requires forall f :: TraineeGet(d, f) == TraineeGet(e, f)
    ensures d == e
  {
    assert TraineeGet(d, Name) == TraineeGet(e, Name) && TraineeGet(d, Email) == TraineeGet(e, Email);
    assert TraineeGet(d, Division) == TraineeGet(e, Division) && TraineeGet(d, TraineeType) == TraineeGet(e, TraineeType);
    assert TraineeGet(d, StartDate) == TraineeGet(e, StartDate) && TraineeGet(d, EndDate) == TraineeGet(e, EndDate);
    assert TraineeGet(d, Nik) == TraineeGet(e, Nik) && TraineeGet(d, Address) == TraineeGet(e, Address);
    assert TraineeGet(d, Dob) == TraineeGet(e, Dob);
  }

  /** `{ ...traineeData }`: one string entry per field, under the field's key. */
  function TraineeDoc(d: TraineeData): (r: Doc)
    ensures r.Keys == TraineeKeys
    ensures forall f :: TraineeKey(f) in r && r[TraineeKey(f)] == Str(TraineeGet(d, f))
  {
    map[
      "name" := Str(d.name), "email" := Str(d.email), "division" := Str(d.division),
      "trainee_type" := Str(d.traineeType), "start_date" := Str(d.startDate), "end_date" := Str(d.endDate),
      "nik" := Str(d.nik), "address" := Str(d.address), "dob" := Str(d.dob)]
  }

  /** `doc.key || ''` for a text field. */
  function TextOrEmpty(doc: Doc, key: string): (r: string)
    ensures key in doc && doc[key].Str? ==> r == doc[key].s
    ensures key !in doc || !Truthy(doc[key]) ==> r == ""
  {
    if key in doc && doc[key].Str? then doc[key].s else ""
  }
}
