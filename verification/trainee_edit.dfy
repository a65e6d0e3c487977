/** The form that edits a trainee (src/pages/Trainee/TraineeEdit.tsx): the
    fetched trainee is copied into the form, the fields and the password can
    be changed, and the update is refused when the two passwords differ.
    Fetching and updating are I/O: the fetched document is a parameter,
    submit returns the update it hands to the store, and `Settle` is the
    `finally` that runs once the update has resolved or rejected. */
module TraineeEdit {
  import opened Wrappers
  import opened Forms

  /** The effect's copy of a fetched trainee: each text field or `''`. */
  function LoadedTrainee(doc: Doc): (r: TraineeData)
    ensures forall f :: TraineeKey(f) in doc && doc[TraineeKey(f)].Str? ==> TraineeGet(r, f) == doc[TraineeKey(f)].s
    ensures forall f :: TraineeKey(f) !in doc ==> TraineeGet(r, f) == ""
  {
    TraineeData(
      TextOrEmpty(doc, "name"), TextOrEmpty(doc, "email"), TextOrEmpty(doc, "division"),
      TextOrEmpty(doc, "trainee_type"), TextOrEmpty(doc, "start_date"), TextOrEmpty(doc, "end_date"),
      TextOrEmpty(doc, "nik"), TextOrEmpty(doc, "address"), TextOrEmpty(doc, "dob"))
  }

  /** `doc.isActive || false`, as a flag. */
  function LoadedActive(doc: Doc): (r: bool)
    ensures r <==> "isActive" in doc && Truthy(doc["isActive"])
  {
    "isActive" in doc && Truthy(doc["isActive"])
  }

  /** `{ ...traineeData, isActive, password }`: unlike the new-trainee document
      it carries no role. */
  function UpdatePayload(d: TraineeData, isActive: bool, password: string): (r: Doc)
    ensures r.Keys == TraineeKeys + {"isActive", "password"}
    ensures "role" !in r
    ensures "isActive" in r && r["isActive"] == Bool(isActive)
    ensures "password" in r && r["password"] == Str(password)
    ensures forall f :: TraineeKey(f) in r && r[TraineeKey(f)] == Str(TraineeGet(d, f))
  {
    ExtraKeysNotFields();
    var base := TraineeDoc(d);
    base["isActive" := Bool(isActive)]["password" := Str(password)]
  }

  /** Editing a trainee saved by this form shows the saved fields and flag again. */
  lemma {:induction false} ReloadUpdate(d: TraineeData, isActive: bool, password: string)
    ensures LoadedTrainee(UpdatePayload(d, isActive, password)) == d
    ensures LoadedActive(UpdatePayload(d, isActive, password)) == isActive
  {
    var doc := UpdatePayload(d, isActive, password);
    TraineeExtensional(LoadedTrainee(doc), d);
  }

  class TraineeEditForm {
    var data: TraineeData
    var isActive: bool
    var loading: bool
    var password: string
    var confirmPassword: string
    var passwordError: string

    /** Before the fetch: every field empty and the switch off. */
    constructor ()
      ensures data == EmptyTrainee && !isActive && !loading
      ensures password == "" && confirmPassword == "" && passwordError == ""
    {
      data := EmptyTrainee;
      isActive := false;
      loading := false;
      password, confirmPassword, passwordError := "", "", "";
    }

    /** The effect on the fetched trainee: nothing happens until there is one. */
    method LoadFetched(trainee: Option<Doc>)
      modifies this
      ensures trainee.Some? ==> data == LoadedTrainee(trainee.value) && isActive == LoadedActive(trainee.value)
      ensures trainee.None? ==> data == old(data) && isActive == old(isActive)
      ensures loading == old(loading)
      ensures password == old(password) && confirmPassword == old(confirmPassword) && passwordError == old(passwordError)
    {
      if trainee.Some? {
        isActive := LoadedActive(trainee.value);
        data := LoadedTrainee(trainee.value);
      }
    }

    method HandleToggle(newState: bool)
      modifies this
      ensures isActive == newState
      ensures data == old(data) && loading == old(loading)
      ensures password == old(password) && confirmPassword == old(confirmPassword) && passwordError == old(passwordError)
    {
      isActive := newState;
    }

    method HandleInputChange(f: TraineeField, value: string)
      modifies this
      ensures TraineeGet(data, f) == value
      ensures forall g :: g != f ==> TraineeGet(data, g) == TraineeGet(old(data), g)
      ensures isActive == old(isActive) && loading == old(loading)
      ensures password == old(password) && confirmPassword == old(confirmPassword) && passwordError == old(passwordError)
    {
      data := TraineeSet(data, f, value);
    }

    /** Typing a password clears the mismatch message. */
    method HandlePasswordChange(value: string)
      modifies this
      ensures password == value && passwordError == ""
      ensures data == old(data) && isActive == old(isActive) && loading == old(loading)
      ensures confirmPassword == old(confirmPassword)
    {
      password := value;
      passwordError := "";
    }

    method HandleConfirmPasswordChange(value: string)
      modifies this
      ensures confirmPassword == value && passwordError == ""
      ensures data == old(data) && isActive == old(isActive) && loading == old(loading)
      ensures password == old(password)
    {
      confirmPassword := value;
      passwordError := "";
    }

    /** Different passwords set the mismatch message and update nothing; equal
        passwords start loading and send the update. */
    method HandleSubmit() returns (update: Option<Doc>)
      modifies this
      ensures password != confirmPassword ==>
        update.None? && passwordError == PasswordMismatch && loading == old(loading)
      ensures password == confirmPassword ==>
        update == Some(UpdatePayload(data, isActive, password)) && loading && passwordError == old(passwordError)
      ensures data == old(data) && isActive == old(isActive)
      ensures password == old(password) && confirmPassword == old(confirmPassword)
    {
      if password != confirmPassword {
        passwordError := PasswordMismatch;
        return None;
      }
      loading := true;
      update := Some(UpdatePayload(data, isActive, password));
    }

    /** The `finally` after the update, whether it succeeded or failed. */
    method Settle()
      modifies this
      ensures !loading
      ensures data == old(data) && isActive == old(isActive)
      ensures password == old(password) && confirmPassword == old(confirmPassword) && passwordError == old(passwordError)
    {
      loading := false;
    }
  }
}
