/** The form that adds a trainee (src/pages/Trainee/TraineeAdd.tsx): nine text
    fields, an active switch, a password typed twice, and a submit that is
    refused when the two passwords differ. The document write is I/O: submit
    returns the document it hands to the store, and `Settle` is the `finally`
    that runs once the write has resolved or rejected. */
module TraineeAdd {
  import opened Wrappers
  import opened Forms

  /** `{ ...traineeData, role: 'trainee', password, isActive }`. */
  function NewTraineeDoc(d: TraineeData, password: string, isActive: bool): (r: Doc)
    ensures r.Keys == TraineeKeys + {"role", "password", "isActive"}
    ensures "role" in r && r["role"] == Str("trainee")
    ensures "password" in r && r["password"] == Str(password)
    ensures "isActive" in r && r["isActive"] == Bool(isActive)
    ensures forall f :: TraineeKey(f) in r && r[TraineeKey(f)] == Str(TraineeGet(d, f))
  {
    ExtraKeysNotFields();
    var base := TraineeDoc(d);
    base["role" := Str("trainee")]["password" := Str(password)]["isActive" := Bool(isActive)]
  }

  class TraineeAddForm {
    var data: TraineeData
    var isActive: bool
    var loading: bool
    var password: string
    var confirmPassword: string
    var passwordError: string

    /** A new trainee starts active, with every field empty. */
    constructor ()
      ensures data == EmptyTrainee && isActive && !loading
      ensures password == "" && confirmPassword == "" && passwordError == ""
    {
      data := EmptyTrainee;
      isActive := true;
      loading := false;
      password, confirmPassword, passwordError := "", "", "";
    }

    method HandleToggle(newState: bool)
      modifies this
      ensures isActive == newState
      ensures data == old(data) && loading == old(loading)
      ensures password == old(password) && confirmPassword == old(confirmPassword) && passwordError == old(passwordError)
    {
      isActive := newState;
    }

    method HandleInputChange(f: TraineeField, value: string)
      modifies this
      ensures TraineeGet(data, f) == value
      ensures forall g :: g != f ==> TraineeGet(data, g) == TraineeGet(old(data), g)
      ensures isActive == old(isActive) && loading == old(loading)
      ensures password == old(password) && confirmPassword == old(confirmPassword) && passwordError == old(passwordError)
    {
      data := TraineeSet(data, f, value);
    }

    /** Typing a password clears the mismatch message. */
    method HandlePasswordChange(value: string)
      modifies this
      ensures password == value && passwordError == ""
      ensures data == old(data) && isActive == old(isActive) && loading == old(loading)
      ensures confirmPassword == old(confirmPassword)
    {
      password := value;
      passwordError := "";
    }

    method HandleConfirmPasswordChange(value: string)
      modifies this
      ensures confirmPassword == value && passwordError == ""
      ensures data == old(data) && isActive == old(isActive) && loading == old(loading)
      ensures password == old(password)
    {
      confirmPassword := value;
      passwordError := "";
    }

    /** Different passwords set the mismatch message and send nothing; equal
        passwords start loading and send the new trainee document. */
    method HandleSubmit() returns (sent: Option<Doc>)
      modifies this
      ensures password != confirmPassword ==>
        sent.None? && passwordError == PasswordMismatch && loading == old(loading)
      ensures password == confirmPassword ==>
        sent == Some(NewTraineeDoc(data, password, isActive)) && loading && passwordError == old(passwordError)
      ensures data == old(data) && isActive == old(isActive)
      ensures password == old(password) && confirmPassword == old(confirmPassword)
    {
      if password != confirmPassword {
        passwordError := PasswordMismatch;
        return None;
      }
      loading := true;
      sent := Some(NewTraineeDoc(data, password, isActive));
    }

    /** The `finally` after the write, whether it succeeded or failed. */
    method Settle()
      modifies this
      ensures !loading
      ensures data == old(data) && isActive == old(isActive)
      ensures password == old(password) && confirmPassword == old(confirmPassword) && passwordError == old(passwordError)
    {
      loading := false;
    }
  }
}
