/** The form that adds an admin (src/pages/Admin/AdminAdd.tsx): name, email
    and division, an active switch and a password typed twice. Submit creates
    the sign-in account first and then stores the admin record under the new
    account's uid. Both calls are I/O: submit returns the sign-up request, and
    `Complete` receives the uid the account creation produced (`None` when it
    rejected) and returns the record write it then performs. */
module AdminAdd {
  import opened Wrappers
  import opened Forms

  datatype AdminField = Name | Email | Division

  datatype AdminData = AdminData(name: string, email: string, division: string)

  function AdminGet(d: AdminData, f: AdminField): string {
    match f
    case Name => d.name
    case Email => d.email
    case Division => d.division
  }

  /** `{ ...prev, [name]: value }`. */
  function AdminSet(d: AdminData, f: AdminField, v: string): (r: AdminData)
    ensures AdminGet(r, f) == v
    ensures forall g :: g != f ==> AdminGet(r, g) == AdminGet(d, g)
  {
    match f
    case Name => d.(name := v)
    case Email => d.(email := v)
    case Division => d.(division := v)
  }

  /** `{ ...adminData, role: 'admin', isActive }`: the password goes to the
      account only, never into the stored record. */
  function AdminRecord(d: AdminData, isActive: bool): (r: Doc)
    ensures r.Keys == {"name", "email", "division", "role", "isActive"}
    ensures "password" !in r
    ensures r["role"] == Str("admin") && r["isActive"] == Bool(isActive)
    ensures r["name"] == Str(d.name) && r["email"] == Str(d.email) && r["division"] == Str(d.division)
  {
    map["name" := Str(d.name), "email" := Str(d.email), "division" := Str(d.division),
        "role" := Str("admin"), "isActive" := Bool(isActive)]
  }

  /** What submit hands to the account service: the email and password, and
      the record it will store once the account exists. */
  datatype SignUpRequest = SignUpRequest(email: string, password: string, record: Doc)

  /** A `setDoc` of `record` under the document id `uid`. */
  datatype RecordWrite = RecordWrite(uid: string, record: Doc)

  class AdminAddForm {
    var data: AdminData
    var isActive: bool
    var loading: bool
    var password: string
    var confirmPassword: string
    var passwordError: string

    /** A new admin starts active, with every field empty. */
    constructor ()
      ensures data == AdminData("", "", "") && isActive && !loading
      ensures password == "" && confirmPassword == "" && passwordError == ""
    {
      data := AdminData("", "", "");
      isActive := true;
      loading := false;
      password, confirmPassword, passwordError := "", "", "";
    }

    method HandleToggle(newState: bool)
      modifies this
      ensures isActive == newState
      ensures data == old(data) && loading == old(loading)
      ensures password == old(password) && confirmPassword == old(confirmPassword) && passwordError == old(passwordError)
    {
      isActive := newState;
    }

    method HandleInputChange(f: AdminField, value: string)
      modifies this
      ensures AdminGet(data, f) == value
      ensures forall g :: g != f ==> AdminGet(data, g) == AdminGet(old(data), g)
      ensures isActive == old(isActive) && loading == old(loading)
      ensures password == old(password) && confirmPassword == old(confirmPassword) && passwordError == old(passwordError)
    {
      data := AdminSet(data, f, value);
    }

    /** Typing a password clears the mismatch message. */
    method HandlePasswordChange(value: string)
      modifies this
      ensures password == value && passwordError == ""
      ensures data == old(data) && isActive == old(isActive) && loading == old(loading)
      ensures confirmPassword == old(confirmPassword)
    {
      password := value;
      passwordError := "";
    }

    method HandleConfirmPasswordChange(value: string)
      modifies this
      ensures confirmPassword == value && passwordError == ""
      ensures data == old(data) && isActive == old(isActive) && loading == old(loading)
      ensures password == old(password)
    {
      confirmPassword := value;
      passwordError := "";
    }

    /** Different passwords set the mismatch message and create nothing; equal
        passwords start loading and ask for the account. */
    method HandleSubmit() returns (request: Option<SignUpRequest>)
      modifies this
      ensures password != confirmPassword ==>
        request.None? && passwordError == PasswordMismatch && loading == old(loading)
      ensures password == confirmPassword ==>
        request == Some(SignUpRequest(data.email, password, AdminRecord(data, isActive)))
        && loading && passwordError == old(passwordError)
      ensures data == old(data) && isActive == old(isActive)
      ensures password == old(password) && confirmPassword == old(confirmPassword)
    {
      if password != confirmPassword {
        passwordError := PasswordMismatch;
        return None;
      }
      loading := true;
      request := Some(SignUpRequest(data.email, password, AdminRecord(data, isActive)));
    }

    /** The rest of submit: the record is stored only when the account was
        created, and loading ends either way (the record write's own outcome
        changes nothing further). */
    method Complete(request: SignUpRequest, created: Option<string>) returns (write: Option<RecordWrite>)
      modifies this
      ensures created.None? ==> write.None?
      ensures created.Some? ==> write == Some(RecordWrite(created.value, request.record))
      ensures !loading
      ensures data == old(data) && isActive == old(isActive)
      ensures password == old(password) && confirmPassword == old(confirmPassword) && passwordError == old(passwordError)
    {
      write := None;
      if created.Some? {
        write := Some(RecordWrite(created.value, request.record));
      }
      loading := false;
    }
  }
}
