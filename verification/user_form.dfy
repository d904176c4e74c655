/**
 * The form logic of ui/components/UserForm.kt: the form state, the per-field
 * validator, field updates, whole-form validation and the Save click. The
 * per-field checks form a second validator beside the priority-ordered one
 * of ValidationStrategy; the two are proved to agree.
 */
module Form {
  import opened Options
  import opened Users
  import opened Messages
  import opened ValidationResults
  import opened ValidationUtils
  import opened ValidationStrategy

  /** The four fields the form validates; `dob` and `address` are not among them. */
  datatype UserField = FirstName | LastName | Email | Phone
  {
    /** The enum constant's `name`, the key of its entry in `errors`. */
    function Name(): string {
      match this
      case FirstName => "FIRST_NAME"
      case LastName => "LAST_NAME"
      case Email => "EMAIL"
      case Phone => "PHONE"
    }
  }

  /** `FormState`: the user being edited, the error per field name, and whether a save is running. */
  datatype FormState = FormState(user: User, errors: map<string, Option<string>>, isLoading: bool)

  /** `validateField(field, value)`: the field's error message, or null. */
  function ValidateField(field: UserField, value: string, isValidEmail: string -> bool): Option<string> {
    match field
    case FirstName => if IsFieldBlank(value) then Some("First name is required") else None
    case LastName => if IsFieldBlank(value) then Some("Last name is required") else None
    case Email =>
      if IsFieldBlank(value) then Some("Email is required")
      else if !isValidEmail(value) then Some("Invalid email format")
      else None
    case Phone =>
      if IsFieldBlank(value) then Some("Phone is required")
      else if !IsValidPhone(value) then Some("Invalid phone format")
      else None
  }

  /** The user's value for a field. */
  function FieldValue(user: User, field: UserField): string {
    match field
    case FirstName => user.firstName
    case LastName => user.lastName
    case Email => user.email
    case Phone => user.phone
  }

  /** The user with one field set (`user.copy(firstName = value)` and so on). */
  function WithField(user: User, field: UserField, value: string): (r: User)
    ensures FieldValue(r, field) == value
    ensures forall other :: other != field ==> FieldValue(r, other) == FieldValue(user, other)
    ensures r.id == user.id && r.dob == user.dob && r.address == user.address
  {
    match field
    case FirstName => user.(firstName := value)
    case LastName => user.(lastName := value)
    case Email => user.(email := value)
    case Phone => user.(phone := value)
  }

  /** The `errors` map `validateForm` builds: one entry per field, keyed by its name. */
  function FormErrors(user: User, isValidEmail: string -> bool): (m: map<string, Option<string>>)
    ensures m.Keys == {"FIRST_NAME", "LAST_NAME", "EMAIL", "PHONE"}
  {
    map[
      FirstName.Name() := ValidateField(FirstName, user.firstName, isValidEmail),
      LastName.Name() := ValidateField(LastName, user.lastName, isValidEmail),
      Email.Name() := ValidateField(Email, user.email, isValidEmail),
      Phone.Name() := ValidateField(Phone, user.phone, isValidEmail)]
  }

  /** Each field's entry in the `validateForm` map is that field's check on the user's value. */
  lemma FormErrorsEntry(user: User, isValidEmail: string -> bool, f: UserField)
    ensures f.Name() in FormErrors(user, isValidEmail)
    ensures FormErrors(user, isValidEmail)[f.Name()] == ValidateField(f, FieldValue(user, f), isValidEmail)
  {
    assert |"FIRST_NAME"| == 10 && |"LAST_NAME"| == 9 && |"EMAIL"| == 5 && |"PHONE"| == 5;
    assert "EMAIL"[0] != "PHONE"[0];
  }

  /** Whether every entry of an errors map is null. */
  predicate NoErrors(errors: map<string, Option<string>>) {
    forall k :: k in errors ==> errors[k] == None
  }

  /** The field whose check each of the validator's error codes reports. */
  function FieldOf(code: ErrorCode): UserField {
    match code
    case FirstNameEmpty => FirstName
    case LastNameEmpty => LastName
    case EmailEmpty => Email
    case EmailInvalid => Email
    case PhoneEmpty => Phone
    case PhoneInvalid => Phone
  }

  /** The form's message for the check behind each error code. */
  function FormMessage(code: ErrorCode): string {
    match code
    case FirstNameEmpty => "First name is required"
    case LastNameEmpty => "Last name is required"
    case EmailEmpty => "Email is required"
    case EmailInvalid => "Invalid email format"
    case PhoneEmpty => "Phone is required"
    case PhoneInvalid => "Invalid phone format"
  }

  /** Distinct fields have distinct names, so each owns its own entry in `errors`. */
  lemma NamesDistinct(f: UserField, g: UserField)
    requires f != g
    ensures f.Name() != g.Name()
  {
    assert f.Name()[0] != g.Name()[0];
  }

  /** Each field's entry is null exactly when the user breaks none of the rules behind that field. */
  lemma EntryNullIffFieldPasses(user: User, isValidEmail: string -> bool, f: UserField)
    ensures ValidateField(f, FieldValue(user, f), isValidEmail) == None <==>
      forall code :: FieldOf(code) == f ==> !Breaks(user, isValidEmail, code)
  {
    if ValidateField(f, FieldValue(user, f), isValidEmail) != None {
      var code := match f
        case FirstName => FirstNameEmpty
        case LastName => LastNameEmpty
        case Email => if IsFieldBlank(user.email) then EmailEmpty else EmailInvalid
        case Phone => if IsFieldBlank(user.phone) then PhoneEmpty else PhoneInvalid;
      assert FieldOf(code) == f && Breaks(user, isValidEmail, code);
    }
  }

  /** The errors map has no error exactly when each field's own check passes. */
  lemma NoErrorsIffEveryFieldPasses(user: User, isValidEmail: string -> bool)
    ensures NoErrors(FormErrors(user, isValidEmail)) <==>
      forall f: UserField :: ValidateField(f, FieldValue(user, f), isValidEmail) == None
  {
    var m := FormErrors(user, isValidEmail);
    if NoErrors(m) {
      forall f: UserField
        ensures ValidateField(f, FieldValue(user, f), isValidEmail) == None
      {
        FormErrorsEntry(user, isValidEmail, f);
      }
    } else {
      var k :| k in m && m[k] != None;
      var f: UserField :| f.Name() == k;
      FormErrorsEntry(user, isValidEmail, f);
    }
  }

  /** The form shows no error exactly when the validator accepts the user. */
  lemma FormAcceptsIffValidatorAccepts(user: User, isValidEmail: string -> bool)
    ensures NoErrors(FormErrors(user, isValidEmail)) <==> Validate(user, isValidEmail).IsValid()
  {
    NoErrorsIffEveryFieldPasses(user, isValidEmail);
    ValidIffNoRuleBroken(user, isValidEmail);
    if forall f: UserField :: ValidateField(f, FieldValue(user, f), isValidEmail) == None {
      forall code
        ensures !Breaks(user, isValidEmail, code)
      {
        EntryNullIffFieldPasses(user, isValidEmail, FieldOf(code));
      }
    } else {
      var f: UserField :| ValidateField(f, FieldValue(user, f), isValidEmail) != None;
      EntryNullIffFieldPasses(user, isValidEmail, f);
    }
  }

  /**
   * When the validator rejects the user with a code, the form shows that
   * code's message on that code's field.
   */
  lemma FormShowsValidatorError(user: User, isValidEmail: string -> bool, code: ErrorCode)
    requires Validate(user, isValidEmail) == ValidationError(Resource(code))
    ensures FormErrors(user, isValidEmail)[FieldOf(code).Name()] == Some(FormMessage(code))
  {
    ReportsFirstBrokenRule(user, isValidEmail, code);
    FormErrorsEntry(user, isValidEmail, FieldOf(code));
  }

  /** The form never looks at the date of birth or the address. */
  lemma FormIgnoresDobAndAddress(user: User, dob: string, address: string, isValidEmail: string -> bool)
    ensures FormErrors(user.(dob := dob, address := address), isValidEmail) == FormErrors(user, isValidEmail)
  {
  }

  class UserForm {
    /** `formState`. */
    var formState: FormState
    const isValidEmail: string -> bool

    /** `remember { mutableStateOf(FormState(user = initialState)) }`. */
    constructor(initialState: User, isValidEmail: string -> bool)
      ensures formState == FormState(initialState, map[], false)
      ensures this.isValidEmail == isValidEmail
    {
      formState := FormState(initialState, map[], false);
      this.isValidEmail := isValidEmail;
    }

    /**
     * `updateField(field, value)`: sets the field and its entry in `errors`;
     * returns the updated user, which is what `onUserChange` receives.
     */
    method UpdateField(field: UserField, value: string) returns (updatedUser: User)
      modifies this
      ensures updatedUser == WithField(old(formState.user), field, value)
      ensures formState == old(formState).(
        user := updatedUser,
        errors := old(formState.errors)[field.Name() := ValidateField(field, value, isValidEmail)])
    {
      updatedUser := WithField(formState.user, field, value);
      var errors := ValidateField(field, value, isValidEmail);
      formState := formState.(user := updatedUser, errors := formState.errors[field.Name() := errors]);
    }

    /**
     * `validateForm()`: replaces `errors` with one entry per field and
     * returns whether all of them are null, which is exactly whether the
     * validator accepts the user.
     */
    method ValidateForm() returns (ok: bool)
      modifies this
      ensures formState == old(formState).(errors := FormErrors(old(formState.user), isValidEmail))
      ensures ok <==> NoErrors(formState.errors)
      ensures ok <==> Validate(formState.user, isValidEmail).IsValid()
    {
      var errors := FormErrors(formState.user, isValidEmail);
      formState := formState.(errors := errors);
      FormAcceptsIffValidatorAccepts(formState.user, isValidEmail);
      FormErrorsEntry(formState.user, isValidEmail, FirstName);
      FormErrorsEntry(formState.user, isValidEmail, LastName);
      FormErrorsEntry(formState.user, isValidEmail, Email);
      FormErrorsEntry(formState.user, isValidEmail, Phone);
      ok := errors[FirstName.Name()] == None && errors[LastName.Name()] == None
        && errors[Email.Name()] == None && errors[Phone.Name()] == None;
    }

    /**
     * The Save button's click: ignored while a save is running (the button
     * is disabled); otherwise the form is validated and, when it passes,
     * `isLoading` is set and the submission starts (`submitted`).
     */
    method ClickSave() returns (submitted: bool)
      modifies this
      ensures old(formState.isLoading) ==> !submitted && formState == old(formState)
      ensures !old(formState.isLoading) ==>
        submitted == Validate(old(formState.user), isValidEmail).IsValid()
        && formState == old(formState).(errors := FormErrors(old(formState.user), isValidEmail), isLoading := submitted)
    {
      if formState.isLoading {
        return false;
      }
      submitted := ValidateForm();
      if submitted {
        formState := formState.(isLoading := true);
      }
    }
  }

  /**
   * A field update touches only that field's entry in `errors`: every other
   * key keeps its old entry, or stays absent.
   */
  lemma UpdateKeepsOtherErrors(errors: map<string, Option<string>>, field: UserField, other: UserField,
                               entry: Option<string>)
    requires other != field
    ensures other.Name() in errors[field.Name() := entry] <==> other.Name() in errors
    ensures other.Name() in errors ==> errors[field.Name() := entry][other.Name()] == errors[other.Name()]
  {
    NamesDistinct(field, other);
  }
}
