/** The registration form's client-side validation. */
module Register {
  import opened Text
  import opened Regex
  import opened Wrappers
  import opened Patterns

  /** The keys of the error object; the login form uses `Email` and `Password` too. */
  datatype AccountField = FirstName | LastName | Email | Password | Mobile | Gender

  /** `formData` of the registration screen. */
  datatype RegisterForm = RegisterForm(
    firstName: string, lastName: string, email: string,
    password: string, mobile: string, gender: string)

  const RegisterFields: set<AccountField> := {FirstName, LastName, Email, Password, Mobile, Gender}

  const FirstNameRequired := "First name is required"
  const FirstNameInvalid := "First name is invalid"
  const LastNameRequired := "Last name is required"
  const LastNameInvalid := "Last name is invalid"
  const EmailRequired := "Email is required"
  const EmailInvalid := "Email is invalid"
  const PasswordRequired := "Password is required"
  const PasswordTooShort := "Password must be at least 6 characters"
  const MobileRequired := "Mobile number is required"
  const MobileInvalid := "Mobile number must be 10 digits"
  const GenderRequired := "Gender is required"

  /** The shortest password, counted in UTF-16 code units as `length` counts. */
  const MinPasswordLength := 6

  function ValueOf(form: RegisterForm, field: AccountField): string {
    match field
    case FirstName => form.firstName
    case LastName => form.lastName
    case Email => form.email
    case Password => form.password
    case Mobile => form.mobile
    case Gender => form.gender
  }

  function RequiredMessage(field: AccountField): string {
    match field
    case FirstName => FirstNameRequired
    case LastName => LastNameRequired
    case Email => EmailRequired
    case Password => PasswordRequired
    case Mobile => MobileRequired
    case Gender => GenderRequired
  }

  /** The shape of five of the six checks: "required" when the value is empty, else the format message when the check fails. */
  function RequiredThen(value: string, formatOk: bool, required: string, invalid: string): Option<string> {
    if !Truthy(value) then Some(required) else if !formatOk then Some(invalid) else None
  }

  /** The e-mail check both account forms share: required, then the e-mail pattern. */
  function EmailError(email: string): Option<string> {
    RequiredThen(email, Matches(EmailRegex, email), EmailRequired, EmailInvalid)
  }

  /** The password check both account forms share: required, then the minimum length. */
  function PasswordError(password: string): Option<string> {
    RequiredThen(password, Utf16Length(password) >= MinPasswordLength, PasswordRequired, PasswordTooShort)
  }

  /** One field's message: its "required" message when empty, else its format message if it fails. */
  function RegisterFieldError(form: RegisterForm, field: AccountField): Option<string> {
    match field
    case FirstName => RequiredThen(form.firstName, Matches(PersonNameRegex, form.firstName), FirstNameRequired, FirstNameInvalid)
    case LastName => RequiredThen(form.lastName, Matches(PersonNameRegex, form.lastName), LastNameRequired, LastNameInvalid)
    case Email => EmailError(form.email)
    case Password => PasswordError(form.password)
    case Mobile => RequiredThen(form.mobile, Matches(MobileRegex, form.mobile), MobileRequired, MobileInvalid)
    case Gender => if !Truthy(form.gender) then Some(GenderRequired) else None
  }

  /** The messages of the fields in `fields`: the error object once every field has been checked. */
  function ErrorsAmong(form: RegisterForm, fields: set<AccountField>): map<AccountField, string> {
    map field | field in fields && RegisterFieldError(form, field).Some? :: RegisterFieldError(form, field).value
  }

  /** The error object `validate` computes. */
  function RegisterErrors(form: RegisterForm): map<AccountField, string> {
    ErrorsAmong(form, RegisterFields)
  }

  /** `m` with `field`'s message recorded, when there is one. */
  function Record(m: map<AccountField, string>, field: AccountField, message: Option<string>): map<AccountField, string> {
    match message
    case None => m
    case Some(text) => m[field := text]
  }

  /** Checking one more field records its message, if any, and keeps the others. */
  lemma CheckOneMore(form: RegisterForm, fields: set<AccountField>, field: AccountField)
    ensures ErrorsAmong(form, fields + {field}) == Record(ErrorsAmong(form, fields), field, RegisterFieldError(form, field))
  {
  }

  /** The error object is what checking the six fields one after the other records. */
  lemma FieldsInOrder(form: RegisterForm)
    ensures RegisterErrors(form) ==
      Record(Record(Record(Record(Record(Record(map[],
        FirstName, RequiredThen(form.firstName, Matches(PersonNameRegex, form.firstName), FirstNameRequired, FirstNameInvalid)),
        LastName, RequiredThen(form.lastName, Matches(PersonNameRegex, form.lastName), LastNameRequired, LastNameInvalid)),
        Email, RequiredThen(form.email, Matches(EmailRegex, form.email), EmailRequired, EmailInvalid)),
        Password, RequiredThen(form.password, Utf16Length(form.password) >= MinPasswordLength, PasswordRequired, PasswordTooShort)),
        Mobile, RequiredThen(form.mobile, Matches(MobileRegex, form.mobile), MobileRequired, MobileInvalid)),
        Gender, if !Truthy(form.gender) then Some(GenderRequired) else None)
  {
    var none: set<AccountField> := {};
    assert RegisterFieldError(form, Gender) == (if !Truthy(form.gender) then Some(GenderRequired) else None);
    assert ErrorsAmong(form, none) == map[];
    CheckOneMore(form, none, FirstName);
    var names := none + {FirstName};
    CheckOneMore(form, names, LastName);
    var bothNames := names + {LastName};
    CheckOneMore(form, bothNames, Email);
    var withEmail := bothNames + {Email};
    CheckOneMore(form, withEmail, Password);
    var withPassword := withEmail + {Password};
    CheckOneMore(form, withPassword, Mobile);
    var withMobile := withPassword + {Mobile};
    CheckOneMore(form, withMobile, Gender);
    var all := withMobile + {Gender};
    assert all == RegisterFields;
    assert RegisterErrors(form) == ErrorsAmong(form, all);
  }

  /** One field's if/else chain of `validate`: record `required` for an empty value, else `invalid` when the format check fails. */
  method CheckField(newErrors: map<AccountField, string>, field: AccountField, value: string, formatOk: bool, required: string, invalid: string)
    returns (updated: map<AccountField, string>)
    ensures updated == Record(newErrors, field, RequiredThen(value, formatOk, required, invalid))
  {
    updated := newErrors;
    if !Truthy(value) {
      updated := updated[field := required];
    } else if !formatOk {
      updated := updated[field := invalid];
    }
  }

  /** `validate`: fill `newErrors` through one if/else chain per field; valid iff it stays empty. */
  method Validate(form: RegisterForm) returns (newErrors: map<AccountField, string>, valid: bool)
    ensures newErrors == RegisterErrors(form)
    ensures valid <==> newErrors == map[]
  {
    newErrors := map[];
    newErrors := CheckField(newErrors, FirstName, form.firstName, Matches(PersonNameRegex, form.firstName), FirstNameRequired, FirstNameInvalid);
    newErrors := CheckField(newErrors, LastName, form.lastName, Matches(PersonNameRegex, form.lastName), LastNameRequired, LastNameInvalid);
    newErrors := CheckField(newErrors, Email, form.email, Matches(EmailRegex, form.email), EmailRequired, EmailInvalid);
    newErrors := CheckField(newErrors, Password, form.password, Utf16Length(form.password) >= MinPasswordLength, PasswordRequired, PasswordTooShort);
    newErrors := CheckField(newErrors, Mobile, form.mobile, Matches(MobileRegex, form.mobile), MobileRequired, MobileInvalid);
    if !Truthy(form.gender) {
      newErrors := newErrors[Gender := GenderRequired];
    }
    FieldsInOrder(form);
    valid := |newErrors| == 0;
  }

  /** The error object holds a field exactly when that field's check produced a message. */
  lemma RegisterErrorsAt(form: RegisterForm, field: AccountField)
    ensures field in RegisterErrors(form) <==> RegisterFieldError(form, field).Some?
    ensures field in RegisterErrors(form) ==> RegisterErrors(form)[field] == RegisterFieldError(form, field).value
  {
    assert field in RegisterFields by {
      match field
      case FirstName =>
      case LastName =>
      case Email =>
      case Password =>
      case Mobile =>
      case Gender =>
    }
  }

  /** An empty field always gets its "required" message: the format check is never reached. */
  lemma RequiredComesFirst(form: RegisterForm, field: AccountField)
    requires ValueOf(form, field) == ""
    ensures field in RegisterErrors(form) && RegisterErrors(form)[field] == RequiredMessage(field)
  {
    RegisterErrorsAt(form, field);
  }

  /** Names: required, then one or more ASCII letters only (no spaces, digits or accents). */
  lemma NameRules(form: RegisterForm)
    ensures FirstName in RegisterErrors(form) <==> !(|form.firstName| >= 1 && AllLetters(form.firstName))
    ensures LastName in RegisterErrors(form) <==> !(|form.lastName| >= 1 && AllLetters(form.lastName))
    ensures FirstName in RegisterErrors(form) ==>
      RegisterErrors(form)[FirstName] == if form.firstName == "" then FirstNameRequired else FirstNameInvalid
    ensures LastName in RegisterErrors(form) ==>
      RegisterErrors(form)[LastName] == if form.lastName == "" then LastNameRequired else LastNameInvalid
  {
    RegisterErrorsAt(form, FirstName);
    RegisterErrorsAt(form, LastName);
    PersonNameRegexMeaning(form.firstName);
    PersonNameRegexMeaning(form.lastName);
  }

  /** E-mail: required, then no whitespace, an `@` after the first character and a `.` inside the domain. */
  lemma EmailRule(email: string)
    ensures EmailError(email) ==
      if email == "" then Some(EmailRequired) else if !IsEmailText(email) then Some(EmailInvalid) else None
  {
    EmailRegexMeaning(email);
  }

  /** Password: required, then at least six UTF-16 code units; six characters or more always suffice, two or fewer never do. */
  lemma PasswordRule(password: string)
    ensures PasswordError(password) ==
      if password == "" then Some(PasswordRequired)
      else if Utf16Length(password) < MinPasswordLength then Some(PasswordTooShort)
      else None
    ensures |password| >= MinPasswordLength ==> PasswordError(password) == None
    ensures 1 <= |password| < MinPasswordLength / 2 ==> PasswordError(password) == Some(PasswordTooShort)
  {
  }

  /** Mobile: required, then exactly ten ASCII digits (no `+`, spaces or dashes). */
  lemma MobileRule(form: RegisterForm)
    ensures Mobile in RegisterErrors(form) <==> !(|form.mobile| == 10 && AllDigits(form.mobile))
    ensures Mobile in RegisterErrors(form) ==>
      RegisterErrors(form)[Mobile] == if form.mobile == "" then MobileRequired else MobileInvalid
  {
    RegisterErrorsAt(form, Mobile);
    MobileRegexMeaning(form.mobile);
  }

  /** Gender: only required; any selected value passes. */
  lemma GenderRule(form: RegisterForm)
    ensures Gender in RegisterErrors(form) <==> form.gender == ""
    ensures Gender in RegisterErrors(form) ==> RegisterErrors(form)[Gender] == GenderRequired
  {
    RegisterErrorsAt(form, Gender);
  }

  /** The form is valid exactly when every one of the six rules holds. */
  lemma {:induction false} RegisterValidIff(form: RegisterForm)
    ensures RegisterErrors(form) == map[] <==>
      && |form.firstName| >= 1 && AllLetters(form.firstName)
      && |form.lastName| >= 1 && AllLetters(form.lastName)
      && IsEmailText(form.email)
      && Utf16Length(form.password) >= MinPasswordLength
      && |form.mobile| == 10 && AllDigits(form.mobile)
      && form.gender != ""
  {
    NameRules(form);
    RegisterErrorsAt(form, Email);
    EmailRule(form.email);
    RegisterErrorsAt(form, Password);
    PasswordRule(form.password);
    MobileRule(form);
    GenderRule(form);
    var e := RegisterErrors(form);
    if e != map[] {
      var field :| field in e;
      assert field in RegisterFields;
    }
  }
}
