/** The login screen: its validation, the successful-login branch, and the logout on arrival. */
module Login {
  import opened Wrappers
  import opened Text
  import opened Regex
  import opened Patterns
  import opened Http
  import Register
  import Auth
  import opened Guard

  /** `formData` of the login screen. */
  datatype LoginForm = LoginForm(email: string, password: string)

  const EmptyLoginForm := LoginForm("", "")

  /** The two fields the login form checks. */
  const LoginFields: set<Register.AccountField> := {Register.Email, Register.Password}

  /** The rule for one key of the error object; the login form has no other keys. */
  function LoginFieldError(form: LoginForm, field: Register.AccountField): Option<string> {
    if field == Register.Email then Register.EmailError(form.email)
    else if field == Register.Password then Register.PasswordError(form.password)
    else None
  }

  /** The error object `validate` computes. */
  function LoginErrors(form: LoginForm): (r: map<Register.AccountField, string>)
    ensures r.Keys <= LoginFields
  {
    map field | field in LoginFields && LoginFieldError(form, field).Some? :: LoginFieldError(form, field).value
  }

  /** `validate`: the e-mail chain, then the password chain; valid iff no message was recorded. */
  method Validate(form: LoginForm) returns (newErrors: map<Register.AccountField, string>, valid: bool)
    ensures newErrors == LoginErrors(form)
    ensures valid <==> newErrors == map[]
  {
    newErrors := map[];
    if !Truthy(form.email) {
      newErrors := newErrors[Register.Email := Register.EmailRequired];
    } else if !Matches(EmailRegex, form.email) {
      newErrors := newErrors[Register.Email := Register.EmailInvalid];
    }
    if !Truthy(form.password) {
      newErrors := newErrors[Register.Password := Register.PasswordRequired];
    } else if Utf16Length(form.password) < Register.MinPasswordLength {
      newErrors := newErrors[Register.Password := Register.PasswordTooShort];
    }
    LoginErrorsInOrder(form);
    valid := |newErrors| == 0;
  }

  /** The error object is what the two chains record one after the other. */
  lemma LoginErrorsInOrder(form: LoginForm)
    ensures LoginErrors(form) == Register.Record(Register.Record(map[], Register.Email, Register.EmailError(form.email)), Register.Password, Register.PasswordError(form.password))
  {
    var e := LoginErrors(form);
    var r := Register.Record(Register.Record(map[], Register.Email, Register.EmailError(form.email)), Register.Password, Register.PasswordError(form.password));
    forall field ensures (field in e <==> field in r) && (field in e ==> e[field] == r[field]) {
    }
    assert e.Keys == r.Keys;
  }

  /** Login applies exactly Register's e-mail and password rules, with the same messages. */
  lemma SameRulesAsRegister(r: Register.RegisterForm)
    ensures LoginErrors(LoginForm(r.email, r.password)) ==
      map field | field in Register.RegisterErrors(r) && field in LoginFields :: Register.RegisterErrors(r)[field]
  {
    var e := LoginErrors(LoginForm(r.email, r.password));
    var restricted := map field | field in Register.RegisterErrors(r) && field in LoginFields :: Register.RegisterErrors(r)[field];
    forall field ensures (field in e <==> field in restricted) && (field in e ==> e[field] == restricted[field]) {
      Register.RegisterErrorsAt(r, field);
    }
    assert e.Keys == restricted.Keys;
  }

  /** The login form is valid exactly when the e-mail has the pattern's shape and the password is long enough. */
  lemma LoginValidIff(form: LoginForm)
    ensures LoginErrors(form) == map[] <==>
      IsEmailText(form.email) && Utf16Length(form.password) >= Register.MinPasswordLength
  {
    Register.EmailRule(form.email);
    Register.PasswordRule(form.password);
    var e := LoginErrors(form);
    assert Register.Email in e <==> Register.EmailError(form.email).Some?;
    assert Register.Password in e <==> Register.PasswordError(form.password).Some?;
    if e != map[] {
      var field :| field in e;
    }
  }

  /** The inputs of the login form, by their `name`. */
  datatype LoginInput = EmailInput | PasswordInput

  /** `handleChange`: copy the form and overwrite the named field. */
  function Changed(form: LoginForm, input: LoginInput, value: string): (r: LoginForm)
    ensures input == EmailInput ==> r.email == value && r.password == form.password
    ensures input == PasswordInput ==> r.password == value && r.email == form.email
  {
    match input
    case EmailInput => form.(email := value)
    case PasswordInput => form.(password := value)
  }

  /** The `data` of the login answer: absent, or an object whose `token` may be missing. */
  datatype LoginData = NoData | Data(token: Option<string>)

  /** What `localStorage.setItem` stores for `data.token`: a missing token becomes the text "undefined". */
  function StoredText(token: Option<string>): string {
    match token
    case None => "undefined"
    case Some(t) => t
  }

  /**
   * A successful answer raises the flag, and the flag agrees with the slot
   * exactly when the server did not send the empty token; a missing token
   * stores the text "undefined", which the provider reads as signed in.
   */
  lemma SuccessKeepsSessionConsistent(s: Auth.AuthState, token: Option<string>)
    requires !s.loading
    ensures Auth.Step(s, Auth.AuthEvent.Login(StoredText(token))).isAuthenticated == Some(true)
    ensures Auth.Consistent(Auth.Step(s, Auth.AuthEvent.Login(StoredText(token)))) <==> token != Some("")
  {
  }

  /** The login screen's state. */
  class LoginView {
    var formData: LoginForm
    var errors: map<Register.AccountField, string>

    constructor ()
      ensures formData == EmptyLoginForm && errors == map[]
    {
      formData := EmptyLoginForm;
      errors := map[];
    }

    /** The `location.pathname` effect: arriving at the login path signs the user out. */
    method OnPath(auth: Auth.AuthProvider, path: string)
      modifies auth
      ensures path == LoginPath ==> auth.State() == Auth.Step(old(auth.State()), Auth.AuthEvent.Logout)
      ensures path != LoginPath ==> auth.State() == old(auth.State())
    {
      if path == LoginPath {
        auth.Logout();
      }
    }

    /** `handleChange`. */
    method HandleChange(input: LoginInput, value: string)
      modifies this`formData
      ensures formData == Changed(old(formData), input, value)
    {
      formData := Changed(formData, input, value);
    }

    /** `validate`: store the error object; valid iff it is empty. */
    method ValidateForm() returns (valid: bool)
      modifies this`errors
      ensures errors == LoginErrors(formData)
      ensures valid <==> errors == map[]
    {
      var newErrors;
      newErrors, valid := Validate(formData);
      errors := newErrors;
    }

    /**
     * `handleSubmit`: validate; when valid the form is posted and `reply` is the
     * answer. Only a body with `statusCode` 200 and a `data` object signs in, with
     * `data.token` as text; anything else, a failed request included, leaves the
     * provider as it was.
     */
    method HandleSubmit(auth: Auth.AuthProvider, reply: Response<LoginData>)
      modifies this`errors, auth
      ensures errors == LoginErrors(formData)
      ensures errors == map[] && reply.Is(200) && reply.data.Data?
          ==> auth.State() == Auth.Step(old(auth.State()), Auth.AuthEvent.Login(StoredText(reply.data.token)))
      ensures !(errors == map[] && reply.Is(200) && reply.data.Data?) ==> auth.State() == old(auth.State())
    {
      var valid := ValidateForm();
      if valid && reply.Is(200) && reply.data.Data? {
        var token := StoredText(reply.data.token);
        auth.Login(token);
        auth.StoreToken(token);
      }
    }
  }
}
