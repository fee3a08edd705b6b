/**
 * The client-side checks of the login and registration forms, the payload the
 * registration form submits, and the redirect of a logged-in visitor.
 */
module AuthPage {
  import opened Wrappers
  import opened Schema
  import opened Storage
  import opened Http
  import opened Credentials
  import Auth

  const MinUsernameLength: nat := 3

  datatype LoginForm = LoginForm(username: string, password: string)

  datatype RegisterForm = RegisterForm(username: string, password: string, confirmPassword: string)

  /** `loginSchema`: both members are required, that is at least one character long. */
  function ValidateLogin(form: LoginForm): (r: Result<LoginForm, seq<Issue>>)
    ensures r.Success? <==> form.username != "" && form.password != ""
    ensures r.Success? ==> r.value == form
    ensures r.Failure? ==>
      && (Issue("username", TooSmall(1)) in r.error <==> form.username == "")
      && (Issue("password", TooSmall(1)) in r.error <==> form.password == "")
  {
    var issues := MinLength("username", form.username, 1) + MinLength("password", form.password, 1);
    if issues == [] then Success(form) else Failure(issues)
  }

  /**
   * `registerSchema`: length checks on the three members, then the refinement that
   * the confirmation repeats the password, reported on `confirmPassword`. The
   * members are always strings here, so the refinement always runs.
   */
  function ValidateRegister(form: RegisterForm): (r: Result<RegisterForm, seq<Issue>>)
    ensures r.Success? <==>
      && |form.username| >= MinUsernameLength
      && |form.password| >= MinPasswordLength
      && |form.confirmPassword| >= MinPasswordLength
      && form.password == form.confirmPassword
    ensures r.Success? ==> r.value == form
    ensures r.Failure? ==>
      && (Issue("confirmPassword", Mismatch) in r.error <==> form.password != form.confirmPassword)
      && (Issue("username", TooSmall(MinUsernameLength)) in r.error <==> |form.username| < MinUsernameLength)
  {
    var issues :=
      MinLength("username", form.username, MinUsernameLength)
      + MinLength("password", form.password, MinPasswordLength)
      + MinLength("confirmPassword", form.confirmPassword, MinPasswordLength);
    var refinement := if form.password != form.confirmPassword then [Issue("confirmPassword", Mismatch)] else [];
    if issues + refinement == [] then Success(form) else Failure(issues + refinement)
  }

  /** `onRegisterSubmit`: the confirmation is dropped; the profile members are not on the form. */
  function RegisterPayload(form: RegisterForm): (p: Auth.Registration)
    ensures p.username == form.username && p.password == form.password
    ensures p.firstName.None? && p.lastName.None? && p.email.None?
  {
    Auth.Registration(form.username, form.password, None, None, None)
  }

  datatype Page = RedirectTo(path: string) | ShowForms

  /** A visitor who is already logged in is sent to the product list instead of seeing the forms. */
  function AuthPageView(user: Option<User>): (v: Page)
    ensures v.RedirectTo? <==> user.Some?
    ensures v.RedirectTo? ==> v.path == "/products"
  {
    if user.Some? then RedirectTo("/products") else ShowForms
  }

  /** Whatever the registration form accepts, the login form accepts as well. */
  lemma RegisteredCredentialsPassLogin(form: RegisterForm)
    requires ValidateRegister(form).Success?
    ensures ValidateLogin(LoginForm(form.username, form.password)).Success?
  {
  }

  /**
   * A registration the form accepts, for an unused username, is stored by the
   * server, and the same username and password then log in.
   */
  lemma AcceptedRegistrationCanLogIn(s: Store, session: Session, form: RegisterForm, salt: Salt, scrypt: Kdf, later: Session)
    requires Valid(s) && !Taken(s, form.username)
    requires ValidateRegister(form).Success?
    ensures var r := Auth.Register(s, session, RegisterPayload(form), salt, scrypt);
      && r.response.status == 201
      && Auth.Login(r.store, later, form.username, form.password, scrypt).response.status == 200
  {
    Auth.RegisterThenLogin(s, session, RegisterPayload(form), salt, scrypt, later);
  }
}
