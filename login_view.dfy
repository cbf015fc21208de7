/** The sign-in and registration page (`Login`): one form shared by both modes, the five
    strength flags of the password, and what submitting does in each mode. The calls into
    the session manager are those of `Session.AuthProvider`; what the server answers is
    an input. */
module LoginView {
  import PasswordPolicy
  import Session

  /** The form's fields. */
  datatype Form = Form(name: string, email: string, password: string, department: string)

  /** The form as the page opens it and as every reset leaves it. */
  const EmptyForm := Form("", "", "", "CCR")

  /** The names of the form's inputs. */
  predicate IsField(name: string) { name in {"name", "email", "password", "department"} }

  /** `{...formData, [name]: value}`: the named field replaced, the others kept. */
  function WithField(f: Form, name: string, value: string): (r: Form)
    requires IsField(name)
    ensures name == "name" ==> r == f.(name := value)
    ensures name == "email" ==> r == f.(email := value)
    ensures name == "password" ==> r == f.(password := value)
    ensures name == "department" ==> r == f.(department := value)
  {
    match name
    case "name" => f.(name := value)
    case "email" => f.(email := value)
    case "password" => f.(password := value)
    case _ => f.(department := value)
  }

  /** The request a submit sends, if any. */
  datatype Call = NoCall | LoginCall(email: string, password: string) | RegisterCall(form: Form)

  class LoginPage {
    var isLogin: bool
    var showPassword: bool
    var strength: PasswordPolicy.Strength
    var form: Form

    constructor()
      ensures isLogin && !showPassword && strength == PasswordPolicy.NoStrength && form == EmptyForm
    {
      isLogin := true;
      showPassword := false;
      strength := PasswordPolicy.NoStrength;
      form := EmptyForm;
    }

    /** `handleChange`: the field is updated; the flags are recomputed only for the
        password. */
    method HandleChange(name: string, value: string)
      requires IsField(name)
      modifies this
      ensures form == WithField(old(form), name, value)
      ensures strength == if name == "password" then PasswordPolicy.ClientStrength(value) else old(strength)
      ensures isLogin == old(isLogin) && showPassword == old(showPassword)
    {
      form := WithField(form, name, value);
      if name == "password" {
        strength := PasswordPolicy.ClientStrength(value);
      }
    }

    /** The eye button. */
    method ToggleShowPassword()
      modifies this
      ensures showPassword == !old(showPassword)
      ensures isLogin == old(isLogin) && strength == old(strength) && form == old(form)
    {
      showPassword := !showPassword;
    }

    /** `switchToLogin`: the form is reset and the password hidden; the flags stay. */
    method SwitchToLogin()
      modifies this
      ensures isLogin && form == EmptyForm && !showPassword && strength == old(strength)
    {
      isLogin := true;
      form := EmptyForm;
      showPassword := false;
    }

    /** `switchToRegister`. */
    method SwitchToRegister()
      modifies this
      ensures !isLogin && form == EmptyForm && !showPassword && strength == old(strength)
    {
      isLogin := false;
      form := EmptyForm;
      showPassword := false;
    }

    /** `handleSubmit`. In login mode the credentials go to `login` and a success navigates
        home. In registration mode a weak password stops the submit before any request; a
        successful registration switches to login mode with the form and the flags reset.
        `granted` and `registration` are the server's answers to the two requests. */
    method Submit(auth: Session.AuthProvider, granted: Session.LoginOutcome,
                  registration: Session.RegisterOutcome, now: int)
      returns (call: Call, navigateHome: bool)
      modifies this, auth
      ensures old(isLogin) ==>
        && call == LoginCall(old(form).email, old(form).password)
        && navigateHome == granted.Granted?
        && auth.Snapshot() == Session.Login(old(auth.Snapshot()), granted, now)
        && isLogin && form == old(form) && strength == old(strength) && showPassword == old(showPassword)
      ensures !old(isLogin) && !PasswordPolicy.ClientValid(old(form).password) ==>
        && call == NoCall && !navigateHome
        && auth.Snapshot() == old(auth.Snapshot())
        && !isLogin && form == old(form) && strength == PasswordPolicy.ClientStrength(old(form).password)
        && showPassword == old(showPassword)
      ensures !old(isLogin) && PasswordPolicy.ClientValid(old(form).password) ==>
        && call == RegisterCall(old(form)) && !navigateHome
        && auth.Snapshot() == Session.Register(old(auth.Snapshot()), registration)
        && showPassword == old(showPassword)
        && (registration.Registered? ==> isLogin && form == EmptyForm && strength == PasswordPolicy.NoStrength)
        && (registration.RegisterRefused? ==>
              !isLogin && form == old(form) && strength == PasswordPolicy.ClientStrength(old(form).password))
      ensures old(auth.IsValid()) ==> auth.IsValid()
    {
      if isLogin {
        call := LoginCall(form.email, form.password);
        navigateHome := auth.SignIn(granted, now);
      } else {
        strength := PasswordPolicy.ClientStrength(form.password);
        navigateHome := false;
        if !PasswordPolicy.AllMet(strength) {
          call := NoCall;
          return;
        }
        call := RegisterCall(form);
        var success := auth.SignUp(registration);
        if success {
          isLogin := true;
          form := EmptyForm;
          strength := PasswordPolicy.NoStrength;
        }
      }
    }
  }
}
