/**
 * The four forms. Each `handleSubmit` is split at its first `await`:
 * `Submit` runs the synchronous checks, updates the form's state and says
 * whether the remote call is made; `Finish` takes what the remote call
 * answered (an opaque outcome) and runs the rest of the handler, including
 * the `finally` block.
 */
module Views {
  import opened Strings
  import opened EmailValidation
  import opened SubmitGating
  import opened Names

  /** What `signInWithPassword` answered: an error, or the account that signed in. */
  datatype Account = Account(email: string, fullName: Option<string>)

  /** What `signUp` answered; `session` says whether the account is signed in straight away. */
  datatype SignUpOutcome = SignUpFailed(message: string) | SignedUp(session: bool)

  /** What the profile lookup and `resetPasswordForEmail` answered, in the order they run. */
  datatype RecoveryOutcome = RequestFailed(message: string) | NoAccount | LinkSent

  /** What `updateUser` answered. */
  datatype UpdateOutcome = UpdateFailed(message: string) | Updated

  /** The recovery form's `status`: 'idle', 'loading' or 'success'. */
  datatype Status = Idle | Loading | Success

  const LoginFailedMessage := "Credenciales incorrectas o usuario no encontrado."
  const SignUpFallback := "Error al registrarse"
  const RecoveryEmailMessage := "Ingresa un correo válido."
  const NoAccountMessage := "No existe una cuenta asociada a este correo electrónico."
  const RecoveryFallback := "Error al procesar la solicitud."
  const UpdateFallback := "Error al actualizar contraseña"

  class LoginView {
    var email: string
    var password: string
    var error: string
    var isLoading: bool
    var shake: bool

    constructor ()
      ensures email == "" && password == "" && error == "" && !isLoading && !shake
    {
      email, password, error := "", "", "";
      isLoading, shake := false, false;
    }

    /** The checks before `signInWithPassword`; `signIn` says whether it is called. */
    method Submit() returns (signIn: bool)
      modifies this
      ensures email == old(email) && password == old(password)
      ensures signIn <==> LoginVerdict(email, password) == Accepted
      ensures signIn ==> error == "" && isLoading && shake == old(shake)
      ensures !signIn ==>
        error == LoginVerdict(email, password).reason.Message() && shake &&
        isLoading == old(isLoading)
    {
      error := "";
      if !ValidateEmail(email) || password == "" {
        error := InvalidCredentialsFormat.Message();
        shake := true;
        return false;
      }
      isLoading := true;
      return true;
    }

    /**
     * The rest of the handler: a signed-in account becomes the user, named
     * by its full name or else by the typed address up to its first '@'.
     */
    method Finish(answer: Option<Account>) returns (user: Option<User>)
      modifies this
      ensures email == old(email) && password == old(password) && !isLoading
      ensures answer.Some? ==>
        user == Some(User(DisplayName(answer.value.fullName, email), answer.value.email)) &&
        error == old(error) && shake == old(shake)
      ensures answer.None? ==> user == None && error == LoginFailedMessage && shake
    {
      if answer.Some? {
        user := Some(User(DisplayName(answer.value.fullName, email), answer.value.email));
      } else {
        user := None;
        error := LoginFailedMessage;
        shake := true;
      }
      isLoading := false;
    }
  }

  class RegisterView {
    var name: string
    var surname: string
    var email: string
    var password: string
    var confirmPassword: string
    var error: string
    var isLoading: bool
    var showStrength: bool
    var shake: bool
    var isSuccess: bool

    constructor ()
      ensures name == "" && surname == "" && email == "" && password == "" && confirmPassword == ""
      ensures error == "" && !isLoading && !showStrength && !shake && !isSuccess
    {
      name, surname, email, password, confirmPassword := "", "", "", "", "";
      error := "";
      isLoading, showStrength, shake, isSuccess := false, false, false, false;
    }

    /** The form's fields did not change. */
    twostate predicate FieldsUnchanged()
      reads this
    {
      name == old(name) && surname == old(surname) && email == old(email) &&
      password == old(password) && confirmPassword == old(confirmPassword)
    }

    /** What the registration checks decide on the current fields. */
    function Verdict(): Verdict
      reads this
    {
      RegisterVerdict(name, surname, email, password, confirmPassword)
    }

    /** The checks before `signUp`; `signUp` says whether it is called. */
    method Submit() returns (signUp: bool)
      modifies this
      ensures FieldsUnchanged() && isSuccess == old(isSuccess)
      ensures signUp <==> Verdict() == Accepted
      ensures signUp ==> error == "" && isLoading && shake == old(shake) && showStrength == old(showStrength)
      ensures !signUp ==> error == Verdict().reason.Message() && shake && isLoading == old(isLoading)
      ensures showStrength == (old(showStrength) || Verdict() == Rejected(WeakPassword))
    {
      var ok := name != "" && surname != "";
      error := "";
      if !ok {
        error := MissingIdentity.Message();
        shake := true;
        return false;
      }
      ok := ValidateEmail(email);
      if !ok {
        error := InvalidEmail.Message();
        shake := true;
        return false;
      }
      var strength := PasswordStrength.CheckPasswordStrength(password);
      if strength.score < 5 {
        error := WeakPassword.Message();
        shake := true;
        showStrength := true;
        return false;
      }
      if password != confirmPassword {
        error := PasswordMismatch.Message();
        shake := true;
        return false;
      }
      isLoading := true;
      return true;
    }

    /**
     * The rest of the handler: with a session the new account signs in under
     * "name surname"; without one the form shows its success screen; a
     * failure shows the gateway's message, or a fixed one when it has none.
     */
    method Finish(answer: SignUpOutcome) returns (user: Option<User>)
      modifies this
      ensures FieldsUnchanged() && !isLoading && showStrength == old(showStrength)
      ensures answer.SignUpFailed? ==>
        user == None && error == OrElse(answer.message, SignUpFallback) && error != "" && shake &&
        isSuccess == old(isSuccess)
      ensures answer == SignedUp(true) ==>
        user == Some(User(FullName(name, surname), email)) &&
        error == old(error) && shake == old(shake) && isSuccess == old(isSuccess)
      ensures answer == SignedUp(false) ==>
        user == None && isSuccess && error == old(error) && shake == old(shake)
    {
      user := None;
      match answer {
        case SignUpFailed(message) =>
          error := OrElse(message, SignUpFallback);
          shake := true;
        case SignedUp(session) =>
          if session {
            user := Some(User(FullName(name, surname), email));
          } else {
            isSuccess := true;
          }
      }
      isLoading := false;
    }
  }

  class RecoveryView {
    var email: string
    var status: Status
    var error: string
    var shake: bool

    constructor ()
      ensures email == "" && status == Idle && error == "" && !shake
    {
      email, status, error, shake := "", Idle, "", false;
    }

    /** The check before the profile lookup; it neither shakes the form nor changes `status` on failure. */
    method Submit() returns (lookUp: bool)
      modifies this
      ensures email == old(email) && shake == old(shake)
      ensures lookUp <==> RecoveryVerdict(email) == Accepted
      ensures lookUp ==> error == "" && status == Loading
      ensures !lookUp ==> error == RecoveryEmailMessage && status == old(status)
    {
      error := "";
      if !ValidateEmail(email) {
        error := RecoveryEmailMessage;
        return false;
      }
      status := Loading;
      return true;
    }

    /** The rest of the handler: an unknown address is refused, a sent link is success. */
    method Finish(answer: RecoveryOutcome)
      modifies this
      ensures email == old(email)
      ensures answer == NoAccount ==> error == NoAccountMessage && shake && status == Idle
      ensures answer.RequestFailed? ==>
        error == OrElse(answer.message, RecoveryFallback) && error != "" && shake == old(shake) &&
        status == Idle
      ensures answer == LinkSent ==> status == Success && error == old(error) && shake == old(shake)
    {
      match answer
      case NoAccount =>
        error := NoAccountMessage;
        shake := true;
        status := Idle;
      case RequestFailed(message) =>
        error := OrElse(message, RecoveryFallback);
        status := Idle;
      case LinkSent =>
        status := Success;
    }
  }

  class ResetPasswordView {
    var password: string
    var confirmPassword: string
    var error: string
    var isLoading: bool
    var showStrength: bool
    var shake: bool
    var isSuccess: bool

    constructor ()
      ensures password == "" && confirmPassword == ""
      ensures error == "" && !isLoading && !showStrength && !shake && !isSuccess
    {
      password, confirmPassword, error := "", "", "";
      isLoading, showStrength, shake, isSuccess := false, false, false, false;
    }

    /** The checks before `updateUser`; `update` says whether it is called. */
    method Submit() returns (update: bool)
      modifies this
      ensures password == old(password) && confirmPassword == old(confirmPassword)
      ensures isSuccess == old(isSuccess)
      ensures var v := ResetVerdict(password, confirmPassword);
        (update <==> v == Accepted) &&
        (update ==> error == "" && isLoading && shake == old(shake) && showStrength == old(showStrength)) &&
        (!update ==>
          error == v.reason.Message() && shake && isLoading == old(isLoading) &&
          showStrength == (old(showStrength) || v.reason == WeakPassword))
    {
      error := "";
      var strength := PasswordStrength.CheckPasswordStrength(password);
      if strength.score < 5 {
        error := WeakPassword.Message();
        shake := true;
        showStrength := true;
        return false;
      }
      if password != confirmPassword {
        error := PasswordMismatch.Message();
        shake := true;
        return false;
      }
      isLoading := true;
      return true;
    }

    /** The rest of the handler: success screen, or the gateway's message or a fixed one. */
    method Finish(answer: UpdateOutcome)
      modifies this
      ensures password == old(password) && confirmPassword == old(confirmPassword)
      ensures !isLoading && showStrength == old(showStrength)
      ensures answer == Updated ==> isSuccess && error == old(error) && shake == old(shake)
      ensures answer.UpdateFailed? ==>
        error == OrElse(answer.message, UpdateFallback) && error != "" && shake &&
        isSuccess == old(isSuccess)
    {
      match answer {
        case Updated =>
          isSuccess := true;
        case UpdateFailed(message) =>
          error := OrElse(message, UpdateFallback);
          shake := true;
      }
      isLoading := false;
    }
  }
}
