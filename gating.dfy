/**
 * The validation prefix of the four `handleSubmit` handlers, as verdicts.
 *
 * Each handler runs an ordered list of checks and returns at the first one
 * that fails; only a form that passes every check reaches the remote call.
 * A verdict is either `Accepted` (the remote call is made) or the reason
 * of the first failing check.
 */
module SubmitGating {
  import opened EmailValidation
  import opened PasswordStrength

  datatype Reason =
    | InvalidCredentialsFormat
    | MissingIdentity
    | InvalidEmail
    | WeakPassword
    | PasswordMismatch
  {
    /** The error the login, registration and reset forms show for the reason. */
    function Message(): string
    {
      match this
      case InvalidCredentialsFormat => "Por favor revisa tus credenciales."
      case MissingIdentity => "Por favor completa tu nombre y apellidos."
      case InvalidEmail => "Correo inválido."
      case WeakPassword => "La contraseña es muy débil."
      case PasswordMismatch => "Las contraseñas no coinciden."
    }
  }

  datatype Verdict = Accepted | Rejected(reason: Reason)

  /** A password the forms accept: `checkPasswordStrength(p).score` is not below 5. */
  predicate IsStrong(password: string)
  {
    CheckPasswordStrength(password).score >= 5
  }

  /** Login: one combined error when the email is malformed or the password is empty. */
  function LoginVerdict(email: string, password: string): (v: Verdict)
    ensures v == Accepted <==> ValidateEmail(email) && password != ""
    ensures v.Rejected? ==> v.reason == InvalidCredentialsFormat
  {
    if !ValidateEmail(email) || password == "" then Rejected(InvalidCredentialsFormat)
    else Accepted
  }

  /**
   * Registration: name and surname, then the email, then the strength, then
   * the confirmation; the first check that fails decides the reason.
   */
  function RegisterVerdict(name: string, surname: string, email: string,
                           password: string, confirmPassword: string): (v: Verdict)
    ensures v == Accepted <==>
      name != "" && surname != "" && ValidateEmail(email) && IsStrong(password) &&
      password == confirmPassword
    ensures v == Rejected(MissingIdentity) <==> name == "" || surname == ""
    ensures v == Rejected(InvalidEmail) <==>
      name != "" && surname != "" && !ValidateEmail(email)
    ensures v == Rejected(WeakPassword) <==>
      name != "" && surname != "" && ValidateEmail(email) && !IsStrong(password)
    ensures v == Rejected(PasswordMismatch) <==>
      name != "" && surname != "" && ValidateEmail(email) && IsStrong(password) &&
      password != confirmPassword
    ensures v != Rejected(InvalidCredentialsFormat)
  {
    if name == "" || surname == "" then Rejected(MissingIdentity)
    else if !ValidateEmail(email) then Rejected(InvalidEmail)
    else if CheckPasswordStrength(password).score < 5 then Rejected(WeakPassword)
    else if password != confirmPassword then Rejected(PasswordMismatch)
    else Accepted
  }

  /** Recovery: the email is the only thing checked. */
  function RecoveryVerdict(email: string): (v: Verdict)
    ensures v == Accepted <==> ValidateEmail(email)
    ensures v.Rejected? ==> v.reason == InvalidEmail
  {
    if !ValidateEmail(email) then Rejected(InvalidEmail) else Accepted
  }

  /** Reset: the strength, then the confirmation; there is no email to check. */
  function ResetVerdict(password: string, confirmPassword: string): (v: Verdict)
    ensures v == Accepted <==> IsStrong(password) && password == confirmPassword
    ensures v == Rejected(WeakPassword) <==> !IsStrong(password)
    ensures v == Rejected(PasswordMismatch) <==> IsStrong(password) && password != confirmPassword
  {
    if CheckPasswordStrength(password).score < 5 then Rejected(WeakPassword)
    else if password != confirmPassword then Rejected(PasswordMismatch)
    else Accepted
  }

  /** A strong password is one that meets all five rules (the score never exceeds 5). */
  lemma StrongIff(password: string)
    ensures IsStrong(password) <==>
      HasRun(password, 8) && Uppercase.Holds(password) && Lowercase.Holds(password) &&
      Digit.Holds(password) && Symbol.Holds(password)
    ensures IsStrong(password) ==> password != "" && |password| >= 8
  {
    ScoreFiveIff(password);
    ScoreCountsRules(password);
  }

  /**
   * An accepted registration has a name and a surname, an email of the
   * written pattern, a password meeting all five rules, and a matching
   * confirmation.
   */
  lemma AcceptedRegistration(name: string, surname: string, email: string,
                             password: string, confirmPassword: string)
    requires RegisterVerdict(name, surname, email, password, confirmPassword) == Accepted
    ensures name != "" && surname != ""
    ensures EmailLang(email)
    ensures HasRun(password, 8) && Uppercase.Holds(password) && Lowercase.Holds(password)
    ensures Digit.Holds(password) && Symbol.Holds(password)
    ensures confirmPassword == password
  {
    ValidateEmailIff(email);
    StrongIff(password);
  }

  /** An accepted reset has a password meeting all five rules and a matching confirmation. */
  lemma AcceptedReset(password: string, confirmPassword: string)
    requires ResetVerdict(password, confirmPassword) == Accepted
    ensures HasRun(password, 8) && Uppercase.Holds(password) && Lowercase.Holds(password)
    ensures Digit.Holds(password) && Symbol.Holds(password)
    ensures confirmPassword == password
  {
    StrongIff(password);
  }

  /** Registration applies the reset's password checks after its own identity and email checks. */
  lemma RegisterExtendsReset(name: string, surname: string, email: string,
                             password: string, confirmPassword: string)
    requires name != "" && surname != "" && ValidateEmail(email)
    ensures RegisterVerdict(name, surname, email, password, confirmPassword) ==
      ResetVerdict(password, confirmPassword)
  {
  }

  /** The empty password is always too weak, whatever the confirmation. */
  lemma EmptyPasswordIsWeak(confirmPassword: string)
    ensures ResetVerdict("", confirmPassword) == Rejected(WeakPassword)
  {
    ScoreCountsRules("");
  }
}
