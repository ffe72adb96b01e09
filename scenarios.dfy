/**
 * Concrete forms and addresses, worked through the model: the outcomes the
 * handlers reach on them and the greeting the dashboard shows. Each lemma
 * states one fact, proved from the general lemmas of the other modules.
 */
module Scenarios {
  import opened Strings
  import opened EmailValidation
  import opened PasswordStrength
  import opened SubmitGating
  import opened Names
  import opened AppShell

  // ---------------------------------------------------------------------
  // Building and refusing addresses from their pieces

  /** One atom is a local part. */
  lemma AtomIsLocal(atom: string)
    requires IsAtom(atom)
    ensures IsLocalPart(atom)
  {
    SplitJoin([atom], '.');
  }

  /** Labels followed by a final label of letters make a domain. */
  lemma PartsMakeDomain(parts: seq<string>)
    requires |parts| >= 2
    requires forall k :: 0 <= k < |parts| - 1 ==> IsLabel(parts[k])
    requires IsFinalLabel(parts[|parts| - 1])
    ensures IsDomain(JoinWith(parts, '.'))
  {
    HostPartsJoin(parts);
  }

  /** Four groups of one to three digits, dotted and bracketed, make a domain. */
  lemma OctetsMakeIpLiteral(groups: seq<string>)
    requires |groups| == 4 && forall k :: 0 <= k < 4 ==> IsOctet(groups[k])
    ensures IsDomain("[" + JoinWith(groups, '.') + "]")
  {
    var inner := JoinWith(groups, '.');
    var d := "[" + inner + "]";
    forall k | 0 <= k < 4 ensures '.' !in groups[k] {
      assert forall i :: 0 <= i < |groups[k]| ==> IsDigit(groups[k][i]);
    }
    SplitJoin(groups, '.');
    assert d[1..|d| - 1] == inner;
  }

  /** Without an '@' nothing is accepted. */
  lemma NoAtRejected(s: string)
    requires '@' !in s
    ensures !ValidateEmail(s)
  {
    MatchesIgnoresCase(s);
  }

  /** What follows the last '@' must be a domain. */
  lemma BadDomainRejected(s: string, local: string, domain: string)
    requires s == local + "@" + domain
    requires '@' !in domain && !IsDomain(domain)
    ensures !ValidateEmail(s)
  {
    MatchesSides(local, domain);
    MatchesIgnoresCase(s);
  }

  // ---------------------------------------------------------------------
  // Addresses

  /** An atom at a host name is accepted. */
  lemma AtomAtHost(s: string, atom: string, domain: string, parts: seq<string>)
    requires s == atom + "@" + domain
    requires IsAtom(atom)
    requires |parts| >= 2
    requires forall k :: 0 <= k < |parts| - 1 ==> IsLabel(parts[k])
    requires IsFinalLabel(parts[|parts| - 1])
    requires domain == JoinWith(parts, '.')
    ensures ValidateEmail(s)
  {
    AtomIsLocal(atom);
    PartsMakeDomain(parts);
    AcceptsLocalAtDomain(atom, domain);
  }

  lemma AnaAddress()
    ensures ValidateEmail("ana@example.com")
  {
    assert "ana@example.com" == "ana" + "@" + "example.com";
    AtomAtHost("ana@example.com", "ana", "example.com", ["example", "com"]);
  }

  /** Upper case is accepted as well: the input is lowered first. */
  lemma MixedCaseAddress()
    ensures ValidateEmail("Ana@Mail.CO")
  {
    assert "Ana@Mail.CO" == "Ana" + "@" + "Mail.CO";
    AtomAtHost("Ana@Mail.CO", "Ana", "Mail.CO", ["Mail", "CO"]);
  }

  /** Any local part at four bracketed digit groups is accepted. */
  lemma IpLiteralAddress(local: string, groups: seq<string>)
    requires IsLocalPart(local)
    requires |groups| == 4 && forall k :: 0 <= k < 4 ==> IsOctet(groups[k])
    ensures ValidateEmail(local + "@" + ("[" + JoinWith(groups, '.') + "]"))
  {
    OctetsMakeIpLiteral(groups);
    AcceptsLocalAtDomain(local, "[" + JoinWith(groups, '.') + "]");
  }

  /** A quoted local part may itself contain '@'. */
  lemma QuotedAddress()
    ensures ValidateEmail("\"a@b\"@example.com")
  {
    assert "\"a@b\"" + "@" + "example.com" == "\"a@b\"@example.com";
    assert JoinWith(["example", "com"], '.') == "example.com";
    assert IsQuoted("\"a@b\"");
    PartsMakeDomain(["example", "com"]);
    AcceptsLocalAtDomain("\"a@b\"", "example.com");
  }

  lemma NotAnEmail()
    ensures !ValidateEmail("not-an-email")
  {
    NoAtRejected("not-an-email");
  }

  lemma DoubleAt()
    ensures !ValidateEmail("user@@bad")
  {
    assert "user@" + "@" + "bad" == "user@@bad";
    BadDomainRejected("user@@bad", "user@", "bad");
  }

  /** After the last '@', a host name whose final label has fewer than two letters is rejected. */
  lemma ShortFinalLabel(s: string, local: string, domain: string, parts: seq<string>)
    requires s == local + "@" + domain && '@' !in domain
    requires |parts| >= 1 && forall k :: 0 <= k < |parts| ==> '.' !in parts[k]
    requires domain == JoinWith(parts, '.')
    requires |parts[|parts| - 1]| < 2
    requires |domain| > 0 && domain[0] != '['
    ensures !ValidateEmail(s)
  {
    SplitJoin(parts, '.');
    BadDomainRejected(s, local, domain);
  }

  /** The final label needs two letters. */
  lemma OneLetterFinalLabel()
    ensures !ValidateEmail("user@example.c")
  {
    assert "user@example.c" == "user" + "@" + "example.c";
    ShortFinalLabel("user@example.c", "user", "example.c", ["example", "c"]);
  }

  // ---------------------------------------------------------------------
  // Passwords

  /** "Abcd123!" meets every rule. */
  lemma StrongExample()
    ensures CheckPasswordStrength("Abcd123!").score == 5
  {
    var p := "Abcd123!";
    assert p[..8] == p;
    assert HasRun(p, 8);
    assert IsUpper(p[0]) && IsLower(p[1]) && IsDigit(p[4]) && IsSymbol(p[7]);
    ScoreFiveIff(p);
  }

  /** "abc" meets the lower-case rule only: it scores 1. */
  lemma WeakExample()
    ensures CheckPasswordStrength("abc") == Strength(1, [
      Detail("Mínimo 8 caracteres", false),
      Detail("Una mayúscula", false),
      Detail("Una minúscula", true),
      Detail("Un número", false),
      Detail("Un símbolo especial", false)])
  {
    var p := "abc";
    assert IsLower(p[0]);
    ScoreCountsRules(p);
  }

  /** Eight characters across a line break are not a run of eight. */
  lemma LineBreakExample()
    ensures !HasRun("Abcd\n123!", 8)
  {
    var p := "Abcd\n123!";
    assert !OnOneLine(p[..8]) by {
      assert p[..8][4] == '\n';
    }
    assert !OnOneLine(p[1..][..8]) by {
      assert p[1..][..8][3] == '\n';
    }
  }

  // ---------------------------------------------------------------------
  // Handlers

  lemma ValidRegistration()
    ensures RegisterVerdict("Ana", "Lopez", "ana@example.com", "Abcd123!", "Abcd123!") == Accepted
  {
    AnaAddress();
    StrongExample();
  }

  lemma WeakRegistration()
    ensures RegisterVerdict("Ana", "Lopez", "ana@example.com", "abc", "abc") == Rejected(WeakPassword)
  {
    AnaAddress();
    WeakExample();
  }

  lemma MismatchedRegistration()
    ensures RegisterVerdict("Ana", "Lopez", "ana@example.com", "Abcd123!", "Abcd124!") ==
      Rejected(PasswordMismatch)
  {
    AnaAddress();
    StrongExample();
  }

  /** The missing name is reported even though the email and password are bad too. */
  lemma NamelessRegistration()
    ensures RegisterVerdict("", "Lopez", "not-an-email", "abc", "") == Rejected(MissingIdentity)
  {
  }

  lemma BadEmailRegistration()
    ensures RegisterVerdict("Ana", "Lopez", "not-an-email", "Abcd123!", "Abcd123!") ==
      Rejected(InvalidEmail)
  {
    NotAnEmail();
  }

  lemma RejectedLogin()
    ensures LoginVerdict("not-an-email", "secret") == Rejected(InvalidCredentialsFormat)
  {
    NotAnEmail();
  }

  /** A weak password is no reason to refuse a login: only emptiness is. */
  lemma AcceptedLogin()
    ensures LoginVerdict("ana@example.com", "abc") == Accepted
  {
    AnaAddress();
  }

  lemma RejectedRecovery()
    ensures RecoveryVerdict("not-an-email") == Rejected(InvalidEmail)
  {
    NotAnEmail();
  }

  lemma StrongPasswordReset()
    ensures ResetVerdict("Abcd123!", "Abcd123!") == Accepted
  {
    StrongExample();
  }

  lemma MismatchedReset()
    ensures ResetVerdict("Abcd123!", "Abcd124!") == Rejected(PasswordMismatch)
  {
    StrongExample();
  }

  // ---------------------------------------------------------------------
  // Names and the application state

  /** After registering as Ana Lopez the dashboard says "Hola, Ana". */
  lemma Greeting()
    ensures FirstName(FullName("Ana", "Lopez")) == "Ana"
  {
    FirstNameOfFullName("Ana", "Lopez");
  }

  /** Signing in with no stored full name shows the address up to its '@'. */
  lemma FallbackName()
    ensures DisplayName(None, "ana@example.com") == "ana"
  {
    assert "ana@example.com" == "ana" + "@" + "example.com";
    DisplayNameFallback("ana", "example.com");
  }

  /** Opening a recovery link from the login form shows the reset form. */
  method RecoveryLinkOpensReset() returns (app: App)
    ensures app.Shown() == Form(ResetPassword)
  {
    app := new App();
    app.OnAuthStateChange(PasswordRecoveryEvent);
  }

  /**
   * A recovery event while signed in only changes `view`: the dashboard
   * stays up until logout, which then shows the login form.
   */
  method RecoveryWhileSignedIn(u: User) returns (during: Screen, after: Screen)
    ensures during == Dashboard(u)
    ensures after == Form(Login)
  {
    var app := new App();
    app.SignIn(u);
    app.OnAuthStateChange(PasswordRecoveryEvent);
    during := app.Shown();
    app.Logout();
    after := app.Shown();
  }
}
