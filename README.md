# Credential validation of the Login-Final app, in Dafny

The app is a single React component file, `App.tsx`. It offers four forms:
login, registration, password recovery and password reset. Behind them sits
an `App` shell that picks the form or the dashboard. Everything remote is
done by the Supabase client. The logic the app writes itself, and this
project models, is:

- **`validateEmail`**: the input is lowered, then matched against one
  anchored pattern `local@domain`. The local part is dotted atoms or a quoted
  string. The domain is a bracketed four-group address or dotted labels
  ending in a label of two or more letters. In `EmailValidation`, the pattern
  is modelled twice:
  - as ghost languages built from existentials;
  - as a recogniser that splits on the separators.

  Lemmas prove the two agree.
- **`checkPasswordStrength`**: in `PasswordStrength`, scoring uses five rules
  in a fixed order. The empty password short-circuits. The module also holds
  the three band choices of `PasswordStrengthMeter`.
- **The checks each `handleSubmit` runs before its remote call**:
  - in `SubmitGating`, as verdict functions with first-failure-wins order;
  - in `Views`, as one class per form. Its `Submit` method updates the
    form state step by step and says whether the remote call is made. Its
    `Finish` method takes the opaque answer of that call and runs the rest
    of the handler.
- **The name helpers** (`Names`) and **`App`'s `view`/`user` state**
  (`AppShell`).
- **Worked examples in `Scenarios`**: registrations, logins, resets,
  addresses and greetings.

`Strings` gives JavaScript's `indexOf`, `lastIndexOf`, `split` and `||` on
strings, and ASCII `toLowerCase`.

## Notes on the code

1. **Length rule.** The code tests `/.{8,}/`. JavaScript's `.` does not
   match a line terminator, so the rule asks for eight consecutive
   characters on one line, not for a length of eight.
   - `HasRunOnOneLine` proves the two agree on single-line passwords.
   - `LineBreakExample` shows a 9-character password that fails the rule.
2. **"abc".** It meets only the lower-case rule and scores 1
   (`WeakExample`).
3. **Email as typed.** The handlers send `email` exactly as typed. Lowering
   happens only inside `validateEmail`.

## Model

| member | source | states |
|---|---|---|
| Strings.SplitOn | App.tsx:281 | `s.split(c)`: at least one part, no part holds `c`, and joining the parts with `c` gives `s` back |
| Strings.SplitJoin | App.tsx:281 | splitting the join of separator-free parts returns exactly those parts (the round trip of `split`) |
| Strings.SplitFirstPart | App.tsx:825 | `split(c)[0]` is everything before the first `c`; there is one part exactly when `c` is absent |
| Strings.LastIndexOf | App.tsx:29-31 | the position of the last `c`, or the length when there is none |
| Strings.Lower | App.tsx:27-28 | `toLowerCase` keeps the length and lowers each ASCII capital, leaving every other character alone |
| Strings.LowerChar | App.tsx:28 | for ASCII: a capital A-Z maps to the lower-case letter 32 code points above, and every other character is kept (non-ASCII capitals included; see Left out) |
| Strings.LowerIdempotent | App.tsx:28 | lowering twice is lowering once |
| Strings.LowerSplit | App.tsx:28-31 | lowering commutes with splitting on a non-letter |
| Strings.OrElse | App.tsx:435 | `message \|\| fallback`: the message when non-empty, otherwise the fallback; empty only if both are |
| EmailValidation.ValidateEmail | App.tsx:26-32 | lowers the input (ASCII), then applies `Matches`; its meaning is stated by `ValidateEmailIff` |
| EmailValidation.Matches | App.tsx:29-31 | the anchored pattern: a local part before the last '@' and a domain after it; `MatchesIff` ties it to the pattern's language |
| EmailValidation.ValidateEmailIff | App.tsx:26-32 | `validateEmail` accepts exactly the strings of the written pattern (`EmailLang`) |
| EmailValidation.MatchesIff | App.tsx:29-31 | the recogniser, which splits at the last '@', accepts exactly the pattern's language |
| EmailValidation.MatchesSound | App.tsx:29-31 | a recognised string has an '@' with a local part before it and a domain after it |
| EmailValidation.MatchesComplete | App.tsx:29-31 | any split of the pattern's shape is found, because a domain holds no '@' |
| EmailValidation.LocalPartIff | App.tsx:30 | local part: dotted atoms of allowed characters, or `".+"` |
| EmailValidation.DotAtomIff | App.tsx:30 | the dotted-atom recogniser agrees with `atom(\.atom)*` |
| EmailValidation.IpLiteralIff | App.tsx:30 | bracketed literal: exactly four dotted groups of 1-3 digits |
| EmailValidation.HostNameIff | App.tsx:30 | host name: one or more `label.` then a final label of at least two letters |
| EmailValidation.DomainIff | App.tsx:30 | domain: a bracketed literal or a host name |
| EmailValidation.DomainHasNoAt | App.tsx:30 | no domain contains '@' |
| EmailValidation.MatchesIgnoresCase | App.tsx:27-31 | the pattern already ignores ASCII case, so `validateEmail(s)` equals matching `s` itself |
| EmailValidation.ValidateEmailOfLower | App.tsx:27-28 | `validateEmail` gives the same verdict on `s` and on `lowercase(s)` |
| EmailValidation.LowerKeepsLeaves | App.tsx:28-30 | lowering keeps each leaf class (atom, quoted, octet, label, final label) |
| EmailValidation.LowerKeepsIpLiteral | App.tsx:28-30 | lowering keeps the verdict on a bracketed literal |
| EmailValidation.LowerKeepsHostName | App.tsx:28-30 | lowering keeps the verdict on a host name |
| EmailValidation.AcceptsLocalAtDomain | App.tsx:26-32 | any local part, '@', and any domain is accepted in any letter case |
| EmailValidation.RejectsEmpty | App.tsx:26-32 | the empty string is rejected |
| PasswordStrength.CheckPasswordStrength | App.tsx:34-54 | the score lies between 0 and the number of entries, at most 5; no entries exactly for the empty password; the score counts the met entries |
| PasswordStrength.Evaluate | App.tsx:38-49 | one entry per rule, in rule order, with the rule's label and whether the password meets its pattern |
| PasswordStrength.CountMet | App.tsx:51 | `details.filter(d => d.met).length` never exceeds the number of entries |
| PasswordStrength.CountMetIsSize | App.tsx:51 | the count equals the size of the set of met positions |
| PasswordStrength.CountMetFull | App.tsx:51 | the count reaches the length exactly when every entry is met |
| PasswordStrength.ScoreCountsRules | App.tsx:34-54 | empty password: `{score: 0, details: []}`; otherwise the five labelled entries in order, and the score is the sum of the five rule indicators |
| PasswordStrength.ScoreFiveIff | App.tsx:39-51 | score 5 exactly when the password has 8 characters on one line, a capital, a small letter, a digit and a character outside `[A-Za-z0-9]` |
| PasswordStrength.Rule.Holds | App.tsx:38-48 | `regex.test(password)` for each rule: `.{8,}` as `HasRun`, then some upper-case letter, lower-case letter, digit, or character outside `[A-Za-z0-9]`; used by `Evaluate` and characterised by `ScoreFiveIff` |
| PasswordStrength.HasRun | App.tsx:39 | `/.{n,}/.test(p)`: from some start position, `n` characters in a row that are not line terminators; `HasRunIff` ties it to that window language |
| PasswordStrength.HasRunIff | App.tsx:39 | the recursive run test agrees with `.{n,}`: some window of `n` characters holds no line terminator |
| PasswordStrength.RunLangShift | App.tsx:39 | the windows of `p` are the first one plus the windows of `p[1..]` |
| PasswordStrength.HasRunOnOneLine | App.tsx:39 | on a password without line breaks the rule is `length >= n` |
| PasswordStrength.Indicator | App.tsx:51 | 1 exactly when the rule holds, else 0 |
| PasswordStrength.MetPositions | App.tsx:51 | the positions whose entry is met |
| PasswordStrength.ColorBand | App.tsx:134-138 | `getColor`: weak up to 2, medium at 3 or 4, excellent otherwise |
| PasswordStrength.CaptionBand | App.tsx:151-158 | caption and its colour: excellent exactly at 5, weak exactly up to 2 |
| PasswordStrength.FillBand | App.tsx:167 | animated colour: weak up to 2, excellent from 5 |
| PasswordStrength.MeterBands | App.tsx:134-167 | on every score the scorer produces, the three choices agree and partition 0..5 into 0-2, 3-4 and 5; "Excelente" shows exactly when all five rules hold |
| SubmitGating.LoginVerdict | App.tsx:263-268 | accepted exactly when the email is valid and the password non-empty; otherwise the one combined reason |
| SubmitGating.RegisterVerdict | App.tsx:383-410 | each reason holds exactly when every earlier check passes and its own fails: identity, then email, then score < 5, then confirmation |
| SubmitGating.RecoveryVerdict | App.tsx:579-582 | only the email is checked |
| SubmitGating.ResetVerdict | App.tsx:692-706 | strength first, then confirmation; no email check |
| SubmitGating.IsStrong | App.tsx:396-397 | the negation of `strength.score < 5`; `StrongIff` states what it means |
| SubmitGating.StrongIff | App.tsx:395-396 | `score >= 5` is all five rules, and forces a non-empty password of 8 or more characters |
| SubmitGating.AcceptedRegistration | App.tsx:383-410 | an accepted registration has name and surname, an email of the pattern, a password meeting every rule, and a matching confirmation |
| SubmitGating.AcceptedReset | App.tsx:692-706 | an accepted reset has a password meeting every rule and a matching confirmation |
| SubmitGating.RegisterExtendsReset | App.tsx:395-410 | once identity and email pass, registration decides like reset |
| SubmitGating.EmptyPasswordIsWeak | App.tsx:36 | the empty password is too weak for a reset, whatever the confirmation |
| Names.DisplayName | App.tsx:281 | a non-empty full name, else the address up to its first '@' (a prefix with no '@', followed by '@' or the end) |
| Names.FullName | App.tsx:420 | name, one space, surname |
| Names.FirstName | App.tsx:825 | the prefix of the name before its first space |
| Names.FirstPiece | App.tsx:281 | `s.split(c)[0]` is the longest prefix without `c` |
| Names.FirstPieceOfPrefix | App.tsx:825 | a trailing `c`-started suffix does not change the first piece |
| Names.FirstNameOfFullName | App.tsx:430 | after registration the dashboard greets the name's first word; a one-word name whole, never the surname |
| Names.DisplayNameFallback | App.tsx:281 | with no full name, `local@domain` shows as `local` |
| Views.LoginView.constructor | App.tsx:252-257 | empty fields, no error, not loading, not shaking |
| Views.LoginView.Submit | App.tsx:259-270 | clears the error; on an invalid form sets the combined error and shake, otherwise starts loading; the call is made exactly when `LoginVerdict` accepts |
| Views.LoginView.Finish | App.tsx:272-290 | a signed-in account becomes the user named by `DisplayName`; a failure sets the fixed error and shake; loading always ends |
| Views.RegisterView.constructor | App.tsx:371-377 | empty form, all flags off |
| Views.RegisterView.Submit | App.tsx:379-412 | clears the error; the first failing check's message and shake, the strength panel only for a weak password; the call is made exactly when `RegisterVerdict` accepts |
| Views.RegisterView.Finish | App.tsx:414-440 | with a session the user is "name surname"; without one the success screen; on failure the gateway's message or the fixed one, and shake |
| Views.RecoveryView.constructor | App.tsx:570-573 | empty address, idle, no error |
| Views.RecoveryView.Submit | App.tsx:575-584 | an invalid address sets its message without shaking; otherwise status becomes loading |
| Views.RecoveryView.Finish | App.tsx:586-614 | an unknown address: its message, shake, idle; a failure: the message or the fixed one, idle; a sent link: success |
| Views.ResetPasswordView.constructor | App.tsx:679-686 | empty fields, all flags off |
| Views.ResetPasswordView.Submit | App.tsx:688-708 | weak password: message, shake and strength panel; mismatch: message and shake; the call is made exactly when `ResetVerdict` accepts |
| Views.ResetPasswordView.Finish | App.tsx:710-720 | success screen, or the gateway's message or the fixed one with shake; loading always ends |
| AppShell.App.constructor | App.tsx:845-846 | starts on the login form with no user |
| AppShell.App.Shown | App.tsx:875-893 | the dashboard exactly when a user is signed in, otherwise the form `view` selects |
| AppShell.App.OnAuthStateChange | App.tsx:849-853 | `PASSWORD_RECOVERY` sets `view` to the reset form; other events change nothing; `user` never changes |
| AppShell.App.Logout | App.tsx:860-864 | no user and the login form, so the login form is shown |
| AppShell.App.SetView | App.tsx:888-891 | `setView` changes the form and nothing else |
| AppShell.App.SignIn | App.tsx:888-889 | `onLogin` sets the user, and the dashboard shows that user |
| Scenarios.AtomAtHost | App.tsx:30 | one atom (no specials, dots or whitespace), "@", and at least two dot-separated labels ending in a label of two or more letters is valid |
| Scenarios.AnaAddress | App.tsx:26-32 | "ana@example.com" is valid |
| Scenarios.MixedCaseAddress | App.tsx:27-31 | "Ana@Mail.CO" is valid |
| Scenarios.IpLiteralAddress | App.tsx:30 | any local part, "@", and four bracketed groups of 1-3 digits is valid |
| Scenarios.QuotedAddress | App.tsx:30 | a quoted local part may hold '@' |
| Scenarios.NoAtRejected | App.tsx:29-31 | a string without '@' is rejected |
| Scenarios.BadDomainRejected | App.tsx:29-31 | what follows the last '@' must be a domain |
| Scenarios.ShortFinalLabel | App.tsx:30 | after the last '@', a host name whose final label has fewer than two characters is rejected |
| Scenarios.OneLetterFinalLabel | App.tsx:30 | a final label of one letter is rejected |
| Scenarios.StrongExample | App.tsx:34-54 | "Abcd123!" scores 5 |
| Scenarios.WeakExample | App.tsx:34-54 | "abc" scores 1 with exactly the lower-case entry met |
| Scenarios.LineBreakExample | App.tsx:39 | nine characters with a line break in the middle fail the length rule |
| Scenarios.ValidRegistration | App.tsx:383-410 | Ana Lopez with "Abcd123!" twice is accepted |
| Scenarios.MismatchedRegistration | App.tsx:405-410 | confirmation "Abcd124!" is a mismatch |
| Scenarios.NamelessRegistration | App.tsx:383-388 | a missing name is reported before a bad email and a weak password |
| Scenarios.AcceptedLogin | App.tsx:263-268 | login does not check strength, only that the password is non-empty |
| Scenarios.StrongPasswordReset | App.tsx:692-706 | "Abcd123!" confirmed with itself passes the reset checks |
| Scenarios.Greeting | App.tsx:825 | the dashboard greets Ana Lopez as "Ana" |
| Scenarios.RecoveryWhileSignedIn | App.tsx:849-864 | a recovery event while signed in keeps the dashboard; logout then shows the login form |

## Left out

- Supabase calls are remote and not part of this model:
  - `signInWithPassword`, `signUp`, the `profiles` upsert and lookup,
    `resetPasswordForEmail`, `updateUser`, `signOut`;
  - the `onAuthStateChange` subscription.

  Each `Finish` method takes the answer as an opaque outcome
  (`Account`, `SignUpOutcome`, `RecoveryOutcome`, `UpdateOutcome`).
  `src/lib/supabaseClient.ts` is not part of this model.
- Views.RegisterView.Finish: the result of the `profiles` upsert is ignored,
  as in the code. An upsert that throws is folded into `SignUpFailed`.
- `async`/`await` interleavings, and a second submit while one is loading.
  This is event-loop concurrency. `isLoading` and `status` are modelled as
  plain fields.
- The `setTimeout` that resets `shake` after 500 ms. This is a timer.
- `getWidth`: a percentage string computed in floating point.
- All JSX, animation, icons, CSS class strings, `showPass`, and the
  `onFocus` handlers that open the strength panel.
- Strings.Lower: only ASCII capitals are lowered. Full Unicode
  `toLowerCase`, such as the Kelvin sign becoming 'k', is not modelled.
- Strings.LowerChar: non-ASCII capitals such as 'É' or the Kelvin sign
  U+212A are kept as they are. The code lowers them, so it accepts
  "a@b.\u212A\u212A" (lowered to "a@b.kk") and the model rejects it.
- JavaScript strings are UTF-16 code units; Dafny `char`s are Unicode scalar
  values. A character outside the Basic Multilingual Plane counts once here
  toward `.{8,}`, but twice in the browser.
- `String(email)` coercion and the match array of `String.match`. Inputs
  are strings, and a match is modelled as a boolean.
