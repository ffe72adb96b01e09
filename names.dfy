/**
 * The account shown after signing in, and the three expressions that
 * derive names for it: the login fallback, the join of name and surname at
 * registration, and the first word the dashboard greets.
 */
module Names {
  import opened Strings

  datatype Option<T> = None | Some(value: T)

  /** The signed-in account the dashboard shows. */
  datatype User = User(name: string, email: string)

  /** `full_name || email.split('@')[0]`: the stored full name, or what precedes the first '@'. */
  function DisplayName(fullName: Option<string>, email: string): (r: string)
    ensures fullName.Some? && fullName.value != "" ==> r == fullName.value
    ensures fullName.None? || fullName.value == "" ==>
      |r| <= |email| && r == email[..|r|] && '@' !in r && (|r| < |email| ==> email[|r|] == '@')
  {
    if fullName.Some? && fullName.value != "" then fullName.value
    else FirstPiece(email, '@')
  }

  /** `${name} ${surname}` */
  function FullName(name: string, surname: string): (r: string)
    ensures |r| == |name| + 1 + |surname|
    ensures r[..|name|] == name && r[|name|] == ' ' && r[|name| + 1..] == surname
  {
    name + " " + surname
  }

  /** `name.split(' ')[0]`: everything before the first space. */
  function FirstName(name: string): (r: string)
    ensures |r| <= |name| && r == name[..|r|] && ' ' !in r && (|r| < |name| ==> name[|r|] == ' ')
  {
    FirstPiece(name, ' ')
  }

  /** `s.split(c)[0]` */
  function FirstPiece(s: string, c: char): (r: string)
    ensures |r| <= |s| && r == s[..|r|] && c !in r && (|r| < |s| ==> s[|r|] == c)
  {
    SplitFirstPart(s, c);
    SplitOn(s, c)[0]
  }

  /**
   * The dashboard greets a registered user by the first word of the name
   * field: the surname never shows, and a one-word name shows whole.
   */
  lemma FirstNameOfFullName(name: string, surname: string)
    ensures FirstName(FullName(name, surname)) == FirstName(name)
    ensures ' ' !in name ==> FirstName(FullName(name, surname)) == name
  {
    var full := FullName(name, surname);
    FirstPieceOfPrefix(name, " " + surname, ' ');
    assert full == name + (" " + surname);
  }

  /** The first piece of `p + q` is the first piece of `p` when `q` starts with the separator. */
  lemma FirstPieceOfPrefix(p: string, q: string, c: char)
    requires |q| > 0 && q[0] == c
    ensures FirstPiece(p + q, c) == FirstPiece(p, c)
  {
    var s := p + q;
    var i := IndexOf(p, c);
    assert s[i] == c;
    assert forall j :: 0 <= j < i ==> s[j] == p[j];
    IndexOfFirst(s, c, i);
    SplitFirstPart(s, c);
    SplitFirstPart(p, c);
    assert s[..i] == p[..i];
  }

  /** Signing in with no stored full name shows the address up to its first '@'. */
  lemma DisplayNameFallback(local: string, domain: string)
    requires '@' !in local
    ensures DisplayName(None, local + "@" + domain) == local
    ensures DisplayName(Some(""), local + "@" + domain) == local
  {
    FirstPieceOfPrefix(local, "@" + domain, '@');
    assert local + "@" + domain == local + ("@" + domain);
    SplitFirstPart(local, '@');
    IndexOfAbsent(local, '@');
    assert local[..|local|] == local;
  }
}
