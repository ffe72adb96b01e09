/**
 * `validateEmail`: the input is lower-cased and then matched against one
 * anchored pattern of the shape local-part `@` domain.
 *
 * The pattern is modelled twice. The ghost predicates ending in `Lang` say
 * what the pattern's groups denote (a string is in the language when it
 * can be cut into pieces that the group's sub-patterns accept). The
 * predicates starting with `Is` recognise the same strings by splitting on
 * the separators, which is possible because no piece of a group can contain
 * its separator. The lemmas prove the two agree.
 */
module EmailValidation {
  import opened Strings

  // ---------------------------------------------------------------------
  // Character classes of the pattern

  /** JavaScript's `\s`: white space and line terminators. */
  predicate IsJsWhitespace(c: char)
  {
    c == '\t' || c == '\n' || c == '\U{0B}' || c == '\U{0C}' || c == '\r' || c == ' ' ||
    c == '\U{A0}' || c == '\U{1680}' || ('\U{2000}' <= c <= '\U{200A}') ||
    c == '\U{2028}' || c == '\U{2029}' || c == '\U{202F}' || c == '\U{205F}' ||
    c == '\U{3000}' || c == '\U{FEFF}'
  }

  /** `[^<>()[\]\\.,;:\s@"]`: a character allowed in an unquoted atom. */
  predicate IsAtomChar(c: char)
  {
    c !in "<>()[]\\.,;:@\"" && !IsJsWhitespace(c)
  }

  /** `[a-zA-Z\-0-9]`: a character allowed in a domain label. */
  predicate IsLabelChar(c: char)
  {
    IsAsciiLetter(c) || c == '-' || IsDigit(c)
  }

  // ---------------------------------------------------------------------
  // The pattern's leaves: a character class repeated

  /** `[^<>()[\]\\.,;:\s@"]+` */
  predicate IsAtom(s: string)
  {
    |s| >= 1 && forall i :: 0 <= i < |s| ==> IsAtomChar(s[i])
  }

  /** `".+"`: quotes around at least one character other than a line terminator. */
  predicate IsQuoted(s: string)
  {
    |s| >= 3 && s[0] == '"' && s[|s| - 1] == '"' &&
    forall i :: 0 < i < |s| - 1 ==> !IsLineTerminator(s[i])
  }

  /** `[0-9]{1,3}` */
  predicate IsOctet(s: string)
  {
    1 <= |s| <= 3 && forall i :: 0 <= i < |s| ==> IsDigit(s[i])
  }

  /** `[a-zA-Z\-0-9]+` */
  predicate IsLabel(s: string)
  {
    |s| >= 1 && forall i :: 0 <= i < |s| ==> IsLabelChar(s[i])
  }

  /** `[a-zA-Z]{2,}` */
  predicate IsFinalLabel(s: string)
  {
    |s| >= 2 && forall i :: 0 <= i < |s| ==> IsAsciiLetter(s[i])
  }

  // ---------------------------------------------------------------------
  // The recogniser

  /** `atom(\.atom)*`: every dot-separated piece is an atom. */
  predicate IsDotAtom(s: string)
  {
    AreAtoms(SplitOn(s, '.'))
  }

  predicate AreAtoms(atoms: seq<string>)
  {
    forall k :: 0 <= k < |atoms| ==> IsAtom(atoms[k])
  }

  /** The local part: a dot-atom or a quoted string. */
  predicate IsLocalPart(s: string)
  {
    IsDotAtom(s) || IsQuoted(s)
  }

  /** `\[d.d.d.d\]` with 1 to 3 digits per group. */
  predicate IsIpLiteral(s: string)
  {
    |s| >= 2 && s[0] == '[' && s[|s| - 1] == ']' && AreOctets(SplitOn(s[1..|s| - 1], '.'))
  }

  predicate AreOctets(groups: seq<string>)
  {
    |groups| == 4 && forall k :: 0 <= k < 4 ==> IsOctet(groups[k])
  }

  /** `(label\.)+final`: at least two pieces, the last one letters only. */
  predicate IsHostName(s: string)
  {
    AreHostParts(SplitOn(s, '.'))
  }

  predicate AreHostParts(parts: seq<string>)
  {
    |parts| >= 2 &&
    (forall k :: 0 <= k < |parts| - 1 ==> IsLabel(parts[k])) &&
    IsFinalLabel(parts[|parts| - 1])
  }

  /** The domain: an address literal or a host name. */
  predicate IsDomain(s: string)
  {
    IsIpLiteral(s) || IsHostName(s)
  }

  /**
   * The whole anchored pattern. A domain never contains '@', so the only
   * place the pattern can put its '@' is the last one in the string.
   */
  predicate Matches(s: string)
  {
    var at := LastIndexOf(s, '@');
    at < |s| && IsLocalPart(s[..at]) && IsDomain(s[at + 1..])
  }

  /** `validateEmail`: lower-case, then match. */
  predicate ValidateEmail(email: string)
  {
    Matches(Lower(email))
  }

  // ---------------------------------------------------------------------
  // What the pattern denotes

  /** `atom(\.atom)*` */
  ghost predicate DotAtomLang(s: string)
  {
    exists atoms: seq<string> ::
      |atoms| >= 1 && (forall k :: 0 <= k < |atoms| ==> IsAtom(atoms[k])) &&
      JoinWith(atoms, '.') == s
  }

  /** `atom(\.atom)*|".+"` */
  ghost predicate LocalLang(s: string)
  {
    DotAtomLang(s) || IsQuoted(s)
  }

  /** `\[o\.o\.o\.o\]` */
  ghost predicate IpLiteralLang(s: string)
  {
    exists groups: seq<string> ::
      |groups| == 4 && (forall k :: 0 <= k < 4 ==> IsOctet(groups[k])) &&
      s == "[" + JoinWith(groups, '.') + "]"
  }

  /** Each label followed by a dot: what `(label\.)+` matches, label by label. */
  function Dotted(labels: seq<string>): string
  {
    if labels == [] then [] else labels[0] + "." + Dotted(labels[1..])
  }

  /** `(label\.)+final` */
  ghost predicate HostNameLang(s: string)
  {
    exists labels: seq<string>, last: string ::
      |labels| >= 1 && (forall k :: 0 <= k < |labels| ==> IsLabel(labels[k])) &&
      IsFinalLabel(last) && s == Dotted(labels) + last
  }

  ghost predicate DomainLang(s: string)
  {
    IpLiteralLang(s) || HostNameLang(s)
  }

  /** `^(local)@(domain)$`: some '@' splits the string into the two groups. */
  ghost predicate EmailLang(s: string)
  {
    exists i :: 0 <= i < |s| && s[i] == '@' && LocalLang(s[..i]) && DomainLang(s[i + 1..])
  }

  // ---------------------------------------------------------------------
  // The recogniser accepts exactly the pattern's language

  /** No character outside the pieces and the separator appears in a join. */
  lemma {:induction false} JoinWithAvoids(parts: seq<string>, c: char, x: char)
    requires |parts| >= 1
    requires x != c
    requires forall k :: 0 <= k < |parts| ==> x !in parts[k]
    ensures x !in JoinWith(parts, c)
    decreases |parts|
  {
    if |parts| > 1 {
      JoinWithAvoids(parts[1..], c, x);
    }
  }

  lemma DotAtomIff(s: string)
    ensures IsDotAtom(s) <==> DotAtomLang(s)
  {
    var atoms := SplitOn(s, '.');
    if IsDotAtom(s) {
      assert |atoms| >= 1 && JoinWith(atoms, '.') == s;
    }
    if DotAtomLang(s) {
      var w: seq<string> :| |w| >= 1 && (forall k :: 0 <= k < |w| ==> IsAtom(w[k])) &&
        JoinWith(w, '.') == s;
      AtomsHaveNoDot(w);
      SplitJoin(w, '.');
    }
  }

  lemma AtomsHaveNoDot(w: seq<string>)
    requires forall k :: 0 <= k < |w| ==> IsAtom(w[k])
    ensures forall k :: 0 <= k < |w| ==> '.' !in w[k]
  {
    forall k | 0 <= k < |w| ensures '.' !in w[k] {
    }
  }

  lemma LocalPartIff(s: string)
    ensures IsLocalPart(s) <==> LocalLang(s)
  {
    DotAtomIff(s);
  }

  lemma IpLiteralIff(s: string)
    ensures IsIpLiteral(s) <==> IpLiteralLang(s)
  {
    if IsIpLiteral(s) {
      var inner := s[1..|s| - 1];
      var groups := SplitOn(inner, '.');
      assert s == "[" + JoinWith(groups, '.') + "]";
    }
    if IpLiteralLang(s) {
      var g: seq<string> :| |g| == 4 && (forall k :: 0 <= k < 4 ==> IsOctet(g[k])) &&
        s == "[" + JoinWith(g, '.') + "]";
      forall k | 0 <= k < 4 ensures '.' !in g[k] {
      }
      assert s[1..|s| - 1] == JoinWith(g, '.');
      SplitJoin(g, '.');
    }
  }

  /** `(label\.)+final` is the labels and the final label joined with dots. */
  lemma {:induction false} DottedIsJoin(labels: seq<string>, last: string)
    ensures Dotted(labels) + last == JoinWith(labels + [last], '.')
    decreases |labels|
  {
    if labels != [] {
      DottedIsJoin(labels[1..], last);
      assert (labels + [last])[1..] == labels[1..] + [last];
      assert labels[0] + "." + Dotted(labels[1..]) + last
          == labels[0] + "." + (Dotted(labels[1..]) + last);
    }
  }

  lemma HostNameIff(s: string)
    ensures IsHostName(s) <==> HostNameLang(s)
  {
    if IsHostName(s) {
      HostNameSound(s);
    }
    if HostNameLang(s) {
      var labels: seq<string>, last: string :|
        |labels| >= 1 && (forall k :: 0 <= k < |labels| ==> IsLabel(labels[k])) &&
        IsFinalLabel(last) && s == Dotted(labels) + last;
      HostNameComplete(labels, last);
    }
  }

  /** The pieces the recogniser splits off are the pattern's labels. */
  lemma HostNameSound(s: string)
    requires IsHostName(s)
    ensures HostNameLang(s)
  {
    var parts := SplitOn(s, '.');
    var n := |parts| - 1;
    var labels, last := parts[..n], parts[n];
    assert parts == labels + [last];
    DottedIsJoin(labels, last);
    assert forall k :: 0 <= k < |labels| ==> IsLabel(labels[k]);
    assert s == Dotted(labels) + last;
  }

  /** Labels and a final label, written out, are split back into exactly those pieces. */
  lemma HostNameComplete(labels: seq<string>, last: string)
    requires |labels| >= 1 && forall k :: 0 <= k < |labels| ==> IsLabel(labels[k])
    requires IsFinalLabel(last)
    ensures IsHostName(Dotted(labels) + last)
  {
    var parts := labels + [last];
    DottedIsJoin(labels, last);
    assert AreHostParts(parts) by {
      assert forall k :: 0 <= k < |parts| - 1 ==> parts[k] == labels[k];
    }
    HostPartsJoin(parts);
  }

  /** Pieces that pass the host-name test, joined with dots, make a host name. */
  lemma HostPartsJoin(parts: seq<string>)
    requires AreHostParts(parts)
    ensures IsHostName(JoinWith(parts, '.'))
  {
    forall k | 0 <= k < |parts| ensures '.' !in parts[k] {
      LabelHasNoDot(parts[k]);
    }
    SplitJoin(parts, '.');
  }

  /** Neither kind of label contains a dot. */
  lemma LabelHasNoDot(s: string)
    requires IsLabel(s) || IsFinalLabel(s)
    ensures '.' !in s
  {
    forall i | 0 <= i < |s| ensures s[i] != '.' {
      assert IsLabelChar(s[i]);
    }
  }

  lemma DomainIff(s: string)
    ensures IsDomain(s) <==> DomainLang(s)
  {
    IpLiteralIff(s);
    HostNameIff(s);
  }

  /** A domain never contains '@'. */
  lemma DomainHasNoAt(s: string)
    requires IsDomain(s)
    ensures '@' !in s
  {
    if IsIpLiteral(s) {
      var inner := s[1..|s| - 1];
      var groups := SplitOn(inner, '.');
      forall k | 0 <= k < |groups| ensures '@' !in groups[k] {
      }
      JoinWithAvoids(groups, '.', '@');
      assert s == [s[0]] + inner + [s[|s| - 1]];
    } else {
      var parts := SplitOn(s, '.');
      forall k | 0 <= k < |parts| ensures '@' !in parts[k] {
      }
      JoinWithAvoids(parts, '.', '@');
    }
  }

  /** The recogniser accepts exactly the strings of the pattern's language. */
  lemma MatchesIff(s: string)
    ensures Matches(s) <==> EmailLang(s)
  {
    if Matches(s) {
      MatchesSound(s);
    }
    if EmailLang(s) {
      var i :| 0 <= i < |s| && s[i] == '@' && LocalLang(s[..i]) && DomainLang(s[i + 1..]);
      MatchesComplete(s, i);
    }
  }

  lemma MatchesSound(s: string)
    requires Matches(s)
    ensures EmailLang(s)
  {
    var at := LastIndexOf(s, '@');
    LocalPartIff(s[..at]);
    DomainIff(s[at + 1..]);
  }

  /** The '@' that the pattern uses is the last one, where the recogniser looks. */
  lemma MatchesComplete(s: string, i: nat)
    requires i < |s| && s[i] == '@' && LocalLang(s[..i]) && DomainLang(s[i + 1..])
    ensures Matches(s)
  {
    DomainIff(s[i + 1..]);
    DomainHasNoAt(s[i + 1..]);
    forall j | i < j < |s| ensures s[j] != '@' {
      assert s[j] == s[i + 1..][j - i - 1];
    }
    assert LastIndexOf(s, '@') == i;
    LocalPartIff(s[..i]);
  }

  // ---------------------------------------------------------------------
  // Lower-casing

  /** Calling `validateEmail` on an already lower-cased string gives the same answer. */
  lemma ValidateEmailOfLower(s: string)
    ensures ValidateEmail(Lower(s)) == ValidateEmail(s)
  {
    LowerIdempotent(s);
  }

  /** Each character class of the pattern is closed under lower-casing. */
  lemma LowerCharKeepsClasses(c: char)
    ensures IsAtomChar(LowerChar(c)) == IsAtomChar(c)
    ensures IsLabelChar(LowerChar(c)) == IsLabelChar(c)
    ensures IsAsciiLetter(LowerChar(c)) == IsAsciiLetter(c)
    ensures IsDigit(LowerChar(c)) == IsDigit(c)
    ensures IsLineTerminator(LowerChar(c)) == IsLineTerminator(c)
  {
  }

  /** Each leaf of the pattern is closed under lower-casing. */
  lemma LowerKeepsLeaves(s: string)
    ensures IsAtom(Lower(s)) == IsAtom(s)
    ensures IsOctet(Lower(s)) == IsOctet(s)
    ensures IsLabel(Lower(s)) == IsLabel(s)
    ensures IsFinalLabel(Lower(s)) == IsFinalLabel(s)
    ensures IsQuoted(Lower(s)) == IsQuoted(s)
  {
    var t := Lower(s);
    forall i | 0 <= i < |s| ensures IsAtomChar(t[i]) == IsAtomChar(s[i]) {
      LowerCharKeepsClasses(s[i]);
    }
    forall i | 0 <= i < |s| ensures IsDigit(t[i]) == IsDigit(s[i]) {
      LowerCharKeepsClasses(s[i]);
    }
    forall i | 0 <= i < |s| ensures IsLabelChar(t[i]) == IsLabelChar(s[i]) {
      LowerCharKeepsClasses(s[i]);
    }
    forall i | 0 <= i < |s| ensures IsAsciiLetter(t[i]) == IsAsciiLetter(s[i]) {
      LowerCharKeepsClasses(s[i]);
    }
    forall i | 0 <= i < |s| ensures IsLineTerminator(t[i]) == IsLineTerminator(s[i]) {
      LowerCharKeepsClasses(s[i]);
    }
    assert |s| > 0 ==> (t[0] == '"') == (s[0] == '"') && (t[|s| - 1] == '"') == (s[|s| - 1] == '"');
  }

  lemma LowerKeepsDotAtom(s: string)
    ensures IsDotAtom(Lower(s)) == IsDotAtom(s)
  {
    LowerSplit(s, '.');
    var parts := SplitOn(s, '.');
    var lowered := LowerAll(parts);
    forall k | 0 <= k < |parts| ensures IsAtom(lowered[k]) == IsAtom(parts[k]) {
      LowerKeepsLeaves(parts[k]);
    }
    assert AreAtoms(lowered) == AreAtoms(parts);
  }

  lemma LowerKeepsIpLiteral(s: string)
    ensures IsIpLiteral(Lower(s)) == IsIpLiteral(s)
  {
    if |s| >= 2 {
      var t := Lower(s);
      var inner, lowered := s[1..|s| - 1], t[1..|s| - 1];
      assert Lower(inner) == lowered by {
        LowerSlice(s, 1, |s| - 1);
      }
      assert AreOctets(SplitOn(lowered, '.')) == AreOctets(SplitOn(inner, '.')) by {
        LowerKeepsOctets(inner);
      }
      assert t[0] == LowerChar(s[0]) && t[|s| - 1] == LowerChar(s[|s| - 1]);
    }
  }

  lemma LowerKeepsOctets(inner: string)
    ensures AreOctets(SplitOn(Lower(inner), '.')) == AreOctets(SplitOn(inner, '.'))
  {
    LowerSplit(inner, '.');
    var groups := SplitOn(inner, '.');
    var lowered := LowerAll(groups);
    forall k | 0 <= k < |groups| ensures IsOctet(lowered[k]) == IsOctet(groups[k]) {
      LowerKeepsLeaves(groups[k]);
    }
    OctetsPointwise(lowered, groups);
  }

  lemma OctetsPointwise(a: seq<string>, b: seq<string>)
    requires |a| == |b|
    requires forall k :: 0 <= k < |a| ==> IsOctet(a[k]) == IsOctet(b[k])
    ensures AreOctets(a) == AreOctets(b)
  {
  }

  lemma LowerKeepsHostName(s: string)
    ensures IsHostName(Lower(s)) == IsHostName(s)
  {
    LowerSplit(s, '.');
    var parts := SplitOn(s, '.');
    var lowered := LowerAll(parts);
    forall k | 0 <= k < |parts|
      ensures IsLabel(lowered[k]) == IsLabel(parts[k])
      ensures IsFinalLabel(lowered[k]) == IsFinalLabel(parts[k])
    {
      LowerKeepsLeaves(parts[k]);
    }
    HostPartsPointwise(lowered, parts);
  }

  lemma HostPartsPointwise(a: seq<string>, b: seq<string>)
    requires |a| == |b|
    requires forall k :: 0 <= k < |a| ==> IsLabel(a[k]) == IsLabel(b[k])
    requires forall k :: 0 <= k < |a| ==> IsFinalLabel(a[k]) == IsFinalLabel(b[k])
    ensures AreHostParts(a) == AreHostParts(b)
  {
  }

  lemma LowerKeepsLocalPart(s: string)
    ensures IsLocalPart(Lower(s)) == IsLocalPart(s)
  {
    LowerKeepsDotAtom(s);
    LowerKeepsLeaves(s);
  }

  lemma LowerKeepsDomain(s: string)
    ensures IsDomain(Lower(s)) == IsDomain(s)
  {
    LowerKeepsIpLiteral(s);
    LowerKeepsHostName(s);
  }

  /**
   * The pattern itself already ignores ASCII case, so the lower-casing step
   * of `validateEmail` never changes its verdict.
   */
  lemma MatchesIgnoresCase(s: string)
    ensures Matches(Lower(s)) == Matches(s)
    ensures ValidateEmail(s) == Matches(s)
  {
    var t := Lower(s);
    var at := LastIndexOf(s, '@');
    LowerIndexOf(s, '@');
    if at < |s| {
      var local, domain := s[..at], s[at + 1..];
      LowerPrefix(s, at);
      LowerSuffix(s, at + 1);
      LowerKeepsLocalPart(local);
      LowerKeepsDomain(domain);
    }
  }

  /** Matching `local + "@" + domain` with no '@' in `domain` is judging the two sides. */
  lemma MatchesSides(local: string, domain: string)
    requires '@' !in domain
    ensures Matches(local + "@" + domain) == (IsLocalPart(local) && IsDomain(domain))
  {
    var s := local + "@" + domain;
    assert s[|local|] == '@';
    assert forall j :: |local| < j < |s| ==> s[j] == domain[j - |local| - 1];
    LastIndexOfLast(s, '@', |local|);
    assert s[..|local|] == local;
    assert s[|local| + 1..] == domain;
  }

  /** Any local part, then '@', then any domain, is accepted whatever its case. */
  lemma AcceptsLocalAtDomain(local: string, domain: string)
    requires IsLocalPart(local) && IsDomain(domain)
    ensures ValidateEmail(local + "@" + domain)
  {
    var s := local + "@" + domain;
    assert s[..|local|] == local;
    assert s[|local| + 1..] == domain;
    LocalPartIff(local);
    DomainIff(domain);
    MatchesComplete(s, |local|);
    MatchesIgnoresCase(s);
  }

  /** `validateEmail` accepts exactly the strings of the written pattern. */
  lemma ValidateEmailIff(s: string)
    ensures ValidateEmail(s) <==> EmailLang(s)
  {
    MatchesIgnoresCase(s);
    MatchesIff(s);
  }

  /** The empty string is rejected. */
  lemma RejectsEmpty()
    ensures !ValidateEmail("")
  {
  }
}
