/**
 * `checkPasswordStrength` and the strength bands of `PasswordStrengthMeter`.
 *
 * A non-empty password is tested against five fixed rules, in a fixed order;
 * the result lists each rule's label with whether it is met, and the score
 * is the number of rules met. The empty password is answered early with
 * score 0 and no rules at all.
 */
module PasswordStrength {
  import opened Strings

  // ---------------------------------------------------------------------
  // The rules

  datatype Rule = MinLength | Uppercase | Lowercase | Digit | Symbol
  {
    /** The label shown next to the rule. */
    function Label(): string
    {
      match this
      case MinLength => "Mínimo 8 caracteres"
      case Uppercase => "Una mayúscula"
      case Lowercase => "Una minúscula"
      case Digit => "Un número"
      case Symbol => "Un símbolo especial"
    }

    /** `regex.test(password)` for the rule's pattern. */
    predicate Holds(password: string)
    {
      match this
      case MinLength => HasRun(password, 8)
      case Uppercase => exists i :: 0 <= i < |password| && IsUpper(password[i])
      case Lowercase => exists i :: 0 <= i < |password| && IsLower(password[i])
      case Digit => exists i :: 0 <= i < |password| && IsDigit(password[i])
      case Symbol => exists i :: 0 <= i < |password| && IsSymbol(password[i])
    }
  }

  /** The rules in the order the meter lists them. */
  const Rules: seq<Rule> := [MinLength, Uppercase, Lowercase, Digit, Symbol]

  /** `[^A-Za-z0-9]` */
  predicate IsSymbol(c: char)
  {
    !IsAsciiLetter(c) && !IsDigit(c)
  }

  /** No character of `w` is a line terminator. */
  predicate OnOneLine(w: string)
  {
    forall i :: 0 <= i < |w| ==> !IsLineTerminator(w[i])
  }

  /**
   * `/.{n,}/.test(p)`: trying each start position in turn, some `n`
   * consecutive characters from there are not line terminators.
   */
  predicate HasRun(p: string, n: nat)
    decreases |p|
  {
    |p| >= n && (OnOneLine(p[..n]) || HasRun(p[1..], n))
  }

  /** What `.{n,}` denotes without an anchor: a window of `n` characters on one line. */
  ghost predicate RunLang(p: string, n: nat)
  {
    exists i :: 0 <= i <= |p| - n && OnOneLine(Window(p, i, n))
  }

  /** The `n` characters of `p` from position `i`. */
  function Window(p: string, i: nat, n: nat): string
    requires i + n <= |p|
  {
    p[i..i + n]
  }

  // ---------------------------------------------------------------------
  // The score

  /** One entry of `details`: the rule's label (`caption`, `label` being a Dafny keyword) and `met`. */
  datatype Detail = Detail(caption: string, met: bool)

  datatype Strength = Strength(score: int, details: seq<Detail>)

  /** `details.filter((d) => d.met).length` */
  function CountMet(details: seq<Detail>): (n: nat)
    ensures n <= |details|
  {
    if details == [] then 0
    else CountMet(details[..|details| - 1]) + if details[|details| - 1].met then 1 else 0
  }

  /** `checks.map(...)`: each rule's label and whether the password meets it. */
  function Evaluate(password: string): (details: seq<Detail>)
    ensures |details| == |Rules|
    ensures forall k :: 0 <= k < |Rules| ==>
      details[k] == Detail(Rules[k].Label(), Rules[k].Holds(password))
  {
    seq(|Rules|, k requires 0 <= k < |Rules| => Detail(Rules[k].Label(), Rules[k].Holds(password)))
  }

  /** `checkPasswordStrength` */
  function CheckPasswordStrength(password: string): (r: Strength)
    ensures 0 <= r.score <= |r.details| <= |Rules|
    ensures password == "" <==> r.details == []
    ensures password != "" ==> r.details == Evaluate(password)
    ensures r.score == CountMet(r.details)
  {
    if password == "" then Strength(0, [])
    else
      var details := Evaluate(password);
      Strength(CountMet(details), details)
  }

  /** The positions of the entries that are met. */
  function MetPositions(details: seq<Detail>): (r: set<int>)
    ensures forall k :: k in r <==> 0 <= k < |details| && details[k].met
  {
    set k | 0 <= k < |details| && details[k].met
  }

  /** The score counts exactly the entries marked as met. */
  lemma {:induction false} CountMetIsSize(details: seq<Detail>)
    ensures CountMet(details) == |MetPositions(details)|
    decreases |details|
  {
    if details != [] {
      var n := |details| - 1;
      var front := details[..n];
      CountMetIsSize(front);
      var before, after := MetPositions(front), MetPositions(details);
      if details[n].met {
        assert after == before + {n};
        assert n !in before;
      } else {
        assert after == before;
      }
    }
  }

  /** The count reaches the length exactly when every entry is met. */
  lemma {:induction false} CountMetFull(details: seq<Detail>)
    ensures CountMet(details) == |details| <==> forall k :: 0 <= k < |details| ==> details[k].met
    decreases |details|
  {
    if details != [] {
      var n := |details| - 1;
      var front := details[..n];
      CountMetFull(front);
      assert forall k :: 0 <= k < n ==> front[k] == details[k];
    }
  }

  /** 1 when the rule holds, 0 otherwise. */
  function Indicator(rule: Rule, password: string): (r: nat)
    ensures r <= 1
    ensures r == 1 <==> rule.Holds(password)
  {
    if rule.Holds(password) then 1 else 0
  }

  /**
   * The empty password is scored 0 with no entries; any other password gets
   * the five rules in order and scores one point per rule it meets.
   */
  lemma ScoreCountsRules(password: string)
    ensures password == "" ==> CheckPasswordStrength(password) == Strength(0, [])
    ensures password != "" ==>
      var r := CheckPasswordStrength(password);
      |r.details| == 5 &&
      r.details[0] == Detail("Mínimo 8 caracteres", HasRun(password, 8)) &&
      r.details[1] == Detail("Una mayúscula", Uppercase.Holds(password)) &&
      r.details[2] == Detail("Una minúscula", Lowercase.Holds(password)) &&
      r.details[3] == Detail("Un número", Digit.Holds(password)) &&
      r.details[4] == Detail("Un símbolo especial", Symbol.Holds(password)) &&
      r.score == Indicator(MinLength, password) + Indicator(Uppercase, password) +
        Indicator(Lowercase, password) + Indicator(Digit, password) + Indicator(Symbol, password) &&
      r.score == |MetPositions(r.details)|
  {
    if password != "" {
      var d := Evaluate(password);
      CountMetIsSize(d);
      assert d[..4][..3][..2][..1][..0] == [];
      assert CountMet(d) == CountMet(d[..4]) + Indicator(Symbol, password);
      assert CountMet(d[..4]) == CountMet(d[..4][..3]) + Indicator(Digit, password);
      assert CountMet(d[..4][..3]) == CountMet(d[..4][..3][..2]) + Indicator(Lowercase, password);
      assert CountMet(d[..4][..3][..2]) == CountMet(d[..4][..3][..2][..1]) + Indicator(Uppercase, password);
    }
  }

  /** A password scores 5 exactly when it meets all five rules. */
  lemma ScoreFiveIff(password: string)
    ensures CheckPasswordStrength(password).score == 5 <==>
      HasRun(password, 8) && Uppercase.Holds(password) && Lowercase.Holds(password) &&
      Digit.Holds(password) && Symbol.Holds(password)
  {
    if password != "" {
      var d := Evaluate(password);
      CountMetFull(d);
      assert Rules[0] == MinLength && Rules[1] == Uppercase && Rules[2] == Lowercase;
      assert Rules[3] == Digit && Rules[4] == Symbol;
    }
  }

  /** The recursive `HasRun` finds a window exactly when `.{n,}` has one. */
  lemma {:induction false} HasRunIff(p: string, n: nat)
    ensures HasRun(p, n) <==> RunLang(p, n)
    decreases |p|
  {
    if |p| >= n {
      assert Window(p, 0, n) == p[..n];
      if |p| > 0 {
        HasRunIff(p[1..], n);
        RunLangShift(p, n);
      }
    }
  }

  /** A window of `p[1..]` is a window of `p` one place further on, and back. */
  lemma RunLangShift(p: string, n: nat)
    requires |p| > 0 && |p| >= n
    ensures RunLang(p[1..], n) ==> RunLang(p, n)
    ensures RunLang(p, n) ==> OnOneLine(p[..n]) || RunLang(p[1..], n)
  {
    if RunLang(p[1..], n) {
      var i :| 0 <= i <= |p[1..]| - n && OnOneLine(Window(p[1..], i, n));
      assert Window(p[1..], i, n) == Window(p, i + 1, n);
    }
    if RunLang(p, n) {
      var i :| 0 <= i <= |p| - n && OnOneLine(Window(p, i, n));
      if i == 0 {
        assert Window(p, 0, n) == p[..n];
      } else {
        assert Window(p, i, n) == Window(p[1..], i - 1, n);
      }
    }
  }

  /** On a single line, `.{n,}` is a plain length test. */
  lemma HasRunOnOneLine(p: string, n: nat)
    requires OnOneLine(p)
    ensures HasRun(p, n) <==> |p| >= n
  {
    if |p| >= n {
      assert forall i :: 0 <= i < n ==> p[..n][i] == p[i];
    }
  }

  // ---------------------------------------------------------------------
  // The strength bands of the meter

  datatype Band = Weak | Medium | Excellent
  {
    /** The caption shown for the band. */
    function Name(): string
    {
      match this
      case Weak => "Débil"
      case Medium => "Media"
      case Excellent => "Excelente"
    }
  }

  /** `getColor`: red up to 2, amber for 3 or 4, green otherwise. */
  function ColorBand(score: int): (b: Band)
    ensures b == Weak <==> score <= 2
    ensures b == Medium <==> score == 3 || score == 4
  {
    if score <= 2 then Weak
    else if score == 3 || score == 4 then Medium
    else Excellent
  }

  /** The caption and its colour: excellent only at 5, medium above 2, weak otherwise. */
  function CaptionBand(score: int): (b: Band)
    ensures b == Excellent <==> score == 5
    ensures b == Weak <==> score <= 2
  {
    if score == 5 then Excellent
    else if score > 2 then Medium
    else Weak
  }

  /** The bar's animated colour: weak up to 2, medium below 5, excellent otherwise. */
  function FillBand(score: int): (b: Band)
    ensures b == Weak <==> score <= 2
    ensures b == Excellent <==> score >= 5
  {
    if score <= 2 then Weak
    else if score < 5 then Medium
    else Excellent
  }

  /**
   * On every score a password can get the three band choices agree, and they
   * split 0..5 into weak (0-2), medium (3-4) and excellent (5); the meter
   * shows "Excelente" exactly when the password meets every rule.
   */
  lemma MeterBands(password: string)
    ensures var s := CheckPasswordStrength(password).score;
      ColorBand(s) == CaptionBand(s) == FillBand(s) &&
      (CaptionBand(s) == Weak <==> s <= 2) &&
      (CaptionBand(s) == Medium <==> 3 <= s <= 4) &&
      (CaptionBand(s).Name() == "Excelente" <==>
        HasRun(password, 8) && Uppercase.Holds(password) && Lowercase.Holds(password) &&
        Digit.Holds(password) && Symbol.Holds(password))
  {
    ScoreFiveIff(password);
  }
}
