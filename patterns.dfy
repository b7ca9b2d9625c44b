/**
  The languages of the three regular expressions of validator.go, each written
  twice: as a reference definition that follows the pattern group by group, and
  as a recognizer (a finite automaton run by `Chars.Scan`, or a left-to-right
  search) that stands for the compiled expression's `MatchString`. The lemmas
  prove that each recognizer accepts exactly its reference language.

    Int     = ^(?:[-+]?(?:0|[1-9][0-9]*))$
    Float   = ^(?:[-+]?(?:[0-9]+))?(?:\.[0-9]*)?(?:[eE][\+\-]?(?:[0-9]+))?$
    DateExp = \d{4}-\d{2}-\d{2}            (not anchored)

  Go's `$` without the `m` flag matches only at the very end of the text, so a
  trailing newline is never accepted by the anchored patterns.
 */
module Patterns {
  import opened Chars

  // ---------------------------------------------------------------------------
  // Int
  // ---------------------------------------------------------------------------

  /** `0|[1-9][0-9]*` */
  ghost predicate UnsignedIntLang(s: string) {
    s == "0" || (|s| > 0 && IsNonZeroDigit(s[0]) && AllDigits(s[1..]))
  }

  /**
    The language of `Int`, `^[-+]?(0|[1-9][0-9]*)$`: an optional sign, then
    either the single digit `0` or a digit 1-9 followed by any digits.
   */
  ghost predicate IntLang(s: string)
    ensures IntLang(s) ==> |s| > 0
  {
    UnsignedIntLang(s) || (|s| > 0 && IsSign(s[0]) && UnsignedIntLang(s[1..]))
  }

  datatype IntState =
    | IntStart    // nothing read yet
    | IntSigned   // a sign read, no digit yet
    | IntZero     // the single digit `0` read
    | IntDigits   // a digit 1-9 read, then any digits
    | IntReject   // no continuation can match

  function IntStep(q: IntState, c: char): IntState {
    match q
    case IntStart =>
      if IsSign(c) then IntSigned
      else if c == '0' then IntZero
      else if IsNonZeroDigit(c) then IntDigits
      else IntReject
    case IntSigned =>
      if c == '0' then IntZero
      else if IsNonZeroDigit(c) then IntDigits
      else IntReject
    case IntDigits => if IsDigit(c) then IntDigits else IntReject
    case IntZero => IntReject
    case IntReject => IntReject
  }

  predicate IntAccepting(q: IntState) {
    q == IntZero || q == IntDigits
  }

  /** `rxInt.MatchString(s)` */
  function MatchInt(s: string): (r: bool)
    ensures r <==> IntLang(s)
  {
    ScanIntStart(s);
    Scan(IntStep, IntAccepting, IntStart, s)
  }

  lemma {:induction false} ScanIntReject(s: string)
    ensures !Scan(IntStep, IntAccepting, IntReject, s)
  {
    if s != [] {
      ScanIntReject(s[1..]);
    }
  }

  lemma {:induction false} ScanIntDigits(s: string)
    ensures Scan(IntStep, IntAccepting, IntDigits, s) <==> AllDigits(s)
  {
    if s != [] {
      AllDigitsCons(s);
      if IsDigit(s[0]) {
        ScanIntDigits(s[1..]);
      } else {
        ScanIntReject(s[1..]);
      }
    }
  }

  lemma ScanIntZero(s: string)
    ensures Scan(IntStep, IntAccepting, IntZero, s) <==> s == []
  {
    if s != [] {
      ScanIntReject(s[1..]);
    }
  }

  /** After a sign, the automaton accepts exactly `0|[1-9][0-9]*`. */
  lemma ScanIntSigned(s: string)
    ensures Scan(IntStep, IntAccepting, IntSigned, s) <==> UnsignedIntLang(s)
  {
    if s != [] {
      if s[0] == '0' {
        ScanIntZero(s[1..]);
        assert s == "0" <==> s[1..] == [] by {
          if s[1..] == [] {
            assert s == [s[0]] + s[1..];
          }
        }
      } else if IsNonZeroDigit(s[0]) {
        ScanIntDigits(s[1..]);
      } else {
        ScanIntReject(s[1..]);
      }
    }
  }

  /** The Int automaton recognises exactly the language of the Int pattern. */
  lemma ScanIntStart(s: string)
    ensures Scan(IntStep, IntAccepting, IntStart, s) <==> IntLang(s)
  {
    if s != [] {
      if IsSign(s[0]) {
        ScanIntSigned(s[1..]);
      } else {
        assert IntStep(IntStart, s[0]) == IntStep(IntSigned, s[0]);
        ScanIntSigned(s);
      }
    }
  }

  // ---------------------------------------------------------------------------
  // Float
  // ---------------------------------------------------------------------------

  /** `[-+]?[0-9]+`: the integer part of the mantissa and the exponent's digits. */
  ghost predicate SignedDigits(s: string) {
    Digits(s) || (|s| > 0 && IsSign(s[0]) && Digits(s[1..]))
  }

  /** `(?:[-+]?(?:[0-9]+))?` */
  ghost predicate IntGroup(s: string) {
    s == [] || SignedDigits(s)
  }

  /** `(?:\.[0-9]*)?` */
  ghost predicate FracGroup(s: string) {
    s == [] || (s[0] == '.' && AllDigits(s[1..]))
  }

  /** `(?:[eE][\+\-]?(?:[0-9]+))?` */
  ghost predicate ExpGroup(s: string) {
    s == [] || (IsExpMarker(s[0]) && SignedDigits(s[1..]))
  }

  /** `s[..j]` is the fraction group and `s[j..]` the exponent group. */
  ghost predicate FracExpAt(s: string, j: int) {
    0 <= j <= |s| && FracGroup(s[..j]) && ExpGroup(s[j..])
  }

  /** The fraction group followed by the exponent group. */
  ghost predicate FracExp(s: string) {
    exists j :: FracExpAt(s, j)
  }

  /** `s[..i]` is the integer group and `s[i..]` the fraction and exponent groups. */
  ghost predicate FloatAt(s: string, i: int) {
    0 <= i <= |s| && IntGroup(s[..i]) && FracExp(s[i..])
  }

  /**
    The whole Float pattern: the integer group, the fraction group and the
    exponent group, each of them optional, and nothing else. The empty string
    belongs to this language.
   */
  ghost predicate FloatLang(s: string) {
    exists i :: FloatAt(s, i)
  }

  ghost predicate AfterDigitsAt(s: string, i: int) {
    0 <= i <= |s| && AllDigits(s[..i]) && FracExp(s[i..])
  }

  /** What may follow one or more digits of the integer group. */
  ghost predicate AfterDigits(s: string) {
    exists i :: AfterDigitsAt(s, i)
  }

  ghost predicate AfterSignAt(s: string, i: int) {
    0 <= i <= |s| && Digits(s[..i]) && FracExp(s[i..])
  }

  /** What may follow the sign of the integer group: at least one digit first. */
  ghost predicate AfterSign(s: string) {
    exists i :: AfterSignAt(s, i)
  }

  ghost predicate AfterDotAt(s: string, j: int) {
    0 <= j <= |s| && AllDigits(s[..j]) && ExpGroup(s[j..])
  }

  /** What may follow the `.` of the fraction group. */
  ghost predicate AfterDot(s: string) {
    exists j :: AfterDotAt(s, j)
  }

  datatype FloatState =
    | FloatStart      // nothing read yet
    | FloatSigned     // the mantissa's sign read
    | FloatInt        // in the digits of the integer group
    | FloatFrac       // after the `.`, in the digits of the fraction
    | FloatExpMarker  // the `e` or `E` read
    | FloatExpSigned  // the exponent's sign read
    | FloatExp        // in the digits of the exponent
    | FloatReject     // no continuation can match

  function FloatStep(q: FloatState, c: char): FloatState {
    match q
    case FloatStart =>
      if IsSign(c) then FloatSigned
      else if IsDigit(c) then FloatInt
      else if c == '.' then FloatFrac
      else if IsExpMarker(c) then FloatExpMarker
      else FloatReject
    case FloatSigned => if IsDigit(c) then FloatInt else FloatReject
    case FloatInt =>
      if IsDigit(c) then FloatInt
      else if c == '.' then FloatFrac
      else if IsExpMarker(c) then FloatExpMarker
      else FloatReject
    case FloatFrac =>
      if IsDigit(c) then FloatFrac
      else if IsExpMarker(c) then FloatExpMarker
      else FloatReject
    case FloatExpMarker =>
      if IsSign(c) then FloatExpSigned
      else if IsDigit(c) then FloatExp
      else FloatReject
    case FloatExpSigned => if IsDigit(c) then FloatExp else FloatReject
    case FloatExp => if IsDigit(c) then FloatExp else FloatReject
    case FloatReject => FloatReject
  }

  predicate FloatAccepting(q: FloatState) {
    q == FloatStart || q == FloatInt || q == FloatFrac || q == FloatExp
  }

  /** `rxFloat.MatchString(s)` */
  function MatchFloat(s: string): (r: bool)
    ensures r <==> FloatLang(s)
  {
    ScanFloatStart(s);
    Scan(FloatStep, FloatAccepting, FloatStart, s)
  }

  // Facts about the reference language, one first character at a time.

  /** Splitting off the first character of a prefix `s[..i]` and of the rest `s[i..]`. */
  lemma Peel(s: string, i: nat)
    requires 1 <= i <= |s|
    ensures s[..i][0] == s[0]
    ensures s[..i][1..] == s[1..][..i - 1]
    ensures s[i..] == s[1..][i - 1..]
  {
  }

  /** A non-empty integer group starting with a sign is the sign and then digits. */
  lemma IntGroupSigned(a: string)
    requires a != [] && IsSign(a[0])
    ensures IntGroup(a) <==> Digits(a[1..])
  {
  }

  /** A non-empty integer group starting with a digit is digits throughout. */
  lemma IntGroupDigit(a: string)
    requires a != [] && IsDigit(a[0])
    ensures IntGroup(a) <==> AllDigits(a[1..])
  {
    AllDigitsCons(a);
  }

  /** A prefix made of digits only is empty when the string starts with something else. */
  lemma NoDigitPrefix(s: string, i: int)
    requires s != [] && !IsDigit(s[0]) && 0 <= i <= |s| && AllDigits(s[..i])
    ensures i == 0
  {
  }

  /** A non-empty run of the fraction and exponent groups starts with `.`, `e` or `E`. */
  lemma FracExpHead(s: string)
    requires s != [] && s[0] != '.' && !IsExpMarker(s[0])
    ensures !FracExp(s)
  {
  }

  lemma {:induction false} FracExpDot(s: string)
    requires s != [] && s[0] == '.'
    ensures FracExp(s) <==> AfterDot(s[1..])
  {
    assert s[0..] == s;
    if FracExp(s) {
      var j :| FracExpAt(s, j);
      if j > 0 {
        Peel(s, j);
        assert AfterDotAt(s[1..], j - 1);
      }
    }
    if AfterDot(s[1..]) {
      var j :| AfterDotAt(s[1..], j);
      Peel(s, j + 1);
      assert FracExpAt(s, j + 1);
    }
  }

  lemma {:induction false} FracExpMarker(s: string)
    requires s != [] && IsExpMarker(s[0])
    ensures FracExp(s) <==> SignedDigits(s[1..])
  {
    if FracExp(s) {
      var j :| FracExpAt(s, j);
      assert s[j..] == s;
    }
    if SignedDigits(s[1..]) {
      assert s[0..] == s;
      assert FracExpAt(s, 0);
    }
  }

  lemma {:induction false} AfterDotDigit(s: string)
    requires s != [] && IsDigit(s[0])
    ensures AfterDot(s) <==> AfterDot(s[1..])
  {
    assert s[0..] == s;
    if AfterDot(s) {
      var j :| AfterDotAt(s, j);
      if j > 0 {
        Peel(s, j);
        AllDigitsCons(s[..j]);
        assert AfterDotAt(s[1..], j - 1);
      }
    }
    if AfterDot(s[1..]) {
      var j :| AfterDotAt(s[1..], j);
      Peel(s, j + 1);
      AllDigitsCons(s[..j + 1]);
      assert AfterDotAt(s, j + 1);
    }
  }

  lemma {:induction false} AfterDotNonDigit(s: string)
    requires s != [] && !IsDigit(s[0])
    ensures AfterDot(s) <==> ExpGroup(s)
  {
    if AfterDot(s) {
      var j :| AfterDotAt(s, j);
      NoDigitPrefix(s, j);
      assert s[j..] == s;
    }
    if ExpGroup(s) {
      assert s[0..] == s;
      assert AfterDotAt(s, 0);
    }
  }

  lemma {:induction false} AfterDigitsDigit(s: string)
    requires s != [] && IsDigit(s[0])
    ensures AfterDigits(s) <==> AfterDigits(s[1..])
  {
    assert s[0..] == s;
    FracExpHead(s);
    if AfterDigits(s) {
      var i :| AfterDigitsAt(s, i);
      if i > 0 {
        Peel(s, i);
        AllDigitsCons(s[..i]);
        assert AfterDigitsAt(s[1..], i - 1);
      }
    }
    if AfterDigits(s[1..]) {
      var i :| AfterDigitsAt(s[1..], i);
      Peel(s, i + 1);
      AllDigitsCons(s[..i + 1]);
      assert AfterDigitsAt(s, i + 1);
    }
  }

  lemma {:induction false} AfterDigitsNonDigit(s: string)
    requires s != [] && !IsDigit(s[0])
    ensures AfterDigits(s) <==> FracExp(s)
  {
    if AfterDigits(s) {
      var i :| AfterDigitsAt(s, i);
      NoDigitPrefix(s, i);
      assert s[i..] == s;
    }
    if FracExp(s) {
      assert s[0..] == s;
      assert AfterDigitsAt(s, 0);
    }
  }

  lemma {:induction false} AfterSignCons(s: string)
    requires s != []
    ensures AfterSign(s) <==> IsDigit(s[0]) && AfterDigits(s[1..])
  {
    if AfterSign(s) {
      var i :| AfterSignAt(s, i);
      Peel(s, i);
      AllDigitsCons(s[..i]);
      assert AfterDigitsAt(s[1..], i - 1);
    }
    if IsDigit(s[0]) && AfterDigits(s[1..]) {
      var i :| AfterDigitsAt(s[1..], i);
      Peel(s, i + 1);
      AllDigitsCons(s[..i + 1]);
      assert AfterSignAt(s, i + 1);
    }
  }

  /** A leading sign belongs to the integer group, which then needs a digit. */
  lemma {:induction false} FloatLangSigned(s: string)
    requires s != [] && IsSign(s[0])
    ensures FloatLang(s) <==> AfterSign(s[1..])
  {
    if AfterSign(s[1..]) {
      var i :| AfterSignAt(s[1..], i);
      Peel(s, i + 1);
      IntGroupSigned(s[..i + 1]);
      assert FloatAt(s, i + 1);
    }
    if FloatLang(s) {
      var i :| FloatAt(s, i);
      if i == 0 {
        assert s[i..] == s;
        FracExpHead(s);
      } else {
        Peel(s, i);
        IntGroupSigned(s[..i]);
        assert AfterSignAt(s[1..], i - 1);
      }
    }
  }

  /** A leading digit starts the integer group. */
  lemma {:induction false} FloatLangDigit(s: string)
    requires s != [] && IsDigit(s[0])
    ensures FloatLang(s) <==> AfterDigits(s[1..])
  {
    if AfterDigits(s[1..]) {
      var i :| AfterDigitsAt(s[1..], i);
      Peel(s, i + 1);
      IntGroupDigit(s[..i + 1]);
      assert FloatAt(s, i + 1);
    }
    if FloatLang(s) {
      var i :| FloatAt(s, i);
      if i == 0 {
        assert s[i..] == s;
        FracExpHead(s);
      } else {
        Peel(s, i);
        IntGroupDigit(s[..i]);
        assert AfterDigitsAt(s[1..], i - 1);
      }
    }
  }

  /** Any other first character means the integer group is absent. */
  lemma {:induction false} FloatLangNoInt(s: string)
    requires s != [] && !IsSign(s[0]) && !IsDigit(s[0])
    ensures FloatLang(s) <==> FracExp(s)
  {
    if FloatLang(s) {
      var i :| FloatAt(s, i);
      assert s[i..] == s;
    }
    if FracExp(s) {
      assert s[0..] == s;
      assert FloatAt(s, 0);
    }
  }

  // The automaton, state by state, against the reference language.

  lemma {:induction false} ScanFloatReject(s: string)
    ensures !Scan(FloatStep, FloatAccepting, FloatReject, s)
  {
    if s != [] {
      ScanFloatReject(s[1..]);
    }
  }

  lemma {:induction false} ScanFloatExp(s: string)
    ensures Scan(FloatStep, FloatAccepting, FloatExp, s) <==> AllDigits(s)
  {
    if s != [] {
      AllDigitsCons(s);
      if IsDigit(s[0]) {
        ScanFloatExp(s[1..]);
      } else {
        ScanFloatReject(s[1..]);
      }
    }
  }

  lemma {:induction false} ScanFloatExpSigned(s: string)
    ensures Scan(FloatStep, FloatAccepting, FloatExpSigned, s) <==> Digits(s)
  {
    if s != [] {
      AllDigitsCons(s);
      if IsDigit(s[0]) {
        ScanFloatExp(s[1..]);
      } else {
        ScanFloatReject(s[1..]);
      }
    }
  }

  lemma {:induction false} ScanFloatExpMarker(s: string)
    ensures Scan(FloatStep, FloatAccepting, FloatExpMarker, s) <==> SignedDigits(s)
  {
    if s != [] {
      AllDigitsCons(s);
      if IsSign(s[0]) {
        ScanFloatExpSigned(s[1..]);
      } else if IsDigit(s[0]) {
        ScanFloatExp(s[1..]);
      } else {
        ScanFloatReject(s[1..]);
      }
    }
  }

  lemma {:induction false} ScanFloatFrac(s: string)
    ensures Scan(FloatStep, FloatAccepting, FloatFrac, s) <==> AfterDot(s)
  {
    if s == [] {
      assert AfterDotAt(s, 0);
    } else if IsDigit(s[0]) {
      ScanFloatFrac(s[1..]);
      AfterDotDigit(s);
    } else {
      AfterDotNonDigit(s);
      if IsExpMarker(s[0]) {
        ScanFloatExpMarker(s[1..]);
      } else {
        ScanFloatReject(s[1..]);
      }
    }
  }

  /** Once the integer group is over, the automaton accepts exactly the fraction and exponent groups. */
  lemma {:induction false} ScanFloatFracExp(s: string)
    requires s != [] && !IsDigit(s[0])
    ensures Scan(FloatStep, FloatAccepting, FloatInt, s) <==> FracExp(s)
  {
    if s[0] == '.' {
      ScanFloatFrac(s[1..]);
      FracExpDot(s);
    } else if IsExpMarker(s[0]) {
      ScanFloatExpMarker(s[1..]);
      FracExpMarker(s);
    } else {
      FracExpHead(s);
      ScanFloatReject(s[1..]);
    }
  }

  lemma {:induction false} ScanFloatInt(s: string)
    ensures Scan(FloatStep, FloatAccepting, FloatInt, s) <==> AfterDigits(s)
  {
    if s == [] {
      assert FracExpAt(s, 0);
      assert AfterDigitsAt(s, 0);
    } else if IsDigit(s[0]) {
      ScanFloatInt(s[1..]);
      AfterDigitsDigit(s);
    } else {
      ScanFloatFracExp(s);
      AfterDigitsNonDigit(s);
    }
  }

  lemma {:induction false} ScanFloatSigned(s: string)
    ensures Scan(FloatStep, FloatAccepting, FloatSigned, s) <==> AfterSign(s)
  {
    if s != [] {
      AfterSignCons(s);
      if IsDigit(s[0]) {
        ScanFloatInt(s[1..]);
      } else {
        ScanFloatReject(s[1..]);
      }
    }
  }

  /** The Float automaton recognises exactly the language of the Float pattern. */
  lemma {:induction false} ScanFloatStart(s: string)
    ensures Scan(FloatStep, FloatAccepting, FloatStart, s) <==> FloatLang(s)
  {
    if s == [] {
      assert FracExpAt(s, 0);
      assert FloatAt(s, 0);
    } else if IsSign(s[0]) {
      ScanFloatSigned(s[1..]);
      FloatLangSigned(s);
    } else if IsDigit(s[0]) {
      ScanFloatInt(s[1..]);
      FloatLangDigit(s);
    } else {
      assert FloatStep(FloatStart, s[0]) == FloatStep(FloatInt, s[0]);
      ScanFloatFracExp(s);
      FloatLangNoInt(s);
    }
  }

  /**
    Where each character of a Float match may sit: positions `[0, i)` hold the
    integer group, `[i, j)` the fraction group and `[j, |s|)` the exponent group.
   */
  ghost predicate FloatLayoutAt(s: string, i: nat, j: nat) {
    && i <= j <= |s|
    && (forall k :: 0 <= k < i ==> IsDigit(s[k]) || (k == 0 && IsSign(s[k])))
    && (forall k :: i <= k < j ==> IsDigit(s[k]) || (k == i && s[k] == '.'))
    && (forall k :: j <= k < |s| ==>
          || IsDigit(s[k])
          || (k == j && IsExpMarker(s[k]))
          || (k == j + 1 && IsSign(s[k]) && IsExpMarker(s[j])))
  }

  /** The characters of the integer group: digits, and a sign only in front. */
  lemma IntGroupChars(a: string)
    requires IntGroup(a)
    ensures forall k :: 0 <= k < |a| ==> IsDigit(a[k]) || (k == 0 && IsSign(a[k]))
  {
    forall k | 0 < k < |a| ensures IsDigit(a[k]) {
      assert a[k] == a[1..][k - 1];
    }
  }

  /** The characters of the fraction group: a `.` in front, then digits. */
  lemma FracGroupChars(b: string)
    requires FracGroup(b)
    ensures forall k :: 0 <= k < |b| ==> IsDigit(b[k]) || (k == 0 && b[k] == '.')
  {
    forall k | 0 < k < |b| ensures IsDigit(b[k]) {
      assert b[k] == b[1..][k - 1];
    }
  }

  /** The characters of the exponent group: a marker in front, a sign only right after it, then digits. */
  lemma ExpGroupChars(c: string)
    requires ExpGroup(c)
    ensures forall k :: 0 <= k < |c| ==>
      || IsDigit(c[k])
      || (k == 0 && IsExpMarker(c[k]))
      || (k == 1 && IsSign(c[k]) && IsExpMarker(c[0]))
  {
    if c != [] {
      IntGroupChars(c[1..]);
      forall k | 0 < k < |c|
        ensures IsDigit(c[k]) || (k == 1 && IsSign(c[k]))
      {
        assert c[k] == c[1..][k - 1];
      }
    }
  }

  /** `s[..i]` is the integer group, `s[i..j]` the fraction group and `s[j..]` the exponent group. */
  ghost predicate FloatSplitAt(s: string, i: nat, j: nat) {
    i <= j <= |s| && IntGroup(s[..i]) && FracGroup(s[i..j]) && ExpGroup(s[j..])
  }

  /** Every string of the Float language splits into the integer, fraction and exponent groups. */
  lemma FloatSplit(s: string)
    requires FloatLang(s)
    ensures exists i: nat, j: nat :: FloatSplitAt(s, i, j)
  {
    var i :| FloatAt(s, i);
    var t := s[i..];
    var j :| FracExpAt(t, j);
    assert s[i..i + j] == t[..j] && s[i + j..] == t[j..];
    assert FloatSplitAt(s, i, i + j);
  }

  /** The characters each group of a split may hold, position by position. */
  lemma {:induction false} SplitLayout(s: string, i: nat, j: nat)
    requires FloatSplitAt(s, i, j)
    ensures FloatLayoutAt(s, i, j)
  {
    var a, b, c := s[..i], s[i..j], s[j..];
    IntGroupChars(a);
    FracGroupChars(b);
    ExpGroupChars(c);
    forall k | 0 <= k < i
      ensures IsDigit(s[k]) || (k == 0 && IsSign(s[k]))
    {
      assert s[k] == a[k];
    }
    forall k | i <= k < j
      ensures IsDigit(s[k]) || (k == i && s[k] == '.')
    {
      assert s[k] == b[k - i];
    }
    forall k | j <= k < |s|
      ensures || IsDigit(s[k])
              || (k == j && IsExpMarker(s[k]))
              || (k == j + 1 && IsSign(s[k]) && IsExpMarker(s[j]))
    {
      assert s[k] == c[k - j];
      assert k == j + 1 ==> s[j] == c[0];
    }
  }

  /**
    Every string of the Float language splits into the three groups, and the
    positions of each group hold the characters `FloatLayoutAt` describes.
   */
  lemma FloatLayout(s: string)
    requires FloatLang(s)
    ensures exists i: nat, j: nat :: FloatSplitAt(s, i, j) && FloatLayoutAt(s, i, j)
  {
    FloatSplit(s);
    var i: nat, j: nat :| FloatSplitAt(s, i, j);
    SplitLayout(s, i, j);
  }

  // ---------------------------------------------------------------------------
  // DateExp
  // ---------------------------------------------------------------------------

  /** `\d{4}-\d{2}-\d{2}` matched by exactly the characters of `w`. */
  predicate DateShaped(w: string) {
    && |w| == 10
    && IsDigit(w[0]) && IsDigit(w[1]) && IsDigit(w[2]) && IsDigit(w[3])
    && w[4] == '-'
    && IsDigit(w[5]) && IsDigit(w[6])
    && w[7] == '-'
    && IsDigit(w[8]) && IsDigit(w[9])
  }

  /**
    The strings containing a match of `DateExp`. The pattern is not anchored:
    some ten consecutive characters of `s` are date-shaped.
   */
  ghost predicate DateLang(s: string)
    ensures DateLang(s) ==> |s| >= 10
  {
    exists i :: 0 <= i && DateAt(s, i)
  }

  /** The ten characters of `s` from position `i` on are date-shaped. */
  predicate DateAt(s: string, i: nat) {
    i + 10 <= |s| && DateShaped(s[i..i + 10])
  }

  /** Tries the pattern at each start position, from the left. */
  function SearchDate(s: string): bool
    decreases |s|
  {
    if |s| < 10 then false
    else DateAt(s, 0) || SearchDate(s[1..])
  }

  /** `rxDate.MatchString(s)` */
  function MatchDate(s: string): (r: bool)
    ensures r <==> DateLang(s)
  {
    SearchDateFinds(s);
    SearchDate(s)
  }

  /** Dropping the first character shifts every window one position to the left. */
  lemma WindowShift(s: string, i: nat)
    requires 1 <= i && i + 10 <= |s|
    ensures s[1..][i - 1..i + 9] == s[i..i + 10]
  {
    var w := s[1..][i - 1..i + 9];
    forall k | 0 <= k < 10 ensures w[k] == s[i + k] {
    }
  }

  /** The search succeeds exactly when some position starts a date-shaped window. */
  lemma {:induction false} SearchDateFinds(s: string)
    ensures SearchDate(s) <==> DateLang(s)
  {
    if |s| >= 10 {
      SearchDateFinds(s[1..]);
      if DateLang(s[1..]) {
        var i :| 0 <= i && DateAt(s[1..], i);
        WindowShift(s, i + 1);
        assert DateAt(s, i + 1);
      }
      if DateLang(s) {
        var i :| 0 <= i && DateAt(s, i);
        if i > 0 {
          WindowShift(s, i);
          assert DateAt(s[1..], i - 1);
        }
      }
    }
  }
}
