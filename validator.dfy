/**
  The validation rules of jgovalidator: boolean checks that the validation
  engine calls on the string form of a tagged field. Every rule is total and
  has no side effect; a field fails a rule by the rule returning false.

  The engine hands each rule a field handle from which the rule reads only the
  field's string; here the rules take that string directly.
 */
module Validator {
  import opened Chars
  import opened Patterns

  /** The layout of Go's `time.RFC3339`. */
  const RFC3339: string := "2006-01-02T15:04:05Z07:00"

  /** The layout for an RFC 3339 timestamp without its zone offset. */
  const RF3339WithoutZone: string := "2006-01-02T15:04:05"

  /**
    `parses(layout, value)` holds when Go's `time.Parse(layout, value)` returns
    no error. The parser belongs to Go's standard library and is not part of
    this model, so every time-based rule takes it as a parameter.
   */
  type TimeParser = (string, string) -> bool

  /**
    The two layouts differ only in the zone: the layout without a zone is the
    `time.RFC3339` layout with its trailing `Z07:00` offset removed.
   */
  lemma TimeLayouts()
    ensures RFC3339 == RF3339WithoutZone + "Z07:00"
    ensures |RF3339WithoutZone| == 19
  {
  }

  /** IsNull: a string is null when it is empty. */
  function IsNull(str: string): (r: bool)
    ensures r <==> str == ""
  {
    |str| == 0
  }

  /**
    The `notNull` rule. The engine only reaches it for a nullable SQL value
    that is present, so it accepts whatever it is given.
   */
  function NotNull<T>(field: T): (r: bool)
    ensures r
  {
    true
  }

  /** The `int` rule: an empty string fails, anything else must match `Int`. */
  function IsInt(s: string): (r: bool)
    ensures r <==> IntLang(s)
    ensures r ==> s != ""
  {
    if IsNull(s) then false else MatchInt(s)
  }

  /** The `float` rule: an empty string fails, anything else must match `Float`. */
  function IsFloat(s: string): (r: bool)
    ensures r <==> s != "" && FloatLang(s)
  {
    s != "" && MatchFloat(s)
  }

  /** The `date` rule: an empty string fails, anything else must contain a match of `DateExp`. */
  function IsDate(s: string): (r: bool)
    ensures r <==> DateLang(s)
    ensures r ==> s != ""
  {
    if IsNull(s) then false else MatchDate(s)
  }

  /** IsTime: `str` parses under `format` without error. */
  function IsTime(str: string, format: string, parses: TimeParser): (r: bool)
    ensures r <==> parses(format, str)
  {
    parses(format, str)
  }

  /** The `rfc3339` rule. */
  function IsRFC3339(s: string, parses: TimeParser): (r: bool)
    ensures r <==> parses(RFC3339, s)
  {
    IsTime(s, RFC3339, parses)
  }

  /** The `rfc3339WithoutZone` rule. */
  function IsRFC3339WithoutZone(s: string, parses: TimeParser): (r: bool)
    ensures r <==> parses(RF3339WithoutZone, s)
  {
    IsTime(s, RF3339WithoutZone, parses)
  }

  /** The `datetime` rule: a timestamp with or without its zone. */
  function IsDatetime(s: string, parses: TimeParser): (r: bool)
    ensures r <==> IsRFC3339(s, parses) || IsRFC3339WithoutZone(s, parses)
  {
    IsTime(s, RFC3339, parses) || IsTime(s, RF3339WithoutZone, parses)
  }

  // ---------------------------------------------------------------------------
  // The empty string
  // ---------------------------------------------------------------------------

  /**
    The empty string is null and fails `int`, `float` and `date`. The Float
    pattern on its own matches the empty string (every group is optional), so
    for `float` it is the explicit emptiness test that rejects it.
   */
  lemma EmptyString()
    ensures IsNull("")
    ensures !IsInt("") && !IsFloat("") && !IsDate("")
    ensures MatchFloat("")
  {
    assert FracExpAt("", 0);
    assert FloatAt("", 0);
  }

  /**
    For `int` and `date` the emptiness test is redundant: neither pattern
    matches the empty string, so the rule is the pattern match alone.
   */
  lemma NullTestRedundant(s: string)
    ensures IsInt(s) == MatchInt(s)
    ensures IsDate(s) == MatchDate(s)
  {
  }

  // ---------------------------------------------------------------------------
  // int
  // ---------------------------------------------------------------------------

  lemma IntExamples()
    ensures IsInt("0") && IsInt("-0") && IsInt("+42") && IsInt("7") && IsInt("-42")
    ensures !IsInt("007") && !IsInt("+-1") && !IsInt("1a") && !IsInt("-") && !IsInt("")
  {
    assert "-0"[1..] == "0";
    assert "+42"[1..] == "42";
    assert "-42"[1..] == "42";
    assert AllDigits("42"[1..]);
    assert !AllDigits("1a"[1..]) by {
      assert "1a"[1..][0] == 'a';
    }
  }

  /** A zero can only be the whole digit run: no accepted integer has a leading zero. */
  lemma IntNoLeadingZero(s: string)
    requires IsInt(s)
    ensures s[0] == '0' ==> s == "0"
    ensures IsSign(s[0]) ==> |s| >= 2 && (s[1] == '0' ==> |s| == 2)
  {
  }

  /** An accepted integer is an optional sign followed by digits only. */
  lemma IntCharacters(s: string)
    requires IsInt(s)
    ensures forall k :: 0 <= k < |s| ==> IsDigit(s[k]) || (k == 0 && IsSign(s[k]))
  {
    if IsSign(s[0]) {
      forall k | 1 < k < |s| ensures IsDigit(s[k]) {
        assert s[k] == s[1..][1..][k - 2];
      }
    } else {
      forall k | 0 < k < |s| ensures IsDigit(s[k]) {
        assert s[k] == s[1..][k - 1];
      }
    }
  }

  /** Every string the `int` rule accepts, the `float` rule accepts too. */
  lemma IntIsFloat(s: string)
    requires IsInt(s)
    ensures IsFloat(s)
  {
    IntCharacters(s);
    assert SignedDigits(s) by {
      if IsSign(s[0]) {
        forall k | 0 <= k < |s| - 1 ensures IsDigit(s[1..][k]) {
          assert s[1..][k] == s[k + 1];
        }
      }
    }
    assert FracExpAt(s[|s|..], 0);
    assert s[..|s|] == s;
    assert FloatAt(s, |s|);
  }

  // ---------------------------------------------------------------------------
  // float
  // ---------------------------------------------------------------------------

  /** Ordinary decimal and scientific forms pass. */
  lemma FloatAcceptsDecimal()
    ensures IsFloat("3.14") && IsFloat("5.")
  {
    ScanFloatStart("3.14");
    assert "3.14"[1..] == ".14" && ".14"[1..] == "14" && "14"[1..] == "4" && "4"[1..] == "";
    ScanFloatStart("5.");
    assert "5."[1..] == "." && "."[1..] == "";
  }

  lemma FloatAcceptsScientific()
    ensures IsFloat("-0.5e10")
  {
    ScanFloatStart("-0.5e10");
    assert "-0.5e10"[1..] == "0.5e10" && "0.5e10"[1..] == ".5e10" && ".5e10"[1..] == "5e10";
    assert "5e10"[1..] == "e10" && "e10"[1..] == "10" && "10"[1..] == "0" && "0"[1..] == "";
  }

  /**
    The pattern taken literally: every group is optional, so a lone `.` and an
    exponent without a mantissa pass too.
   */
  lemma FloatAcceptsDegenerate()
    ensures IsFloat(".") && IsFloat("e5")
  {
    ScanFloatStart(".");
    assert "."[1..] == "";
    ScanFloatStart("e5");
    assert "e5"[1..] == "5" && "5"[1..] == "";
  }

  /** A sign needs a digit right after it. */
  lemma FloatRejectsBareSign()
    ensures !IsFloat("-.5") && !IsFloat("+")
  {
    ScanFloatStart("-.5");
    assert "-.5"[1..] == ".5";
    ScanFloatReject("5");
    ScanFloatStart("+");
    assert "+"[1..] == "";
  }

  /** Letters other than `e`/`E` never pass, and neither does the empty string. */
  lemma FloatRejectsOther()
    ensures !IsFloat("abc") && !IsFloat("")
  {
    ScanFloatStart("abc");
    assert "abc"[1..] == "bc";
    ScanFloatReject("bc");
  }

  /**
    What an accepted float is made of: only the characters `0-9 + - . e E`,
    at most one `.`, at most one exponent marker, and a sign only at the start
    or right after the exponent marker.
   */
  lemma FloatCharacters(s: string)
    requires IsFloat(s)
    ensures forall k :: 0 <= k < |s| ==>
      IsDigit(s[k]) || IsSign(s[k]) || s[k] == '.' || IsExpMarker(s[k])
    ensures forall k1, k2 :: 0 <= k1 < |s| && 0 <= k2 < |s| && s[k1] == '.' && s[k2] == '.' ==> k1 == k2
    ensures forall k1, k2 :: 0 <= k1 < |s| && 0 <= k2 < |s| && IsExpMarker(s[k1]) && IsExpMarker(s[k2]) ==> k1 == k2
    ensures forall k :: 0 <= k < |s| && IsSign(s[k]) ==> k == 0 || IsExpMarker(s[k - 1])
  {
    FloatLayout(s);
    var i: nat, j: nat :| FloatSplitAt(s, i, j) && FloatLayoutAt(s, i, j);
    forall k | 0 <= k < |s|
      ensures IsDigit(s[k]) || IsSign(s[k]) || s[k] == '.' || IsExpMarker(s[k])
      ensures s[k] == '.' ==> k == i
      ensures IsExpMarker(s[k]) ==> k == j
      ensures IsSign(s[k]) ==> k == 0 || IsExpMarker(s[k - 1])
    {
      if k < i {
      } else if k < j {
      } else {
      }
    }
  }

  // ---------------------------------------------------------------------------
  // date
  // ---------------------------------------------------------------------------

  lemma DateExamples()
    ensures IsDate("2024-01-15") && IsDate("xx2024-01-15xx")
    ensures !IsDate("not-a-date") && !IsDate("")
  {
    assert "2024-01-15"[0..10] == "2024-01-15";
    assert DateAt("2024-01-15", 0);
    assert "xx2024-01-15xx"[2..12] == "2024-01-15";
    assert DateAt("xx2024-01-15xx", 2);
    assert "not-a-date"[0..10] == "not-a-date";
  }

  /** No string shorter than a date contains one. */
  lemma DateTooShort(s: string)
    requires |s| < 10
    ensures !IsDate(s)
  {
  }

  /** The date search is not anchored, so surrounding a match with more text keeps it a match. */
  lemma DateExtension(p: string, s: string, q: string)
    requires IsDate(s)
    ensures IsDate(p + s + q)
  {
    var i :| 0 <= i && DateAt(s, i);
    var t := p + s + q;
    assert t[|p| + i..|p| + i + 10] == s[i..i + 10];
    assert DateAt(t, |p| + i);
  }
}
