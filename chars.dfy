/**
  Character classes used by the validation patterns, and the scanner that the
  recognizers of the patterns are built on.

  Go's regexp package (RE2 syntax) gives `\d` and `[0-9]` the same meaning:
  the ASCII digits `0` to `9` and nothing else.
 */
module Chars {

  /** `\d`, `[0-9]` */
  predicate IsDigit(c: char) {
    '0' <= c <= '9'
  }

  /** `[1-9]` */
  predicate IsNonZeroDigit(c: char) {
    '1' <= c <= '9'
  }

  /** `[-+]` */
  predicate IsSign(c: char) {
    c == '+' || c == '-'
  }

  /** `[eE]` */
  predicate IsExpMarker(c: char) {
    c == 'e' || c == 'E'
  }

  /** `[0-9]*`: every character is a digit (the empty string included). */
  predicate AllDigits(s: string) {
    forall k :: 0 <= k < |s| ==> IsDigit(s[k])
  }

  /** `[0-9]+`: at least one character, all of them digits. */
  predicate Digits(s: string) {
    |s| > 0 && AllDigits(s)
  }

  /** A run of digits is a digit followed by a run of digits. */
  lemma AllDigitsCons(s: string)
    requires |s| > 0
    ensures AllDigits(s) <==> IsDigit(s[0]) && AllDigits(s[1..])
  {
    if IsDigit(s[0]) && AllDigits(s[1..]) {
      forall k | 0 <= k < |s| ensures IsDigit(s[k]) {
        if k > 0 {
          assert s[k] == s[1..][k - 1];
        }
      }
    }
  }

  /**
    Runs a finite automaton over `s` from state `q`, one character at a time
    from left to right, and reports whether the state reached at the end of the
    input is accepting. A regular expression anchored at both ends (`^...$`)
    matches exactly the strings its automaton accepts.
   */
  function Scan<Q>(step: (Q, char) -> Q, accepting: Q -> bool, q: Q, s: string): bool
    decreases |s|
  {
    if s == [] then accepting(q) else Scan(step, accepting, step(q, s[0]), s[1..])
  }
}
