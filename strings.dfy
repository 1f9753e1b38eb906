/**
 * Character-level string tests that the Ruby code obtains from regular
 * expressions: a literal prefix, a literal substring, a literal at the start
 * of a line, a run of decimal digits; and the decimal rendering of a number
 * (Ruby's `Integer#to_s`).
 */
module Strings {

  predicate IsPrefix(p: string, s: string)
  {
    |p| <= |s| && s[..|p|] == p
  }

  /** `w` occurs somewhere in `s` (the meaning of `s[/w/]` being non-nil for a literal pattern). */
  ghost predicate OccursIn(w: string, s: string)
  {
    exists i :: 0 <= i <= |s| && IsPrefix(w, s[i..])
  }

  /** Substring search by trying every starting offset from the left. */
  function Contains(s: string, w: string): bool
    decreases |s|
  {
    IsPrefix(w, s) || (|s| > 0 && Contains(s[1..], w))
  }

  lemma {:induction false} ContainsIffOccurs(s: string, w: string)
    ensures Contains(s, w) <==> OccursIn(w, s)
    decreases |s|
  {
    if |s| == 0 {
      if OccursIn(w, s) {
        var i :| 0 <= i <= |s| && IsPrefix(w, s[i..]);
        assert s[i..] == s;
      }
    } else {
      ContainsIffOccurs(s[1..], w);
      if OccursIn(w, s[1..]) {
        var i :| 0 <= i <= |s[1..]| && IsPrefix(w, s[1..][i..]);
        assert s[1..][i..] == s[i + 1..];
      }
      if OccursIn(w, s) && !IsPrefix(w, s) {
        var i :| 0 <= i <= |s| && IsPrefix(w, s[i..]);
        assert i != 0;
        assert s[1..][i - 1..] == s[i..];
      }
      assert IsPrefix(w, s) ==> IsPrefix(w, s[0..]);
    }
  }

  /**
   * Where a Ruby `^` anchor matches: at the start of the string, or just after
   * a newline that is not the last character.
   */
  ghost predicate AtLineStart(s: string, i: int)
  {
    i == 0 || (0 < i < |s| && s[i - 1] == '\n')
  }

  /** The literal `w` matches the pattern `^w` somewhere in `s`. */
  ghost predicate BeginsSomeLine(s: string, w: string)
  {
    exists i :: 0 <= i <= |s| && AtLineStart(s, i) && IsPrefix(w, s[i..])
  }

  /** Scans `s` left to right; `atStart` says whether the scan stands at a line start. */
  function ScanLines(s: string, w: string, atStart: bool): bool
    decreases |s|
  {
    (atStart && IsPrefix(w, s)) || (|s| > 0 && ScanLines(s[1..], w, s[0] == '\n'))
  }

  /** Whether `s` matches the regular expression `^w` (with Ruby's line-start `^`). */
  function LineBeginsWith(s: string, w: string): bool
  {
    ScanLines(s, w, true)
  }

  lemma {:induction false} ScanLinesIff(s: string, w: string, atStart: bool)
    requires |w| > 0
    ensures ScanLines(s, w, atStart) <==>
              (atStart && IsPrefix(w, s)) ||
              exists i :: 1 <= i < |s| && s[i - 1] == '\n' && IsPrefix(w, s[i..])
    decreases |s|
  {
    if |s| > 0 {
      var t := s[1..];
      ScanLinesIff(t, w, s[0] == '\n');
      if ScanLines(t, w, s[0] == '\n') {
        if s[0] == '\n' && IsPrefix(w, t) {
          assert 1 < |s| && s[1..] == t;
        } else {
          var j :| 1 <= j < |t| && t[j - 1] == '\n' && IsPrefix(w, t[j..]);
          assert t[j..] == s[j + 1..];
        }
      }
      if exists i :: 1 <= i < |s| && s[i - 1] == '\n' && IsPrefix(w, s[i..]) {
        var i :| 1 <= i < |s| && s[i - 1] == '\n' && IsPrefix(w, s[i..]);
        if i == 1 {
          assert s[1..] == t;
        } else {
          assert t[i - 1..] == s[i..];
          assert 1 <= i - 1 < |t| && t[i - 2] == '\n';
        }
      }
    }
  }

  lemma LineBeginsWithIff(s: string, w: string)
    requires |w| > 0
    ensures LineBeginsWith(s, w) <==> BeginsSomeLine(s, w)
  {
    ScanLinesIff(s, w, true);
    if IsPrefix(w, s) {
      assert s[0..] == s;
    }
    if BeginsSomeLine(s, w) {
      var i :| 0 <= i <= |s| && AtLineStart(s, i) && IsPrefix(w, s[i..]);
      if i == 0 {
        assert s[0..] == s;
      }
    }
  }

  predicate IsDigit(c: char)
  {
    '0' <= c <= '9'
  }

  predicate AllDigits(s: string)
  {
    forall i :: 0 <= i < |s| ==> IsDigit(s[i])
  }

  /** The longest prefix of `s` made of digits: what a greedy `\d+` (or `\d*`) consumes. */
  function DigitRun(s: string): (d: string)
    ensures IsPrefix(d, s) && AllDigits(d)
    ensures |d| == |s| || !IsDigit(s[|d|])
    decreases |s|
  {
    if s != [] && IsDigit(s[0]) then
      var rest := DigitRun(s[1..]);
      assert s[1..][..|rest|] == s[1..|rest| + 1];
      [s[0]] + rest
    else
      []
  }

  /** A digit prefix that is followed by a non-digit (or the end) is the longest one. */
  lemma DigitRunUnique(s: string, d: string)
    requires IsPrefix(d, s) && AllDigits(d)
    requires |d| == |s| || !IsDigit(s[|d|])
    ensures DigitRun(s) == d
  {
  }

  function DigitChar(n: nat): (c: char)
    requires n < 10
    ensures IsDigit(c)
  {
    "0123456789"[n]
  }

  function DigitValue(c: char): (n: nat)
    requires IsDigit(c)
    ensures n < 10
  {
    (c as int) - ('0' as int)
  }

  /** Decimal rendering without leading zeros (Ruby's `Integer#to_s` on a non-negative integer). */
  function NatToString(n: nat): (r: string)
    ensures |r| > 0 && AllDigits(r)
    ensures r[0] == '0' ==> n == 0
    decreases n
  {
    if n < 10 then [DigitChar(n)] else NatToString(n / 10) + [DigitChar(n % 10)]
  }

  /** The number a digit string denotes. */
  function ParseDigits(s: string): nat
    requires AllDigits(s)
    decreases |s|
  {
    if s == [] then 0 else 10 * ParseDigits(s[..|s| - 1]) + DigitValue(s[|s| - 1])
  }

  lemma {:induction false} ParseNatToString(n: nat)
    ensures ParseDigits(NatToString(n)) == n
    decreases n
  {
    var r := NatToString(n);
    if n < 10 {
      assert r[..0] == [];
    } else {
      ParseNatToString(n / 10);
      assert r[..|r| - 1] == NatToString(n / 10);
    }
  }
}
