/**
 * The Python string operations the protocol is built from: `str.split` on a
 * one-character separator, `sep.join(...)`, `int(...)` on decimal text,
 * `str(...)` of an int, and `in` between two strings (a substring test).
 */
module Strings {
  import opened Wrappers

  /** `s.split(sep)`: the sep-free pieces of `s`; there is always at least one. */
  function Split(s: string, sep: char): (parts: seq<string>)
    ensures |parts| >= 1
    ensures forall i :: 0 <= i < |parts| ==> sep !in parts[i]
    ensures |parts| == 1 <==> sep !in s
    decreases |s|
  {
    if |s| == 0 then [""]
    else
      var rest := Split(s[1..], sep);
      if s[0] == sep then [""] + rest
      else [[s[0]] + rest[0]] + rest[1..]
  }

  /** `sep.join(parts)`. */
  function Join(parts: seq<string>, sep: char): string
    decreases |parts|
  {
    if |parts| == 0 then ""
    else if |parts| == 1 then parts[0]
    else parts[0] + [sep] + Join(parts[1..], sep)
  }

  /** Joining the pieces of a split gives the original text back. */
  lemma {:induction false} JoinSplit(s: string, sep: char)
    ensures Join(Split(s, sep), sep) == s
    decreases |s|
  {
    if |s| > 0 {
      var rest := Split(s[1..], sep);
      JoinSplit(s[1..], sep);
      if s[0] == sep {
        assert Split(s, sep) == [""] + rest;
        assert ([""] + rest)[1..] == rest;
      } else {
        var parts := [[s[0]] + rest[0]] + rest[1..];
        assert Split(s, sep) == parts;
        if |rest| == 1 {
          assert Join(parts, sep) == [s[0]] + rest[0];
        } else {
          assert parts[1..] == rest[1..];
          assert Join(rest, sep) == rest[0] + [sep] + Join(rest[1..], sep);
          assert Join(parts, sep) == [s[0]] + rest[0] + [sep] + Join(rest[1..], sep);
        }
        assert [s[0]] + s[1..] == s;
      }
    }
  }

  /** Text without the separator splits into itself alone. */
  lemma {:induction false} SplitNoSeparator(a: string, sep: char)
    requires sep !in a
    ensures Split(a, sep) == [a]
    decreases |a|
  {
    if |a| > 0 {
      assert sep !in a[1..];
      SplitNoSeparator(a[1..], sep);
      assert [a[0]] + a[1..] == a;
    }
  }

  /** A separator-free prefix followed by the separator becomes the first piece. */
  lemma {:induction false} SplitAtSeparator(a: string, b: string, sep: char)
    requires sep !in a
    ensures Split(a + [sep] + b, sep) == [a] + Split(b, sep)
    decreases |a|
  {
    var s := a + [sep] + b;
    if |a| == 0 {
      assert s == [sep] + b;
      assert s[1..] == b;
    } else {
      var t := a[1..] + [sep] + b;
      assert s[0] == a[0] && s[1..] == t;
      assert sep !in a[1..];
      SplitAtSeparator(a[1..], b, sep);
      var rest := Split(t, sep);
      assert rest[0] == a[1..] && rest[1..] == Split(b, sep);
      assert Split(s, sep) == [[a[0]] + rest[0]] + rest[1..];
      assert [a[0]] + a[1..] == a;
    }
  }

  /** Splitting a join of separator-free pieces gives the pieces back. */
  lemma {:induction false} SplitJoin(parts: seq<string>, sep: char)
    requires |parts| >= 1
    requires forall i :: 0 <= i < |parts| ==> sep !in parts[i]
    ensures Split(Join(parts, sep), sep) == parts
    decreases |parts|
  {
    if |parts| == 1 {
      SplitNoSeparator(parts[0], sep);
    } else {
      SplitJoin(parts[1..], sep);
      SplitAtSeparator(parts[0], Join(parts[1..], sep), sep);
      assert [parts[0]] + parts[1..] == parts;
    }
  }

  /** No piece of a join holds a character that neither the pieces nor the separator hold. */
  lemma JoinFree(parts: seq<string>, sep: char, c: char)
    requires c != sep && forall i :: 0 <= i < |parts| ==> c !in parts[i]
    ensures c !in Join(parts, sep)
    decreases |parts|
  {
    if |parts| > 1 {
      JoinFree(parts[1..], sep, c);
    }
  }

  /** The first piece of a split is the text before the first separator. */
  lemma FirstPiece(s: string, sep: char)
    ensures var parts := Split(s, sep);
      |parts[0]| <= |s| && s[..|parts[0]|] == parts[0] &&
      (|parts| > 1 ==> |parts[0]| < |s| && s[|parts[0]|] == sep &&
                       s[|parts[0]| + 1..] == Join(parts[1..], sep))
  {
    var parts := Split(s, sep);
    JoinSplit(s, sep);
    if |parts| > 1 {
      assert s == parts[0] + [sep] + Join(parts[1..], sep);
    } else {
      assert s == parts[0];
    }
  }

  /** What follows the first separator splits into the pieces after the first. */
  lemma SplitTail(s: string, sep: char)
    requires |Split(s, sep)| > 1
    ensures var parts := Split(s, sep);
      |parts[0]| < |s| && s[..|parts[0]| + 1] == parts[0] + [sep] &&
      Split(s[|parts[0]| + 1..], sep) == parts[1..]
  {
    var parts := Split(s, sep);
    FirstPiece(s, sep);
    var k := |parts[0]|;
    assert s[..k + 1] == s[..k] + [s[k]];
    var tail := parts[1..];
    forall i | 0 <= i < |tail| ensures sep !in tail[i] {
      assert tail[i] == parts[i + 1];
    }
    SplitJoin(tail, sep);
  }

  /**
   * The second piece of a split is the text between the first and the second
   * separator (or the end of the text).
   */
  lemma SecondPiece(s: string, sep: char)
    requires |Split(s, sep)| > 1
    ensures var parts := Split(s, sep);
      var n := |parts[0]| + 1 + |parts[1]|;
      n <= |s| && s[..n] == parts[0] + [sep] + parts[1] && (n == |s| || s[n] == sep)
  {
    var parts := Split(s, sep);
    var k := |parts[0]| + 1;
    SplitTail(s, sep);
    var rest := s[k..];
    var pieces := Split(rest, sep);
    assert pieces == parts[1..] && pieces[0] == parts[1];
    FirstPiece(rest, sep);
    var m := |parts[1]|;
    if |pieces| == 1 {
      JoinSplit(rest, sep);
      assert rest == parts[1];
    } else {
      assert rest[m] == sep;
    }
    assert s[..k + m] == s[..k] + rest[..m];
  }

  /** Python's `a in b` for two strings: `a` occurs as a contiguous piece of `b`. */
  predicate IsSubstring(a: string, b: string)
    decreases |b|
  {
    (|a| <= |b| && b[..|a|] == a) || (|b| > 0 && IsSubstring(a, b[1..]))
  }

  /** `a` occurs in `b` starting at position `i`. */
  predicate OccursAt(a: string, b: string, i: nat) {
    i + |a| <= |b| && b[i..i + |a|] == a
  }

  /** A contiguous occurrence of `a` in `b` passes the substring test. */
  lemma {:induction false} IsSubstringAt(a: string, b: string, i: nat)
    requires OccursAt(a, b, i)
    ensures IsSubstring(a, b)
    decreases i
  {
    if i > 0 {
      assert b[1..][i - 1..i - 1 + |a|] == a;
      IsSubstringAt(a, b[1..], i - 1);
    }
  }

  /** The substring test passes only where `a` occurs at some position of `b`. */
  lemma {:induction false} SubstringHasPosition(a: string, b: string) returns (i: nat)
    requires IsSubstring(a, b)
    ensures OccursAt(a, b, i)
    decreases |b|
  {
    if |a| <= |b| && b[..|a|] == a {
      i := 0;
    } else {
      var j := SubstringHasPosition(a, b[1..]);
      i := j + 1;
      assert b[i..i + |a|] == b[1..][j..j + |a|];
    }
  }

  /** Python's `in` between strings holds exactly when `a` occurs at some position of `b`. */
  lemma SubstringIff(a: string, b: string)
    ensures IsSubstring(a, b) <==> exists i: nat :: OccursAt(a, b, i)
  {
    if IsSubstring(a, b) {
      var i := SubstringHasPosition(a, b);
    }
    forall i: nat | OccursAt(a, b, i)
      ensures IsSubstring(a, b)
    {
      IsSubstringAt(a, b, i);
    }
  }

  predicate IsDigit(c: char) { '0' <= c <= '9' }

  function DigitChar(d: nat): (c: char)
    requires d < 10
    ensures IsDigit(c) && c as int - '0' as int == d
  {
    ('0' as int + d) as char
  }

  /** `str(n)` for a natural number: its shortest decimal form. */
  function FormatNat(n: nat): (s: string)
    ensures |s| >= 1
    ensures forall i :: 0 <= i < |s| ==> IsDigit(s[i])
    ensures |s| > 1 ==> s[0] != '0'
  {
    if n < 10 then [DigitChar(n)] else FormatNat(n / 10) + [DigitChar(n % 10)]
  }

  /**
   * `str(i)`: a minus sign for negative values, then the decimal digits;
   * `int` reads it back as `i`.
   */
  function FormatInt(i: int): (s: string)
    ensures |s| >= 1
    ensures ParseInt(s) == Some(i)
    ensures s[0] == '-' <==> i < 0
  {
    if i < 0 then
      ParseFormatNegative(-i);
      "-" + FormatNat(-i)
    else
      ParseFormatNat(i);
      FormatNat(i)
  }

  /** The value of a run of decimal digits. */
  function DigitsValue(s: string): nat
    requires forall i :: 0 <= i < |s| ==> IsDigit(s[i])
    decreases |s|
  {
    if |s| == 0 then 0
    else
      assert IsDigit(s[|s| - 1]);
      DigitsValue(s[..|s| - 1]) * 10 + (s[|s| - 1] as int - '0' as int)
  }

  predicate AllDigits(s: string) {
    |s| >= 1 && forall i :: 0 <= i < |s| ==> IsDigit(s[i])
  }

  /**
   * `int(s)` on decimal text: an optional sign, then at least one digit;
   * anything else is the ValueError that Python raises.
   */
  function ParseInt(s: string): (r: Option<int>)
    ensures r.Some? <==> AllDigits(s) || (|s| >= 2 && s[0] in "+-" && AllDigits(s[1..]))
    ensures r.Some? && AllDigits(s) ==> r.value >= 0
  {
    if AllDigits(s) then Some(DigitsValue(s) as int)
    else if |s| >= 2 && s[0] == '-' && AllDigits(s[1..]) then Some(-(DigitsValue(s[1..]) as int))
    else if |s| >= 2 && s[0] == '+' && AllDigits(s[1..]) then Some(DigitsValue(s[1..]))
    else None
  }

  lemma {:induction false} DigitsOfFormatNat(n: nat)
    ensures DigitsValue(FormatNat(n)) == n
  {
    if n >= 10 {
      var s := FormatNat(n);
      DigitsOfFormatNat(n / 10);
      assert s[..|s| - 1] == FormatNat(n / 10);
    }
  }

  /** The digits of a natural number read back as that number. */
  lemma ParseFormatNat(n: nat)
    ensures ParseInt(FormatNat(n)) == Some(n)
  {
    DigitsOfFormatNat(n);
    assert AllDigits(FormatNat(n));
  }

  /** A minus sign and the digits of a positive number read back as its negation. */
  lemma ParseFormatNegative(n: nat)
    requires n > 0
    ensures ParseInt("-" + FormatNat(n)) == Some(-(n as int))
  {
    var s := "-" + FormatNat(n);
    assert s[1..] == FormatNat(n);
    assert !AllDigits(s) by { assert !IsDigit(s[0]); }
    assert |s| >= 2 && s[0] == '-' && AllDigits(s[1..]);
    DigitsOfFormatNat(n);
  }

  /** The decimal form of an int never holds a protocol delimiter. */
  lemma FormatIntHasNo(i: int, c: char)
    requires !IsDigit(c) && c != '-'
    ensures c !in FormatInt(i)
  {
    var s := FormatInt(i);
    if i < 0 {
      assert s == "-" + FormatNat(-i);
      forall k | 0 <= k < |s| ensures s[k] != c {
        if k > 0 { assert s[k] == FormatNat(-i)[k - 1]; }
      }
    }
  }
}
