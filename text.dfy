/** The string primitives the pages rely on (`trim`, `toLowerCase`,
    `includes`, `join`, `split`, `padStart`, `replace`, `String(n)`),
    written out so that what they promise can be proved. */
module Text {

  /** JavaScript's WhiteSpace and LineTerminator characters, the set that
      `String.prototype.trim` removes. */
  predicate IsSpace(c: char) {
    c == ' ' || c == '\t' || c == '\n' || c == '\r' || c == '\U{000B}' || c == '\U{000C}'
    || c == '\U{00A0}' || c == '\U{1680}' || ('\U{2000}' <= c <= '\U{200A}')
    || c == '\U{2028}' || c == '\U{2029}' || c == '\U{202F}' || c == '\U{205F}'
    || c == '\U{3000}' || c == '\U{FEFF}'
  }

  predicate AllSpace(s: string) {
    forall i :: 0 <= i < |s| ==> IsSpace(s[i])
  }

  /** Drops the leading white space. */
  function TrimStart(s: string): (r: string)
    ensures |r| <= |s| && r == s[|s| - |r|..]
    ensures AllSpace(s[..|s| - |r|])
    ensures r == [] || !IsSpace(r[0])
  {
    if |s| > 0 && IsSpace(s[0]) then
      var t := TrimStart(s[1..]);
      assert s[..|s| - |t|] == [s[0]] + s[1..][..|s[1..]| - |t|];
      t
    else s
  }

  /** Drops the trailing white space. */
  function TrimEnd(s: string): (r: string)
    ensures |r| <= |s| && r == s[..|r|]
    ensures AllSpace(s[|r|..])
    ensures r == [] || !IsSpace(r[|r| - 1])
  {
    if |s| > 0 && IsSpace(s[|s| - 1]) then
      var t := TrimEnd(s[..|s| - 1]);
      assert s[|t|..] == s[..|s| - 1][|t|..] + [s[|s| - 1]];
      t
    else s
  }

  /** `s.trim()`: white space dropped at both ends, so that what is left
      neither starts nor ends with it. */
  function Trim(s: string): (r: string)
    ensures |r| <= |s|
    ensures r == [] || (!IsSpace(r[0]) && !IsSpace(r[|r| - 1]))
  {
    var a := TrimStart(s);
    var r := TrimEnd(a);
    assert r != [] ==> r[0] == a[0];
    r
  }

  /** What `trim()` keeps is a slice of the string, and what it drops is
      white space. */
  lemma TrimSlice(s: string) returns (i: nat, j: nat)
    ensures i <= j <= |s| && Trim(s) == s[i..j] && AllSpace(s[..i]) && AllSpace(s[j..])
  {
    var a := TrimStart(s);
    var r := TrimEnd(a);
    i := |s| - |a|;
    j := i + |r|;
    SliceOfSlice(s, i, |r|);
  }

  /** Every character `trim()` keeps comes from the string. */
  lemma TrimChars(s: string)
    ensures forall c :: c in Trim(s) ==> c in s
  {
    var i, j := TrimSlice(s);
    forall c | c in Trim(s) ensures c in s {
      var k :| 0 <= k < j - i && Trim(s)[k] == c;
      assert s[i + k] == c;
    }
  }

  /** A slice of a suffix is a slice of the whole. */
  lemma SubSlice(s: string, a: nat, c: nat, d: nat)
    requires a + d <= |s| && c <= d
    ensures s[a..][c..d] == s[a + c..a + d]
  {
  }

  lemma SliceOfSlice(s: string, i: nat, k: nat)
    requires i + k <= |s|
    ensures s[i..][..k] == s[i..i + k] && s[i..][k..] == s[i + k..]
  {
  }

  /** `trim()` leaves nothing exactly when the string is blank. */
  lemma TrimEmptyIffBlank(s: string)
    ensures Trim(s) == [] <==> AllSpace(s)
  {
    var r := Trim(s);
    var i, j := TrimSlice(s);
    if r == [] {
      assert |s[i..j]| == 0;
      forall k | 0 <= k < |s| ensures IsSpace(s[k]) {
        if k < i { assert s[k] == s[..i][k]; } else { assert s[k] == s[j..][k - j]; }
      }
    } else {
      assert s[i] == r[0];
    }
  }

  /** `toLowerCase()` of one character, for the Basic Latin and Latin-1
      letters (Spanish names use no others). */
  function LowerChar(c: char): (r: char)
    ensures ('A' <= c <= 'Z') ==> r as int == c as int + 32
    ensures !('A' <= c <= 'Z') && !('\U{00C0}' <= c <= '\U{00DE}') ==> r == c
    ensures !('A' <= r <= 'Z')
  {
    if 'A' <= c <= 'Z' then (c as int + 32) as char
    else if '\U{00C0}' <= c <= '\U{00DE}' && c != '\U{00D7}' then (c as int + 32) as char
    else c
  }

  function Lower(s: string): (r: string)
    ensures |r| == |s| && forall i :: 0 <= i < |r| ==> r[i] == LowerChar(s[i])
  {
    seq(|s|, i requires 0 <= i < |s| => LowerChar(s[i]))
  }

  predicate IsPrefix(p: string, s: string) {
    |p| <= |s| && s[..|p|] == p
  }

  /** `p` occurs in `s` starting at index `i`. */
  predicate OccursAt(s: string, p: string, i: int) {
    0 <= i && i + |p| <= |s| && s[i..i + |p|] == p
  }

  /** `s.includes(p)`: `p` occurs in `s` at some position. */
  function Contains(s: string, p: string): (r: bool)
    ensures r <==> exists i :: OccursAt(s, p, i)
  {
    if IsPrefix(p, s) then
      assert OccursAt(s, p, 0);
      true
    else if |s| == 0 then
      false
    else
      var r := Contains(s[1..], p);
      if r then
        var i :| OccursAt(s[1..], p, i);
        SubSlice(s, 1, i, i + |p|);
        assert OccursAt(s, p, i + 1);
        true
      else
        forall i | 0 <= i ensures !OccursAt(s, p, i) {
          if 1 <= i && i + |p| <= |s| {
            SubSlice(s, 1, i - 1, i - 1 + |p|);
            assert !OccursAt(s[1..], p, i - 1);
          }
        }
        false
  }

  /** `parts.join(sep)`. */
  function Join(parts: seq<string>, sep: string): string {
    if |parts| == 0 then ""
    else if |parts| == 1 then parts[0]
    else parts[0] + sep + Join(parts[1..], sep)
  }

  /** The joined text starts with the first part. */
  lemma JoinPrefix(parts: seq<string>, sep: string)
    ensures |parts| > 0 ==> IsPrefix(parts[0], Join(parts, sep))
  {
    if |parts| > 1 {
      var rest := sep + Join(parts[1..], sep);
      assert Join(parts, sep) == parts[0] + rest;
      assert (parts[0] + rest)[..|parts[0]|] == parts[0];
    }
  }

  /** `s.split(c)` for a one-character separator. */
  function Split(s: string, c: char): (r: seq<string>)
    ensures |r| >= 1
  {
    if |s| == 0 then [""]
    else if s[0] == c then [""] + Split(s[1..], c)
    else
      var rest := Split(s[1..], c);
      [[s[0]] + rest[0]] + rest[1..]
  }

  predicate Free(s: string, c: char) {
    forall i :: 0 <= i < |s| ==> s[i] != c
  }

  /** Splitting on a separator that occurs in no part gives the parts back. */
  lemma {:induction false} SplitFree(s: string, c: char, tail: string)
    requires Free(s, c)
    ensures Split(s + tail, c) == [s + Split(tail, c)[0]] + Split(tail, c)[1..]
  {
    if |s| > 0 {
      assert (s + tail)[1..] == s[1..] + tail;
      SplitFree(s[1..], c, tail);
      assert [s[0]] + (s[1..] + Split(tail, c)[0]) == s + Split(tail, c)[0];
    } else {
      assert s + tail == tail;
      var r := Split(tail, c);
      assert [r[0]] + r[1..] == r;
      assert s + r[0] == r[0];
    }
  }

  /** A text without the separator splits into itself alone. */
  lemma SplitWhole(s: string, c: char)
    requires Free(s, c)
    ensures Split(s, c) == [s]
  {
    SplitFree(s, c, "");
    assert s + "" == s;
  }

  lemma {:induction false} SplitJoin(parts: seq<string>, c: char)
    requires |parts| >= 1
    requires forall k :: 0 <= k < |parts| ==> Free(parts[k], c)
    ensures Split(Join(parts, [c]), c) == parts
  {
    if |parts| == 1 {
      SplitFree(parts[0], c, "");
      assert parts[0] + "" == parts[0];
    } else {
      var tail := [c] + Join(parts[1..], [c]);
      assert Join(parts, [c]) == parts[0] + tail;
      SplitFree(parts[0], c, tail);
      assert tail[1..] == Join(parts[1..], [c]);
      SplitJoin(parts[1..], c);
      assert Split(tail, c) == [""] + parts[1..];
      assert parts[0] + "" == parts[0];
      assert [parts[0]] + parts[1..] == parts;
    }
  }

  /** The pieces of every part split on `c`, part after part. */
  function SplitAll(parts: seq<string>, c: char): (r: seq<seq<char>>)
    ensures |r| >= |parts|
  {
    if |parts| == 0 then [] else Split(parts[0], c) + SplitAll(parts[1..], c)
  }

  /** A separator between two strings splits them apart. */
  lemma {:induction false} SplitAround(a: string, b: string, c: char)
    ensures Split(a + [c] + b, c) == Split(a, c) + Split(b, c)
  {
    var s := a + [c] + b;
    if |a| == 0 {
      assert s == [c] + b && s[1..] == b;
    } else {
      assert s[0] == a[0] && s[1..] == a[1..] + [c] + b;
      SplitAround(a[1..], b, c);
      if a[0] != c {
        SplitHead(a[0], Split(a[1..], c), Split(b, c));
      }
    }
  }

  /** A character joins the first piece of what follows it. */
  lemma SplitHead(x: char, r1: seq<string>, r2: seq<string>)
    requires |r1| >= 1
    ensures [[x] + (r1 + r2)[0]] + (r1 + r2)[1..] == ([[x] + r1[0]] + r1[1..]) + r2
  {
  }

  /** Splitting a joined string gives each part's pieces in order, whether
      or not the parts hold the separator themselves. */
  lemma {:induction false} SplitJoinAll(parts: seq<string>, c: char)
    requires |parts| >= 1
    ensures Split(Join(parts, [c]), c) == SplitAll(parts, c)
  {
    if |parts| == 1 {
      assert SplitAll(parts[1..], c) == [];
      assert Split(parts[0], c) + [] == Split(parts[0], c);
    } else {
      assert Join(parts, [c]) == parts[0] + [c] + Join(parts[1..], [c]);
      SplitAround(parts[0], Join(parts[1..], [c]), c);
      SplitJoinAll(parts[1..], c);
    }
  }

  /** `s.padStart(n, c)`. */
  function PadStart(s: string, n: nat, c: char): (r: string)
    ensures |s| >= n ==> r == s
    ensures |s| < n ==> |r| == n && r[n - |s|..] == s && forall i :: 0 <= i < n - |s| ==> r[i] == c
  {
    if |s| >= n then s else seq(n - |s|, _ => c) + s
  }

  /** `s.replace(pat, rep)` with a string pattern: only the first occurrence
      is replaced. */
  function ReplaceFirst(s: string, pat: string, rep: string): (r: string)
    requires |pat| > 0
    ensures IsPrefix(pat, s) ==> r == rep + s[|pat|..]
    ensures |s| < |pat| ==> r == s
  {
    if |s| < |pat| then s
    else if s[..|pat|] == pat then rep + s[|pat|..]
    else [s[0]] + ReplaceFirst(s[1..], pat, rep)
  }

  /** Replacing a prefix of the string removes exactly that prefix. */
  lemma ReplaceLeadingPrefix(pre: string, s: string)
    requires |pre| > 0
    ensures ReplaceFirst(pre + s, pre, "") == s
  {
    assert (pre + s)[..|pre|] == pre;
    assert (pre + s)[|pre|..] == s;
  }

  predicate IsDigit(c: char) {
    '0' <= c <= '9'
  }

  function Digit(d: nat): (c: char)
    requires d < 10
    ensures IsDigit(c)
  {
    ('0' as int + d) as char
  }

  function DigitValue(c: char): nat
    requires IsDigit(c)
  {
    c as int - '0' as int
  }

  /** The decimal numeral of `n`, most significant digit first. */
  function NatToString(n: nat): (r: string)
    ensures |r| >= 1 && forall i :: 0 <= i < |r| ==> IsDigit(r[i])
    ensures r[0] == '0' ==> n == 0 && |r| == 1
  {
    if n < 10 then [Digit(n)] else NatToString(n / 10) + [Digit(n % 10)]
  }

  /** `String(n)` for an integer. */
  function IntToString(n: int): string {
    if n < 0 then "-" + NatToString(-n) else NatToString(n)
  }

  /** The value of a numeral read left to right. */
  function DigitsValue(ds: string): nat
    requires forall i :: 0 <= i < |ds| ==> IsDigit(ds[i])
  {
    if |ds| == 0 then 0 else 10 * DigitsValue(ds[..|ds| - 1]) + DigitValue(ds[|ds| - 1])
  }

  lemma {:induction false} NatToStringValue(n: nat)
    ensures DigitsValue(NatToString(n)) == n
  {
    if n >= 10 {
      var s := NatToString(n);
      assert s[..|s| - 1] == NatToString(n / 10);
      NatToStringValue(n / 10);
    }
  }

  predicate AllDigits(s: string) {
    forall i :: 0 <= i < |s| ==> IsDigit(s[i])
  }

  /** Leading zeros do not change the value of a numeral. */
  lemma {:induction false} LeadingZeroValue(z: string, ds: string)
    requires AllDigits(ds) && forall i :: 0 <= i < |z| ==> z[i] == '0'
    ensures AllDigits(z + ds) && DigitsValue(z + ds) == DigitsValue(ds)
  {
    if |ds| == 0 {
      assert z + ds == z;
      ZerosValue(z);
    } else {
      assert (z + ds)[..|z + ds| - 1] == z + ds[..|ds| - 1];
      LeadingZeroValue(z, ds[..|ds| - 1]);
    }
  }

  lemma {:induction false} ZerosValue(z: string)
    requires forall i :: 0 <= i < |z| ==> z[i] == '0'
    ensures AllDigits(z) && DigitsValue(z) == 0
  {
    if |z| > 0 {
      ZerosValue(z[..|z| - 1]);
    }
  }

  /** Leading white space does not change what `trimStart` keeps. */
  lemma {:induction false} TrimStartSpaces(a: string, z: string)
    requires AllSpace(a)
    ensures TrimStart(a + z) == TrimStart(z)
  {
    if |a| > 0 {
      assert (a + z)[1..] == a[1..] + z;
      TrimStartSpaces(a[1..], z);
    } else {
      assert a + z == z;
    }
  }

  /** Trailing white space does not change what `trimEnd` keeps. */
  lemma {:induction false} TrimEndSpaces(z: string, b: string)
    requires AllSpace(b)
    ensures TrimEnd(z + b) == TrimEnd(z)
  {
    if |b| > 0 {
      assert (z + b)[..|z + b| - 1] == z + b[..|b| - 1];
      TrimEndSpaces(z, b[..|b| - 1]);
    } else {
      assert z + b == z;
    }
  }

  lemma {:induction false} TrimStartBeforeSpaces(y: string, b: string)
    requires AllSpace(b)
    ensures TrimStart(y + b) == TrimStart(y) + b || (TrimStart(y) == [] && TrimStart(y + b) == [])
  {
    if |y| == 0 {
      assert y + b == b;
      TrimStartSpaces(b, []);
      assert b + [] == b;
    } else if IsSpace(y[0]) {
      assert (y + b)[1..] == y[1..] + b;
      TrimStartBeforeSpaces(y[1..], b);
    }
  }

  /** `trim()` ignores white space added at either end. */
  lemma TrimPadded(a: string, y: string, b: string)
    requires AllSpace(a) && AllSpace(b)
    ensures Trim(a + y + b) == Trim(y)
  {
    assert a + y + b == a + (y + b);
    TrimStartSpaces(a, y + b);
    TrimStartBeforeSpaces(y, b);
    if TrimStart(y + b) == TrimStart(y) + b {
      TrimEndSpaces(TrimStart(y), b);
    }
  }
}
