/** The few string operations the generator relies on, restricted to ASCII:
    case folding (str.lower), trimming (str.strip), decimal rendering (str(int))
    and joining with a separator (str.join). */
module Text {

  predicate IsUpper(c: char) { 'A' <= c <= 'Z' }

  function ToLowerChar(c: char): char
  {
    if IsUpper(c) then (c as int + 32) as char else c
  }

  predicate IsLowerCase(s: string) { forall i :: 0 <= i < |s| ==> !IsUpper(s[i]) }

  /** ASCII case folding: upper-case letters become their lower-case letter,
      every other character is kept. */
  function Lower(s: string): (r: string)
    ensures |r| == |s| && IsLowerCase(r)
    ensures forall i :: 0 <= i < |s| && !IsUpper(s[i]) ==> r[i] == s[i]
    ensures forall i :: 0 <= i < |s| && IsUpper(s[i]) ==> r[i] as int == s[i] as int + 32
  {
    seq(|s|, i requires 0 <= i < |s| => ToLowerChar(s[i]))
  }

  /** A string without upper-case letters is its own lower-case form. */
  lemma LowerOfLowerCase(s: string)
    requires IsLowerCase(s)
    ensures Lower(s) == s
  {
  }

  /** The ASCII characters that str.isspace accepts: space, \t \n \v \f \r and
      the four separators \x1c to \x1f. */
  predicate IsSpace(c: char)
  {
    c == ' ' || '\t' <= c <= '\r' || '\U{1C}' <= c <= '\U{1F}'
  }

  predicate AllSpace(s: string) { forall i :: 0 <= i < |s| ==> IsSpace(s[i]) }

  /** Neither starts nor ends with whitespace. */
  predicate IsTrimmed(s: string) { s == [] || (!IsSpace(s[0]) && !IsSpace(s[|s| - 1])) }

  /** str.strip(): remove leading and trailing whitespace. The result is empty
      exactly when the line was blank. */
  function Strip(s: string): (r: string)
    ensures IsTrimmed(r)
    ensures |r| <= |s|
    ensures r == [] <==> AllSpace(s)
    decreases |s|
  {
    if |s| == 0 then s
    else if IsSpace(s[0]) then Strip(s[1..])
    else if IsSpace(s[|s| - 1]) then Strip(s[..|s| - 1])
    else s
  }

  /** Strip removes exactly the surrounding whitespace and nothing of the core. */
  lemma {:induction false} StripSurrounded(pre: string, core: string, post: string)
    requires AllSpace(pre) && AllSpace(post) && IsTrimmed(core)
    ensures Strip(pre + core + post) == core
    decreases |pre| + |post|
  {
    var s := pre + core + post;
    if |pre| > 0 {
      assert s[0] == pre[0];
      assert s[1..] == pre[1..] + core + post;
      StripSurrounded(pre[1..], core, post);
    } else if core == [] {
      assert s == post;
      assert AllSpace(s);
    } else if |post| > 0 {
      assert s[0] == core[0];
      assert s[|s| - 1] == post[|post| - 1];
      assert s[..|s| - 1] == pre + core + post[..|post| - 1];
      StripSurrounded(pre, core, post[..|post| - 1]);
    } else {
      assert s == core;
    }
  }

  /** What Strip keeps is the piece s[i..j] of its input, with only whitespace
      before i and after j. */
  lemma {:induction false} StripBounds(s: string) returns (i: nat, j: nat)
    ensures i <= j <= |s| && Strip(s) == s[i..j]
    ensures AllSpace(s[..i]) && AllSpace(s[j..])
    decreases |s|
  {
    if |s| == 0 {
      i, j := 0, 0;
    } else if IsSpace(s[0]) {
      var i', j' := StripBounds(s[1..]);
      StripBoundsFront(s, i', j');
      i, j := i' + 1, j' + 1;
    } else if IsSpace(s[|s| - 1]) {
      i, j := StripBounds(s[..|s| - 1]);
      StripBoundsBack(s, i, j);
    } else {
      i, j := 0, |s|;
    }
  }

  /** A leading blank moves the bounds found for the rest one place right. */
  lemma StripBoundsFront(s: string, i: nat, j: nat)
    requires |s| > 0 && IsSpace(s[0])
    requires i <= j <= |s| - 1 && Strip(s[1..]) == s[1..][i..j]
    requires AllSpace(s[1..][..i]) && AllSpace(s[1..][j..])
    ensures Strip(s) == s[i + 1..j + 1]
    ensures AllSpace(s[..i + 1]) && AllSpace(s[j + 1..])
  {
    var t := s[1..];
    SliceOfSuffix(s, t, i, j);
    AllSpaceAppend([s[0]], t[..i]);
  }

  /** Slices of a string with its first character removed. */
  lemma SliceOfSuffix(s: string, t: string, i: nat, j: nat)
    requires |s| > 0 && t == s[1..] && i <= j <= |t|
    ensures t[i..j] == s[i + 1..j + 1] && t[j..] == s[j + 1..]
    ensures s[..i + 1] == [s[0]] + t[..i]
  {
  }

  /** A trailing blank leaves the bounds found for the rest unchanged. */
  lemma StripBoundsBack(s: string, i: nat, j: nat)
    requires |s| > 0 && !IsSpace(s[0]) && IsSpace(s[|s| - 1])
    requires i <= j <= |s| - 1 && Strip(s[..|s| - 1]) == s[..|s| - 1][i..j]
    requires AllSpace(s[..|s| - 1][..i]) && AllSpace(s[..|s| - 1][j..])
    ensures Strip(s) == s[i..j]
    ensures AllSpace(s[..i]) && AllSpace(s[j..])
  {
    var t := s[..|s| - 1];
    StripDropLast(s);
    SliceOfPrefix(s, t, i, j);
    AllSpaceAppend(t[j..], [s[|s| - 1]]);
  }

  /** With a non-blank first and a blank last character, Strip drops the last. */
  lemma StripDropLast(s: string)
    requires |s| > 0 && !IsSpace(s[0]) && IsSpace(s[|s| - 1])
    ensures Strip(s) == Strip(s[..|s| - 1])
  {
  }

  /** Slices of a string with its last character removed. */
  lemma SliceOfPrefix(s: string, t: string, i: nat, j: nat)
    requires |s| > 0 && t == s[..|s| - 1] && i <= j <= |t|
    ensures t[i..j] == s[i..j] && t[..i] == s[..i]
    ensures s[j..] == t[j..] + [s[|s| - 1]]
  {
  }

  lemma AllSpaceAppend(a: string, b: string)
    requires AllSpace(a) && AllSpace(b)
    ensures AllSpace(a + b)
  {
  }

  predicate IsDigit(c: char) { '0' <= c <= '9' }

  predicate AllDigits(s: string) { forall i :: 0 <= i < |s| ==> IsDigit(s[i]) }

  function DigitChar(d: nat): (c: char)
    requires d < 10
    ensures IsDigit(c) && c as int - '0' as int == d
  {
    ('0' as int + d) as char
  }

  /** The decimal digits of a natural number, without leading zeros. */
  function NatToDecimal(n: nat): (r: string)
    ensures |r| >= 1 && AllDigits(r)
    ensures r[0] == '0' ==> r == "0"
  {
    if n < 10 then [DigitChar(n)] else NatToDecimal(n / 10) + [DigitChar(n % 10)]
  }

  /** str(i) for an integer: a minus sign before the digits of a negative
      value. Reading the digits back gives the magnitude. */
  function IntToDecimal(i: int): (r: string)
    ensures i >= 0 ==> AllDigits(r) && |r| >= 1 && DecimalValue(r) == i
    ensures i >= 0 ==> (r[0] == '0' ==> r == "0")
    ensures i < 0 ==> |r| >= 2 && r[0] == '-' && AllDigits(r[1..]) && DecimalValue(r[1..]) == -i
    ensures i < 0 ==> r[1] != '0'
  {
    if i < 0 then
      DecimalRoundTrip(-i);
      assert ("-" + NatToDecimal(-i))[1..] == NatToDecimal(-i);
      "-" + NatToDecimal(-i)
    else
      DecimalRoundTrip(i);
      NatToDecimal(i)
  }

  /** The number a string of decimal digits denotes. */
  function DecimalValue(s: string): nat
    requires AllDigits(s)
  {
    if s == [] then 0 else DecimalValue(s[..|s| - 1]) * 10 + (s[|s| - 1] as int - '0' as int)
  }

  /** Reading back the rendered digits gives the number. */
  lemma {:induction false} DecimalRoundTrip(n: nat)
    ensures DecimalValue(NatToDecimal(n)) == n
  {
    if n >= 10 {
      var r := NatToDecimal(n);
      assert r[..|r| - 1] == NatToDecimal(n / 10);
      DecimalRoundTrip(n / 10);
    }
  }

  /** The total length of some strings. */
  function TotalLength(parts: seq<string>): nat
  {
    if parts == [] then 0 else |parts[0]| + TotalLength(parts[1..])
  }

  /** sep.join(parts): the parts in order, one separator between neighbours. */
  function Join(parts: seq<string>, sep: string): (r: string)
    ensures parts == [] ==> r == []
    ensures parts != [] ==> parts[0] <= r
    ensures parts != [] ==> |r| == TotalLength(parts) + (|parts| - 1) * |sep|
  {
    if |parts| == 0 then ""
    else if |parts| == 1 then parts[0]
    else parts[0] + sep + Join(parts[1..], sep)
  }

  /** x occurs in s as a contiguous piece. */
  ghost predicate Occurs(x: string, s: string)
  {
    exists off :: 0 <= off <= |s| && x <= s[off..]
  }

  /** Every part appears in the joined string, at the offset returned. */
  lemma {:induction false} JoinOffset(parts: seq<string>, sep: string, k: int) returns (off: nat)
    requires 0 <= k < |parts|
    ensures off + |parts[k]| <= |Join(parts, sep)|
    ensures Join(parts, sep)[off..off + |parts[k]|] == parts[k]
  {
    var r := Join(parts, sep);
    if k == 0 {
      off := 0;
    } else {
      var rest := Join(parts[1..], sep);
      var o := JoinOffset(parts[1..], sep, k - 1);
      var head := parts[0] + sep;
      assert r == head + rest;
      off := |head| + o;
      assert r[off..off + |parts[k]|] == rest[o..o + |parts[k]|];
    }
  }

  /** Every part occurs in the joined string. */
  lemma JoinOccurs(parts: seq<string>, sep: string, k: int)
    requires 0 <= k < |parts|
    ensures Occurs(parts[k], Join(parts, sep))
  {
    var off := JoinOffset(parts, sep, k);
    assert parts[k] <= Join(parts, sep)[off..];
  }

  /** Joining two non-empty lists is joining each and putting one separator
      between the results: the parts keep their order and every pair of
      neighbours is separated exactly once. */
  lemma {:induction false} JoinAppend(a: seq<string>, b: seq<string>, sep: string)
    requires a != [] && b != []
    ensures Join(a + b, sep) == Join(a, sep) + sep + Join(b, sep)
  {
    var ab := a + b;
    assert ab[0] == a[0];
    assert Join(ab, sep) == a[0] + sep + Join(ab[1..], sep);
    if |a| == 1 {
      assert ab[1..] == b;
    } else {
      assert ab[1..] == a[1..] + b;
      JoinAppend(a[1..], b, sep);
      assert Join(a, sep) == a[0] + sep + Join(a[1..], sep);
    }
  }
}
