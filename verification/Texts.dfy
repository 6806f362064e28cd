/** Strings: splitting, joining, trimming, and decimal numbers. */
module Texts {
  import opened Numerals

  function Join(parts: seq<string>, sep: char): string {
    if parts == [] then ""
    else if |parts| == 1 then parts[0]
    else parts[0] + [sep] + Join(parts[1..], sep)
  }

  /** The index of the first `c`, or the length. */
  function Find(s: string, c: char): (i: nat)
    ensures i <= |s| && forall k | 0 <= k < i :: s[k] != c
    ensures i < |s| ==> s[i] == c
  {
    if s == "" || s[0] == c then 0
    else
      var i := Find(s[1..], c);
      assert forall k | 0 < k <= i :: s[k] == s[1..][k - 1];
      1 + i
  }

  /** Cut at every `sep`; a text without one is a single part. */
  function Split(s: string, sep: char): (parts: seq<string>)
    ensures parts != []
    decreases |s|
  {
    var i := Find(s, sep);
    if i == |s| then [s] else [s[..i]] + Split(s[i + 1..], sep)
  }

  lemma FindAfter(a: string, c: char, b: string)
    requires c !in a
    ensures Find(a + [c] + b, c) == |a|
  {
    var s := a + [c] + b;
    var i := Find(s, c);
    assert s[|a|] == c;
    assert forall k | 0 <= k < |a| :: s[k] == a[k];
  }

  lemma SplitFirst(a: string, c: char, b: string)
    requires c !in a
    ensures Split(a + [c] + b, c) == [a] + Split(b, c)
  {
    var s := a + [c] + b;
    FindAfter(a, c, b);
    assert s[..|a|] == a && s[|a| + 1..] == b;
  }

  /** Splitting undoes joining when no part contains the separator. */
  lemma {:induction false} SplitUndoesJoin(parts: seq<string>, sep: char)
    requires parts != [] && forall p | p in parts :: sep !in p
    ensures Split(Join(parts, sep), sep) == parts
  {
    if |parts| > 1 {
      SplitFirst(parts[0], sep, Join(parts[1..], sep));
      SplitUndoesJoin(parts[1..], sep);
    } else {
      assert parts == [parts[0]] && sep !in parts[0];
    }
  }

  predicate Digits(s: string) { forall i | 0 <= i < |s| :: '0' <= s[i] <= '9' }

  function DigitChar(d: nat): char
    requires d < 10
  {
    ('0' as int + d) as char
  }

  function NatText(n: nat): (s: string)
    ensures s != "" && Digits(s)
  {
    var ds := Shortest(n, 10);
    seq(|ds|, i requires 0 <= i < |ds| => DigitChar(ds[i]))
  }

  function IntText(n: int): (s: string)
    ensures s != ""
  {
    if n < 0 then "-" + NatText(-n) else NatText(n)
  }

  function DigitsOf(s: string): seq<nat>
    requires Digits(s)
  {
    seq(|s|, i requires 0 <= i < |s| => s[i] as int - '0' as int)
  }

  lemma DigitsOfText(n: nat)
    ensures DigitsOf(NatText(n)) == Shortest(n, 10)
  {
  }

  lemma NatTextInjective(m: nat, n: nat)
    requires NatText(m) == NatText(n)
    ensures m == n
  {
    DigitsOfText(m);
    DigitsOfText(n);
    ShortestValue(m, 10);
    ShortestValue(n, 10);
  }

  /** Unicode white space, as str.strip and the class \s see it. */
  predicate IsSpace(c: char) {
    var n := c as int;
    || 9 <= n <= 13 || 28 <= n <= 32 || n == 0x85 || n == 0xA0 || n == 0x1680
    || 0x2000 <= n <= 0x200A || n == 0x2028 || n == 0x2029 || n == 0x202F || n == 0x205F || n == 0x3000
  }

  function StripLeft(s: string): string {
    if s != "" && IsSpace(s[0]) then StripLeft(s[1..]) else s
  }

  function StripRight(s: string): string {
    if s != "" && IsSpace(s[|s| - 1]) then StripRight(s[..|s| - 1]) else s
  }

  function Strip(s: string): string { StripRight(StripLeft(s)) }

  predicate Blank(s: string) { forall i | 0 <= i < |s| :: IsSpace(s[i]) }

  /** No white space at either end. */
  predicate Trimmed(s: string) { s == "" || (!IsSpace(s[0]) && !IsSpace(s[|s| - 1])) }

  lemma {:induction false} StripLeftBlank(pad: string, s: string)
    requires Blank(pad) && (s == "" || !IsSpace(s[0]))
    ensures StripLeft(pad + s) == s
  {
    if pad == "" {
      assert pad + s == s;
    } else {
      assert (pad + s)[1..] == pad[1..] + s;
      StripLeftBlank(pad[1..], s);
    }
  }

  lemma {:induction false} StripRightBlank(s: string, pad: string)
    requires Blank(pad) && (s == "" || !IsSpace(s[|s| - 1]))
    ensures StripRight(s + pad) == s
    decreases |pad|
  {
    if pad == "" {
      assert s + pad == s;
    } else {
      assert (s + pad)[..|s + pad| - 1] == s + pad[..|pad| - 1];
      StripRightBlank(s, pad[..|pad| - 1]);
    }
  }

  /** Stripping removes exactly the surrounding white space. */
  lemma StripPadded(left: string, s: string, right: string)
    requires Blank(left) && Blank(right) && Trimmed(s)
    ensures Strip(left + s + right) == s
  {
    if s == "" {
      assert left + s + right == left + (right + "");
      assert Blank(left + right);
      StripLeftBlank(left + right, "");
      assert (left + right) + "" == left + s + right;
    } else {
      assert left + s + right == left + (s + right);
      StripLeftBlank(left, s + right);
      StripRightBlank(s, right);
    }
  }

  lemma StripTrimmed(s: string)
    requires Trimmed(s)
    ensures Strip(s) == s
  {
    StripPadded("", s, "");
    assert "" + s + "" == s;
  }

  lemma {:induction false} StripLeftSuffix(s: string)
    ensures exists k :: 0 <= k <= |s| && StripLeft(s) == s[k..]
    ensures StripLeft(s) == "" || !IsSpace(StripLeft(s)[0])
  {
    if s != "" && IsSpace(s[0]) {
      StripLeftSuffix(s[1..]);
      var k :| 0 <= k <= |s[1..]| && StripLeft(s[1..]) == s[1..][k..];
      assert s[k + 1..] == s[1..][k..];
    } else {
      assert s[0..] == s;
    }
  }

  lemma {:induction false} StripRightPrefix(s: string)
    ensures StripRight(s) <= s
    ensures StripRight(s) == "" || !IsSpace(StripRight(s)[|StripRight(s)| - 1])
    decreases |s|
  {
    if s == "" || !IsSpace(s[|s| - 1]) {
    } else {
      StripRightPrefix(s[..|s| - 1]);
    }
  }

  /** Stripping leaves a trimmed text, and only text that was there. */
  lemma StripResult(s: string)
    ensures Trimmed(Strip(s)) && |Strip(s)| <= |s|
    ensures forall c | c in Strip(s) :: c in s
  {
    StripLeftSuffix(s);
    StripRightPrefix(StripLeft(s));
  }

  function LowerChar(c: char): char {
    if 'A' <= c <= 'Z' then ((c as int) + 32) as char else c
  }

  function Lower(s: string): string { seq(|s|, i requires 0 <= i < |s| => LowerChar(s[i])) }

  predicate Contains(s: string, sub: string) { exists i | 0 <= i <= |s| :: sub <= s[i..] }

  function Replaced(s: string, from: char, to: char): (r: string)
    ensures |r| == |s| && forall i | 0 <= i < |s| :: r[i] == if s[i] == from then to else s[i]
  {
    seq(|s|, i requires 0 <= i < |s| => if s[i] == from then to else s[i])
  }
}
