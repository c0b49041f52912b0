/** The few operations of Python's `str` that the core relies on. */
module Strings {

  import opened Wrappers

  /** The characters Python's `str.isspace()` accepts, which `str.strip()` removes. */
  predicate IsSpace(c: char)
  {
    var n := c as int;
    (0x09 <= n <= 0x0D) || (0x1C <= n <= 0x20) || n == 0x85 || n == 0xA0 || n == 0x1680
    || (0x2000 <= n <= 0x200A) || n == 0x2028 || n == 0x2029 || n == 0x202F || n == 0x205F
    || n == 0x3000
  }

  /** `s.lstrip()` */
  function TrimLeft(s: string): (r: string)
    ensures |r| <= |s| && r == s[|s| - |r|..]
    ensures |r| > 0 ==> !IsSpace(r[0])
    ensures forall i :: 0 <= i < |s| - |r| ==> IsSpace(s[i])
  {
    if |s| > 0 && IsSpace(s[0]) then TrimLeft(s[1..]) else s
  }

  /** `s.rstrip()` */
  function TrimRight(s: string): (r: string)
    ensures |r| <= |s| && r == s[..|r|]
    ensures |r| > 0 ==> !IsSpace(r[|r| - 1])
    ensures forall i :: |r| <= i < |s| ==> IsSpace(s[i])
  {
    if |s| > 0 && IsSpace(s[|s| - 1]) then TrimRight(s[..|s| - 1]) else s
  }

  /** `s.strip()`: drop leading and trailing whitespace. */
  function Strip(s: string): string
  {
    TrimRight(TrimLeft(s))
  }

  /** What strip leaves is the infix of s obtained by cutting whitespace only, and it
      neither starts nor ends with whitespace. */
  lemma StripIsMaximalInfix(s: string)
    ensures exists i, j ::
              && 0 <= i <= j <= |s| && Strip(s) == s[i..j]
              && (forall k :: 0 <= k < i ==> IsSpace(s[k]))
              && (forall k :: j <= k < |s| ==> IsSpace(s[k]))
    ensures |Strip(s)| > 0 ==> !IsSpace(Strip(s)[0]) && !IsSpace(Strip(s)[|Strip(s)| - 1])
  {
    var l := TrimLeft(s);
    var i := |s| - |l|;
    var j := i + |TrimRight(l)|;
    assert Strip(s) == s[i..j];
    if |Strip(s)| > 0 {
      assert Strip(s)[0] == l[0];
    }
  }

  /** Strip yields the empty string exactly when every character is whitespace. */
  lemma {:induction false} StripEmptyIffBlank(s: string)
    ensures Strip(s) == "" <==> forall k :: 0 <= k < |s| ==> IsSpace(s[k])
  {
    if forall k :: 0 <= k < |s| ==> IsSpace(s[k]) {
      BlankTrimsAway(s);
    } else {
      var k :| 0 <= k < |s| && !IsSpace(s[k]);
      NonBlankSurvives(s, k);
    }
  }

  /** A character that is not whitespace keeps the stripped string non-empty. */
  lemma NonBlankSurvives(s: string, k: nat)
    requires k < |s| && !IsSpace(s[k])
    ensures Strip(s) != ""
  {
    var l := TrimLeft(s);
    var j := k - (|s| - |l|);
    assert 0 <= j < |l| && l[j] == s[k];
    var r := TrimRight(l);
    assert !IsSpace(l[j]);
    assert j < |r|;
  }

  lemma {:induction false} BlankTrimsAway(s: string)
    requires forall k :: 0 <= k < |s| ==> IsSpace(s[k])
    ensures TrimLeft(s) == ""
  {
    if |s| > 0 {
      BlankTrimsAway(s[1..]);
    }
  }

  /** Stripping twice is stripping once. */
  lemma StripIdempotent(s: string)
    ensures Strip(Strip(s)) == Strip(s)
  {
    var t := Strip(s);
    if |t| > 0 {
      StripIsMaximalInfix(s);
      assert TrimLeft(t) == t;
      assert TrimRight(t) == t;
    }
  }

  /** ASCII part of `str.lower()`. */
  function LowerChar(c: char): (r: char)
  {
    if 'A' <= c <= 'Z' then (c as int + 32) as char else c
  }

  /** `s.lower()` on the ASCII letters. */
  function Lower(s: string): (r: string)
    ensures |r| == |s|
    ensures forall i :: 0 <= i < |s| ==> r[i] == LowerChar(s[i])
  {
    seq(|s|, i requires 0 <= i < |s| => LowerChar(s[i]))
  }

  /** Lower-casing twice is lower-casing once, and upper-case letters never survive it. */
  lemma LowerIdempotent(s: string)
    ensures Lower(Lower(s)) == Lower(s)
    ensures forall i :: 0 <= i < |s| ==> !('A' <= Lower(s)[i] <= 'Z')
  {
  }

  /** `sub in s` on strings: sub occurs as a contiguous piece of s. */
  predicate ContainsAt(s: string, sub: string, i: int)
  {
    0 <= i && i + |sub| <= |s| && s[i..i + |sub|] == sub
  }

  /** Python's `sub in s`, computed by scanning left to right. */
  function Contains(s: string, sub: string): (b: bool)
    ensures b <==> exists i :: ContainsAt(s, sub, i)
  {
    if |s| < |sub| then
      assert forall i :: !ContainsAt(s, sub, i);
      false
    else if s[..|sub|] == sub then
      assert ContainsAt(s, sub, 0);
      true
    else
      var rest := Contains(s[1..], sub);
      assert forall i :: ContainsAt(s, sub, i) && i > 0 ==> ContainsAt(s[1..], sub, i - 1);
      assert forall i :: ContainsAt(s[1..], sub, i) ==> ContainsAt(s, sub, i + 1);
      rest
  }

  /** Index of the first occurrence of c in s, `s.find(c)` when it is non-negative. */
  function FindChar(s: string, c: char): (r: Option<nat>)
    ensures r.None? <==> c !in s
    ensures r.Some? ==> r.value < |s| && s[r.value] == c && c !in s[..r.value]
  {
    if |s| == 0 then None
    else if s[0] == c then Some(0)
    else match FindChar(s[1..], c)
      case None => None
      case Some(k) => Some(k + 1)
  }

  /** The first occurrence of c is where c occurs with no c before it. */
  lemma {:induction false} FindCharAt(s: string, c: char, p: nat)
    requires p < |s| && s[p] == c && c !in s[..p]
    ensures FindChar(s, c) == Some(p)
  {
    if p > 0 {
      assert s[0] in s[..p];
      assert s[1..][..p - 1] == s[1..p];
      assert forall x :: x in s[1..p] ==> x in s[..p];
      FindCharAt(s[1..], c, p - 1);
    }
  }

  /** Index of the last occurrence of c in s, as `s.rfind(c)`; -1 when absent. */
  function RFindChar(s: string, c: char): (r: int)
    ensures -1 <= r < |s|
    ensures r == -1 <==> c !in s
    ensures r >= 0 ==> s[r] == c && c !in s[r + 1..]
  {
    if |s| == 0 then -1
    else if s[|s| - 1] == c then |s| - 1
    else
      var front := s[..|s| - 1];
      var k := RFindChar(front, c);
      assert s == front + [s[|s| - 1]];
      assert s[k + 1..] == front[k + 1..] + [s[|s| - 1]];
      k
  }


  /** The last occurrence of c is where c occurs with no c after it. */
  lemma {:induction false} RFindCharAt(s: string, c: char, p: nat)
    requires p < |s| && s[p] == c && c !in s[p + 1..]
    ensures RFindChar(s, c) == p
    decreases |s|
  {
    if p < |s| - 1 {
      var t := s[..|s| - 1];
      assert s[p + 1..] == t[p + 1..] + [s[|s| - 1]];
      RFindCharAt(t, c, p);
    }
  }
}
