/** The JavaScript string operations the source relies on, over `string`
    (a sequence of characters): global single-character `replace`, removal of
    a character, `padEnd`, the first field of `split`, `trim`, and the decimal
    rendering of a whole number inside a template literal. */
module Strings {

  /** `s.replace(/a/g, b)` for single characters a and b. */
  function ReplaceChar(s: string, a: char, b: char): (r: string)
    ensures |r| == |s|
    ensures forall i :: 0 <= i < |r| ==> r[i] == (if s[i] == a then b else s[i])
  {
    if s == [] then [] else [if s[0] == a then b else s[0]] + ReplaceChar(s[1..], a, b)
  }

  /** `s.replace(/c/g, "")`: every character other than c is kept, as often
      as it occurs; with `RemoveCharAppend` and the one-character case the
      kept characters also stay in their order. */
  function RemoveChar(s: string, c: char): (r: string)
    ensures c !in r
    ensures multiset(r) == multiset(s)[c := 0]
    ensures |s| == 1 ==> r == (if s[0] == c then [] else s)
    ensures c !in s ==> r == s
  {
    if s == [] then []
    else
      assert s == [s[0]] + s[1..];
      if s[0] == c then RemoveChar(s[1..], c)
      else [s[0]] + RemoveChar(s[1..], c)
  }

  /** Removing a character distributes over concatenation. */
  lemma {:induction false} RemoveCharAppend(x: string, y: string, c: char)
    ensures RemoveChar(x + y, c) == RemoveChar(x, c) + RemoveChar(y, c)
  {
    if x == [] {
      assert x + y == y;
    } else {
      assert (x + y)[0] == x[0] && (x + y)[1..] == x[1..] + y;
      RemoveCharAppend(x[1..], y, c);
    }
  }

  /** Removing c from a string made only of c leaves nothing. */
  lemma {:induction false} RemoveCharAll(y: string, c: char)
    requires forall i :: 0 <= i < |y| ==> y[i] == c
    ensures RemoveChar(y, c) == []
  {
    if y != [] {
      RemoveCharAll(y[1..], c);
    }
  }

  function Repeat(c: char, n: nat): (r: string)
    ensures |r| == n && forall i :: 0 <= i < n ==> r[i] == c
  {
    if n == 0 then [] else [c] + Repeat(c, n - 1)
  }

  /** `s.padEnd(n, c)`: c appended until the length is n; longer strings unchanged. */
  function PadEnd(s: string, n: nat, c: char): (r: string)
    ensures |s| < n ==> |r| == n
    ensures |s| >= n ==> r == s
    ensures r[..|s|] == s && forall i :: |s| <= i < |r| ==> r[i] == c
  {
    if |s| >= n then s else s + Repeat(c, n - |s|)
  }

  /** `s.split(sep)[0]`: everything before the first sep. */
  function FirstField(s: string, sep: char): (r: string)
    ensures sep !in r
    ensures |r| <= |s| && r == s[..|r|]
    ensures |r| < |s| ==> s[|r|] == sep
  {
    if s == [] then []
    else if s[0] == sep then []
    else [s[0]] + FirstField(s[1..], sep)
  }

  /** The characters `String.prototype.trim` removes: ECMAScript WhiteSpace
      (tab, vertical tab, form feed, space, no-break space, the byte order
      mark and the Unicode space separators) and LineTerminator. */
  const JS_SPACES: set<char> := {
    '\t', '\n', '\U{B}', '\U{C}', '\r', ' ', '\U{A0}', '\U{1680}',
    '\U{2000}', '\U{2001}', '\U{2002}', '\U{2003}', '\U{2004}', '\U{2005}',
    '\U{2006}', '\U{2007}', '\U{2008}', '\U{2009}', '\U{200A}',
    '\U{2028}', '\U{2029}', '\U{202F}', '\U{205F}', '\U{3000}', '\U{FEFF}'
  }

  predicate IsJsSpace(c: char) {
    c in JS_SPACES
  }

  /** Neither end of `s` is JavaScript white space. */
  predicate Trimmed(s: string) {
    s == [] || (!IsJsSpace(s[0]) && !IsJsSpace(s[|s| - 1]))
  }

  function TrimStart(s: string): (r: string)
    ensures |r| <= |s| && r == s[|s| - |r|..]
    ensures r == [] || !IsJsSpace(r[0])
    ensures forall k :: 0 <= k < |s| - |r| ==> IsJsSpace(s[k])
  {
    if s == [] || !IsJsSpace(s[0]) then s else TrimStart(s[1..])
  }

  function TrimEnd(s: string): (r: string)
    ensures |r| <= |s| && r == s[..|r|]
    ensures r == [] || !IsJsSpace(r[|r| - 1])
    ensures forall k :: |r| <= k < |s| ==> IsJsSpace(s[k])
  {
    if s == [] || !IsJsSpace(s[|s| - 1]) then s else TrimEnd(s[..|s| - 1])
  }

  /** `s.trim()`: the part of s between its leading and trailing white space
      (`TrimParts` splits s around it). */
  function Trim(s: string): (r: string)
    ensures Trimmed(r)
    ensures |TrimStart(s)| >= |r|
    ensures r == s[|s| - |TrimStart(s)|..][..|r|]
  {
    TrimEnd(TrimStart(s))
  }

  /** s is white space, then r from index k on, then white space again. */
  predicate SpacedAround(s: string, k: nat, r: string) {
    && k + |r| <= |s|
    && s == s[..k] + r + s[k + |r|..]
    && (forall i :: 0 <= i < k ==> IsJsSpace(s[i]))
    && (forall i :: k + |r| <= i < |s| ==> IsJsSpace(s[i]))
  }

  /** s is its leading white space, then its trim, then its trailing white
      space. */
  lemma TrimParts(s: string)
    ensures SpacedAround(s, |s| - |TrimStart(s)|, Trim(s))
  {
    TrimMiddle(s);
    TrimTrailing(s);
  }

  lemma TrimMiddle(s: string)
    ensures var r := Trim(s); var k := |s| - |TrimStart(s)|;
      k + |r| <= |s| && s == s[..k] + r + s[k + |r|..]
  {
    var r := Trim(s);
    SliceInContext(s, |s| - |TrimStart(s)|, r);
  }

  lemma TrimTrailing(s: string)
    ensures var r := Trim(s); var k := |s| - |TrimStart(s)|;
      forall i :: k + |r| <= i < |s| ==> IsJsSpace(s[i])
  {
    var t := TrimStart(s);
    assert Trim(s) == TrimEnd(t);
    ShiftedTail(s, |s| - |t|, |TrimEnd(t)|, IsJsSpace);
  }

  lemma SliceInContext<T>(s: seq<T>, k: nat, r: seq<T>)
    requires k <= |s| && |r| <= |s| - k && r == s[k..][..|r|]
    ensures s == s[..k] + r + s[k + |r|..]
  {
    SplitAround(s, k, k + |r|);
  }

  lemma ShiftedTail<T>(s: seq<T>, k: nat, m: nat, p: T -> bool)
    requires k + m <= |s|
    requires forall j :: m <= j < |s| - k ==> p(s[k..][j])
    ensures forall i :: k + m <= i < |s| ==> p(s[i])
  {
    forall i | k + m <= i < |s| ensures p(s[i]) {
      assert s[i] == s[k..][i - k];
    }
  }

  lemma SliceKeepsElements<T>(s: seq<T>, k: nat, r: seq<T>)
    requires k <= |s| && |r| <= |s| - k && r == s[k..][..|r|]
    ensures forall x :: x in r ==> x in s
  {
    forall x | x in r ensures x in s {
      var i :| 0 <= i < |r| && r[i] == x;
      assert s[k + i] == x;
    }
  }

  lemma SplitAround<T>(s: seq<T>, a: nat, b: nat)
    requires a <= b <= |s|
    ensures s == s[..a] + s[a..b] + s[b..] && s[a..][..b - a] == s[a..b]
  {
  }

  /** The number a string of decimal digits denotes, most significant first. */
  function DigitsValue(s: string): nat
    requires forall i :: 0 <= i < |s| ==> '0' <= s[i] <= '9'
  {
    if s == [] then 0 else 10 * DigitsValue(s[..|s| - 1]) + (s[|s| - 1] - '0') as nat
  }

  /** The decimal numeral of n, as a template literal renders a whole Number:
      digits denoting n, with no leading zero. */
  function DecimalString(n: nat): (r: string)
    ensures |r| >= 1
    ensures forall i :: 0 <= i < |r| ==> '0' <= r[i] <= '9'
    ensures DigitsValue(r) == n
    ensures r[0] == '0' ==> r == "0"
  {
    var d := ['0' + (n % 10) as char];
    if n < 10 then d
    else
      var high := DecimalString(n / 10);
      assert (high + d)[..|high + d| - 1] == high;
      high + d
  }
}
