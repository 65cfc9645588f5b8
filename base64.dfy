/** Base64 as the source produces it (RFC 4648): `btoa` and
    `Buffer.toString("base64")` use the standard alphabet of section 4 with `=`
    padding; `Buffer.toString("base64url")` uses the URL- and filename-safe
    alphabet of section 5 without padding. */
module Base64 {
  import opened Bytes
  import Strings

  predicate IsStdChar(c: char) {
    ('A' <= c <= 'Z') || ('a' <= c <= 'z') || ('0' <= c <= '9') || c == '+' || c == '/'
  }

  predicate IsUrlChar(c: char) {
    ('A' <= c <= 'Z') || ('a' <= c <= 'z') || ('0' <= c <= '9') || c == '-' || c == '_'
  }

  /** The character for a six-bit group. */
  function Sextet(i: nat): (c: char)
    requires i < 64
    ensures IsStdChar(c)
  {
    if i < 26 then 'A' + i as char
    else if i < 52 then 'a' + (i - 26) as char
    else if i < 62 then '0' + (i - 52) as char
    else if i == 62 then '+' else '/'
  }

  /** The base64 digits of b without padding: four characters for every three
      bytes, two or three for a trailing group of one or two bytes. */
  function Digits(b: seq<Byte>): (r: string)
    ensures |r| == (4 * |b| + 2) / 3
    ensures forall i :: 0 <= i < |r| ==> IsStdChar(r[i])
    decreases |b|
  {
    if |b| == 0 then ""
    else if |b| == 1 then [Sextet(b[0] / 4), Sextet((b[0] % 4) * 16)]
    else if |b| == 2 then
      [Sextet(b[0] / 4), Sextet((b[0] % 4) * 16 + b[1] / 16), Sextet((b[1] % 16) * 4)]
    else
      [Sextet(b[0] / 4), Sextet((b[0] % 4) * 16 + b[1] / 16),
       Sextet((b[1] % 16) * 4 + b[2] / 64), Sextet(b[2] % 64)] + Digits(b[3..])
  }

  /** The `=` characters that complete the last group of four. */
  function Padding(n: nat): (r: string)
    ensures |r| == (3 - n % 3) % 3
    ensures forall i :: 0 <= i < |r| ==> r[i] == '='
  {
    if n % 3 == 1 then "==" else if n % 3 == 2 then "=" else ""
  }

  /** Standard padded base64 (`btoa` over the bytes as Latin-1 characters). */
  function Encode(b: seq<Byte>): (r: string)
    ensures |r| % 4 == 0 && |r| == 4 * ((|b| + 2) / 3)
    ensures forall i :: 0 <= i < |r| ==> IsStdChar(r[i]) || r[i] == '='
  {
    PaddedLength(|b|);
    DigitsThenPadding(Digits(b), Padding(|b|));
    Digits(b) + Padding(|b|)
  }

  /** Digits followed by padding use only the alphabet and `=`. */
  lemma DigitsThenPadding(d: string, p: string)
    requires forall i :: 0 <= i < |d| ==> IsStdChar(d[i])
    requires forall i :: 0 <= i < |p| ==> p[i] == '='
    ensures forall i :: 0 <= i < |d + p| ==> IsStdChar((d + p)[i]) || (d + p)[i] == '='
  {
    forall i | 0 <= i < |d + p| ensures IsStdChar((d + p)[i]) || (d + p)[i] == '=' {
      if i < |d| {
        assert (d + p)[i] == d[i];
      } else {
        assert (d + p)[i] == p[i - |d|];
      }
    }
  }

  lemma PaddedLength(n: nat)
    ensures (4 * n + 2) / 3 + (3 - n % 3) % 3 == 4 * ((n + 2) / 3)
  {
    var k, m := n / 3, n % 3;
    assert n == 3 * k + m;
    if m == 0 {
      DivModUnique(4 * n + 2, 3, 4 * k, 2);
      DivModUnique(n + 2, 3, k, 2);
    } else if m == 1 {
      DivModUnique(4 * n + 2, 3, 4 * k + 2, 0);
      DivModUnique(n + 2, 3, k + 1, 0);
    } else {
      DivModUnique(4 * n + 2, 3, 4 * k + 3, 1);
      DivModUnique(n + 2, 3, k + 1, 1);
    }
  }

  /** Unpadded base64url (`Buffer.toString("base64url")`). */
  function EncodeUrl(b: seq<Byte>): (r: string)
    ensures |r| == (4 * |b| + 2) / 3
    ensures forall i :: 0 <= i < |r| ==> IsUrlChar(r[i])
  {
    var d := Digits(b);
    Strings.ReplaceChar(Strings.ReplaceChar(d, '+', '-'), '/', '_')
  }

  /** The base64url text turned back into standard base64 by swapping the two
      alphabet-specific characters (the first half of the normalisation a
      server applies to a signature it receives). */
  lemma UrlDigitsBack(b: seq<Byte>)
    ensures Strings.ReplaceChar(Strings.ReplaceChar(EncodeUrl(b), '-', '+'), '_', '/') == Digits(b)
  {
    var d := Digits(b);
    var u := EncodeUrl(b);
    var back := Strings.ReplaceChar(Strings.ReplaceChar(u, '-', '+'), '_', '/');
    assert |back| == |d|;
    forall i | 0 <= i < |d| ensures back[i] == d[i] {
      assert IsStdChar(d[i]);
    }
  }
}
