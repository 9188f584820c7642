/**
 * MD5Util: the hexadecimal rendering of a digest. The digest itself
 * (MessageDigest "MD5" over String.getBytes) is a foreign call and is a
 * parameter of Md5Encode.
 */
module Md5Hex {
  import opened JavaLang

  /** A Java byte. */
  type JByte = b: int | -128 <= b < 128

  /** MD5Util.hexDigits: the digit strings for 0..15, lower case. */
  const HexDigits: seq<string> :=
    ["0", "1", "2", "3", "4", "5", "6", "7", "8", "9", "a", "b", "c", "d", "e", "f"]

  predicate IsHexChar(c: char) { '0' <= c <= '9' || 'a' <= c <= 'f' }

  predicate IsUpperHexChar(c: char) { '0' <= c <= '9' || 'A' <= c <= 'F' }

  /** The value of a lower-case hex digit; the reference decoder for the encoding. */
  function HexValue(c: char): (v: nat)
    ensures v < 16
  {
    if '0' <= c <= '9' then (c - '0') as nat
    else if 'a' <= c <= 'f' then (c - 'a') as nat + 10
    else 0
  }

  /** The byte's value read as unsigned: byteToHexString adds 256 to a negative byte. */
  function Unsigned(b: JByte): (n: nat)
    ensures n < 256 && n == b % 256
  {
    if b < 0 then 256 + b else b
  }

  /** Each entry of hexDigits is the one-char digit of its index. */
  lemma HexDigitsTable(d: nat)
    requires d < 16
    ensures |HexDigits[d]| == 1 && IsHexChar(HexDigits[d][0]) && HexValue(HexDigits[d][0]) == d
  {
    if d < 8 {
      if d < 4 { assert d == 0 || d == 1 || d == 2 || d == 3; }
      else { assert d == 4 || d == 5 || d == 6 || d == 7; }
    } else {
      if d < 12 { assert d == 8 || d == 9 || d == 10 || d == 11; }
      else { assert d == 12 || d == 13 || d == 14 || d == 15; }
    }
  }

  /** MD5Util.byteToHexString: the high and the low four bits of the unsigned value, in hex. */
  function ByteToHex(b: JByte): (r: string)
    ensures |r| == 2 && IsHexChar(r[0]) && IsHexChar(r[1])
    ensures HexValue(r[0]) * 16 + HexValue(r[1]) == b % 256
  {
    var n := Unsigned(b);
    var hi, lo := n / 16, n % 16;
    HexDigitsTable(hi);
    HexDigitsTable(lo);
    assert hi * 16 + lo == n;
    HexDigits[hi] + HexDigits[lo]
  }

  /** Reads two hex digits back as a Java byte. */
  function HexToByte(hi: char, lo: char): JByte
  {
    var n := HexValue(hi) * 16 + HexValue(lo);
    if n >= 128 then n - 256 else n
  }

  lemma ByteRoundTrip(b: JByte)
    ensures HexToByte(ByteToHex(b)[0], ByteToHex(b)[1]) == b
  {
  }

  /** The concatenation of the per-byte encodings, in order. */
  function HexOf(bs: seq<JByte>): string
  {
    if bs == [] then "" else HexOf(bs[..|bs| - 1]) + ByteToHex(bs[|bs| - 1])
  }

  /** Reads a hex string back two digits at a time. */
  function FromHex(s: string): seq<JByte>
  {
    if |s| < 2 then [] else FromHex(s[..|s| - 2]) + [HexToByte(s[|s| - 2], s[|s| - 1])]
  }

  lemma {:induction false} HexOfLength(bs: seq<JByte>)
    ensures |HexOf(bs)| == 2 * |bs|
  {
    if bs != [] {
      HexOfLength(bs[..|bs| - 1]);
    }
  }

  /** Every char of the encoding is a lower-case hex digit. */
  lemma {:induction false} HexOfChars(bs: seq<JByte>)
    ensures forall i :: 0 <= i < |HexOf(bs)| ==> IsHexChar(HexOf(bs)[i])
  {
    if bs != [] {
      var init := HexOf(bs[..|bs| - 1]);
      var last := ByteToHex(bs[|bs| - 1]);
      HexOfChars(bs[..|bs| - 1]);
      assert forall i :: 0 <= i < |init + last| ==>
        (init + last)[i] == if i < |init| then init[i] else last[i - |init|];
    }
  }

  /** Two more digits decode to one more byte. */
  lemma FromHexSnoc(s: string, t: string)
    requires |t| == 2
    ensures FromHex(s + t) == FromHex(s) + [HexToByte(t[0], t[1])]
  {
    var st := s + t;
    assert st[..|st| - 2] == s;
    assert st[|st| - 2] == t[0] && st[|st| - 1] == t[1];
  }

  /** Decoding the encoding gives the bytes back. */
  lemma {:induction false} HexRoundTrip(bs: seq<JByte>)
    ensures FromHex(HexOf(bs)) == bs
  {
    if bs != [] {
      var init := bs[..|bs| - 1];
      var b := bs[|bs| - 1];
      var last := ByteToHex(b);
      assert HexOf(bs) == HexOf(init) + last;
      FromHexSnoc(HexOf(init), last);
      ByteRoundTrip(b);
      HexRoundTrip(init);
      assert bs == init + [b];
    }
  }

  /** Distinct byte arrays give distinct strings. */
  lemma HexOfInjective(a: seq<JByte>, b: seq<JByte>)
    requires HexOf(a) == HexOf(b)
    ensures a == b
  {
    HexRoundTrip(a);
    HexRoundTrip(b);
  }

  /** MD5Util.byteArrayToHexString: appends the encoding of each byte to a buffer. */
  method ByteArrayToHexString(b: array<JByte>) returns (r: string)
    ensures r == HexOf(b[..])
  {
    var sb := "";
    var i := 0;
    while i < b.Length
      invariant 0 <= i <= b.Length
      invariant sb == HexOf(b[..i])
    {
      assert b[..i + 1][..i] == b[..i];
      sb := sb + ByteToHex(b[i]);
      i := i + 1;
    }
    assert b[..b.Length] == b[..];
    r := sb;
  }

  /**
   * MD5Util.md5Encode: null for a null input, otherwise the upper-cased hex
   * encoding of the digest of the input's bytes.
   */
  function Md5Encode(input: Option<string>, digest: string -> seq<JByte>): (r: Option<string>)
  {
    match input
    case None => None
    case Some(s) => Some(UpperStr(HexOf(digest(s))))
  }

  /** The encoded digest has two upper-case hex digits per digest byte, 32 for MD5's 16 bytes. */
  lemma Md5EncodeShape(input: Option<string>, digest: string -> seq<JByte>)
    ensures Md5Encode(input, digest).None? <==> input.None?
    ensures input.Some? ==>
      var r := Md5Encode(input, digest).value;
      |r| == 2 * |digest(input.value)| &&
      forall i :: 0 <= i < |r| ==> IsUpperHexChar(r[i])
  {
    if input.Some? {
      HexOfLength(digest(input.value));
      HexOfChars(digest(input.value));
    }
  }

  /** Lower-casing the result gives back the encoding, so distinct digests give distinct results. */
  lemma Md5EncodeInjective(x: string, y: string, digest: string -> seq<JByte>)
    requires Md5Encode(Some(x), digest) == Md5Encode(Some(y), digest)
    ensures digest(x) == digest(y)
  {
    HexOfChars(digest(x));
    HexOfChars(digest(y));
    UpperLowerHex(HexOf(digest(x)));
    UpperLowerHex(HexOf(digest(y)));
    HexOfInjective(digest(x), digest(y));
  }

  lemma UpperLowerHex(s: string)
    ensures LowerStr(UpperStr(s)) == s || exists i :: 0 <= i < |s| && !IsHexChar(s[i])
  {
    if forall i :: 0 <= i < |s| ==> IsHexChar(s[i]) {
      forall i | 0 <= i < |s|
        ensures LowerStr(UpperStr(s))[i] == s[i]
      {
        if IsLower(s[i]) {
          ToUpperToLower(s[i]);
        }
      }
    }
  }
}
