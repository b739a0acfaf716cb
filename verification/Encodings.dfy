// Text forms of byte strings and indexes in the worker hand-off.
module Encodings {
  import opened Common
  import opened Text

  type Byte = b: nat | b < 256
  type Bytes = seq<Byte>

  // ---- encoding/hex ---------------------------------------------------------

  function HexDigit(n: nat): char
    requires n < 16
  {
    if n < 10 then ('0' as int + n) as char else ('a' as int + (n - 10)) as char
  }

  function HexValue(c: char): Option<nat> {
    if '0' <= c <= '9' then Some(c as int - '0' as int)
    else if 'a' <= c <= 'f' then Some(c as int - 'a' as int + 10)
    else if 'A' <= c <= 'F' then Some(c as int - 'A' as int + 10)
    else None
  }

  lemma HexDigitValue(n: nat)
    requires n < 16
    ensures HexValue(HexDigit(n)) == Some(n)
  {
  }

  function HexEncode(bytes: Bytes): string {
    if bytes == [] then "" else [HexDigit(bytes[0] / 16), HexDigit(bytes[0] % 16)] + HexEncode(bytes[1..])
  }

  function HexDecode(s: string): Option<Bytes> {
    if s == "" then Some([])
    else if |s| == 1 then None
    else
      match (HexValue(s[0]), HexValue(s[1]), HexDecode(s[2..]))
      case (Some(h), Some(l), Some(rest)) =>
        if h < 16 && l < 16 then Some([(h * 16 + l) as Byte] + rest) else None
      case _ => None
  }

  lemma {:induction false} HexRoundTrip(bytes: Bytes)
    ensures HexDecode(HexEncode(bytes)) == Some(bytes) && |HexEncode(bytes)| == 2 * |bytes|
  {
    if bytes != [] {
      var s := HexEncode(bytes);
      HexRoundTrip(bytes[1..]);
      HexDigitValue(bytes[0] / 16);
      HexDigitValue(bytes[0] % 16);
      assert s[2..] == HexEncode(bytes[1..]);
      assert bytes == [bytes[0]] + bytes[1..];
    }
  }

  // isSHA256 of a hexadecimal text.
  predicate IsSHA256(s: string) {
    HexDecode(s).Some? && |HexDecode(s).value| == 32
  }

  // ---- encoding/base64, standard alphabet with padding -------------------------

  function SixBitChar(n: nat): char
    requires n < 64
  {
    if n < 26 then ('A' as int + n) as char
    else if n < 52 then ('a' as int + (n - 26)) as char
    else if n < 62 then ('0' as int + (n - 52)) as char
    else if n == 62 then '+' else '/'
  }

  function SixBitValue(c: char): Option<nat> {
    if 'A' <= c <= 'Z' then Some(c as int - 'A' as int)
    else if 'a' <= c <= 'z' then Some(c as int - 'a' as int + 26)
    else if '0' <= c <= '9' then Some(c as int - '0' as int + 52)
    else if c == '+' then Some(62)
    else if c == '/' then Some(63)
    else None
  }

  lemma SixBitRoundTrip(n: nat)
    requires n < 64
    ensures SixBitValue(SixBitChar(n)) == Some(n) && SixBitChar(n) != '='
  {
  }

  function Base64Encode(bytes: Bytes): string {
    if bytes == [] then ""
    else if |bytes| == 1 then
      [SixBitChar(bytes[0] / 4), SixBitChar(bytes[0] % 4 * 16), '=', '=']
    else if |bytes| == 2 then
      [SixBitChar(bytes[0] / 4), SixBitChar(bytes[0] % 4 * 16 + bytes[1] / 16),
       SixBitChar(bytes[1] % 16 * 4), '=']
    else
      [SixBitChar(bytes[0] / 4), SixBitChar(bytes[0] % 4 * 16 + bytes[1] / 16),
       SixBitChar(bytes[1] % 16 * 4 + bytes[2] / 64), SixBitChar(bytes[2] % 64)] + Base64Encode(bytes[3..])
  }

  function Base64Decode(s: string): Option<Bytes> {
    if s == "" then Some([])
    else if |s| < 4 then None
    else
      match (SixBitValue(s[0]), SixBitValue(s[1]), SixBitValue(s[2]), SixBitValue(s[3]))
      case (Some(a), Some(b), Some(c), Some(d)) =>
        var rest := Base64Decode(s[4..]);
        if rest.None? || a >= 64 || b >= 64 || c >= 64 || d >= 64 then None
        else Some([(a * 4 + b / 16) as Byte, (b % 16 * 16 + c / 4) as Byte, (c % 4 * 64 + d) as Byte] + rest.value)
      case (Some(a), Some(b), Some(c), None) =>
        if s[3] != '=' || |s| != 4 || a >= 64 || b >= 64 || c >= 64 then None
        else Some([(a * 4 + b / 16) as Byte, (b % 16 * 16 + c / 4) as Byte])
      case (Some(a), Some(b), None, None) =>
        if s[2] != '=' || s[3] != '=' || |s| != 4 || a >= 64 || b >= 64 then None
        else Some([(a * 4 + b / 16) as Byte])
      case _ => None
  }

  // The six-bit pieces of three bytes hold the bytes.
  lemma Pieces(x: Byte, y: Byte, z: Byte)
    ensures x / 4 < 64 && x % 4 * 16 + y / 16 < 64 && y % 16 * 4 + z / 64 < 64 && z % 64 < 64
    ensures x / 4 * 4 + (x % 4 * 16 + y / 16) / 16 == x
    ensures (x % 4 * 16 + y / 16) % 16 * 16 + (y % 16 * 4 + z / 64) / 4 == y
    ensures (y % 16 * 4 + z / 64) % 4 * 64 + z % 64 == z
  {
  }

  lemma DecodeGroup(a: nat, b: nat, c: nat, d: nat, rest: string, x: Byte, y: Byte, z: Byte)
    requires a < 64 && b < 64 && c < 64 && d < 64 && Base64Decode(rest).Some?
    requires a * 4 + b / 16 == x && b % 16 * 16 + c / 4 == y && c % 4 * 64 + d == z
    ensures Base64Decode([SixBitChar(a), SixBitChar(b), SixBitChar(c), SixBitChar(d)] + rest) ==
      Some([x, y, z] + Base64Decode(rest).value)
  {
    SixBitRoundTrip(a);
    SixBitRoundTrip(b);
    SixBitRoundTrip(c);
    SixBitRoundTrip(d);
    assert ([SixBitChar(a), SixBitChar(b), SixBitChar(c), SixBitChar(d)] + rest)[4..] == rest;
  }

  lemma DecodePadded(a: nat, b: nat, c: nat)
    requires a < 64 && b < 64 && c < 64
    ensures Base64Decode([SixBitChar(a), SixBitChar(b), SixBitChar(c), '=']) ==
      Some([(a * 4 + b / 16) as Byte, (b % 16 * 16 + c / 4) as Byte])
    ensures Base64Decode([SixBitChar(a), SixBitChar(b), '=', '=']) == Some([(a * 4 + b / 16) as Byte])
  {
    SixBitRoundTrip(a);
    SixBitRoundTrip(b);
    SixBitRoundTrip(c);
  }

  lemma EncodeGroup(x: Byte, y: Byte, z: Byte, rest: Bytes) returns (a: nat, b: nat, c: nat, d: nat)
    ensures a < 64 && b < 64 && c < 64 && d < 64
    ensures a * 4 + b / 16 == x && b % 16 * 16 + c / 4 == y && c % 4 * 64 + d == z
    ensures Base64Encode([x, y, z] + rest) == [SixBitChar(a), SixBitChar(b), SixBitChar(c), SixBitChar(d)] + Base64Encode(rest)
  {
    Pieces(x, y, z);
    a, b, c, d := x / 4, x % 4 * 16 + y / 16, y % 16 * 4 + z / 64, z % 64;
    assert ([x, y, z] + rest)[3..] == rest;
  }

  lemma FullGroup(x: Byte, y: Byte, z: Byte, rest: Bytes)
    requires Base64Decode(Base64Encode(rest)) == Some(rest)
    ensures Base64Decode(Base64Encode([x, y, z] + rest)) == Some([x, y, z] + rest)
  {
    var a, b, c, d := EncodeGroup(x, y, z, rest);
    DecodeGroup(a, b, c, d, Base64Encode(rest), x, y, z);
  }

  lemma LastByte(x: Byte)
    ensures Base64Decode(Base64Encode([x])) == Some([x])
  {
    var a, b := x / 4, x % 4 * 16;
    Pieces(x, 0, 0);
    DecodePadded(a, b, 0);
    assert Base64Encode([x]) == [SixBitChar(a), SixBitChar(b), '=', '='];
  }

  lemma LastTwoBytes(x: Byte, y: Byte)
    ensures Base64Decode(Base64Encode([x, y])) == Some([x, y])
  {
    var a, b, c := x / 4, x % 4 * 16 + y / 16, y % 16 * 4;
    Pieces(x, y, 0);
    DecodePadded(a, b, c);
    assert Base64Encode([x, y]) == [SixBitChar(a), SixBitChar(b), SixBitChar(c), '='];
  }

  lemma {:induction false} Base64RoundTrip(bytes: Bytes)
    ensures Base64Decode(Base64Encode(bytes)) == Some(bytes)
  {
    if |bytes| == 1 {
      assert bytes == [bytes[0]];
      LastByte(bytes[0]);
    } else if |bytes| == 2 {
      assert bytes == [bytes[0], bytes[1]];
      LastTwoBytes(bytes[0], bytes[1]);
    } else if |bytes| >= 3 {
      Base64RoundTrip(bytes[3..]);
      assert bytes == [bytes[0], bytes[1], bytes[2]] + bytes[3..];
      FullGroup(bytes[0], bytes[1], bytes[2], bytes[3..]);
    }
  }

  // ---- The %06d names of staged files ---------------------------------------------

  function Zeros(n: nat): string {
    if n == 0 then "" else "0" + Zeros(n - 1)
  }

  function Padded(n: nat): string {
    var s := Itoa(n);
    if |s| < 6 then Zeros(6 - |s|) + s else s
  }

  function DecimalValue(s: string): int {
    if s == "" then 0 else DecimalValue(s[..|s| - 1]) * 10 + (s[|s| - 1] as int - '0' as int)
  }

  lemma {:induction false} ItoaValue(n: nat)
    ensures DecimalValue(Itoa(n)) == n
  {
    var s := Itoa(n);
    if n < 10 {
      assert s[..0] == "";
      assert s == [Digit(n)];
    } else {
      ItoaValue(n / 10);
      assert s[..|s| - 1] == Itoa(n / 10);
    }
  }

  lemma {:induction false} ZerosValue(k: nat, s: string)
    ensures DecimalValue(Zeros(k) + s) == DecimalValue(s)
    decreases k + |s|
  {
    if s == "" {
      assert Zeros(k) + s == Zeros(k);
      if k > 0 {
        ZerosEnd(k);
        ZerosValue(k - 1, "");
        assert Zeros(k - 1) + "" == Zeros(k - 1);
      }
    } else {
      var t := Zeros(k) + s;
      ZerosValue(k, s[..|s| - 1]);
      assert t[..|t| - 1] == Zeros(k) + s[..|s| - 1];
    }
  }

  lemma {:induction false} ZerosEnd(k: nat)
    requires k > 0
    ensures Zeros(k) != "" && Zeros(k)[|Zeros(k)| - 1] == '0' && Zeros(k)[..|Zeros(k)| - 1] == Zeros(k - 1)
  {
    if k > 1 {
      ZerosEnd(k - 1);
      var t := Zeros(k - 1);
      assert Zeros(k) == "0" + t;
      assert ("0" + t)[..|t|] == "0" + t[..|t| - 1];
    }
  }

  // Different indexes have different names, however long the numbers grow.
  lemma PaddedInjective(m: nat, n: nat)
    requires Padded(m) == Padded(n)
    ensures m == n
  {
    PaddedValue(m);
    PaddedValue(n);
  }

  lemma PaddedValue(n: nat)
    ensures DecimalValue(Padded(n)) == n
  {
    ItoaValue(n);
    if |Itoa(n)| < 6 { ZerosValue(6 - |Itoa(n)|, Itoa(n)); }
  }
}
