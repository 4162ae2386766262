/** SHA-256 digests as 64 lowercase hexadecimal digits. */
module Digests {
  import opened Wrappers

  type Byte = x: int | 0 <= x < 256

  type Digest = d: seq<Byte> | |d| == 32 witness seq(32, _ => 0)

  /** SHA-256 of a byte string, left arbitrary: every result below holds for any hash. */
  const Sha256: string -> Digest

  datatype DigestError = WrongLength(bytes: nat) | NotLowercaseHex(at: nat)

  const DIGITS := "0123456789abcdef"

  predicate IsHexDigit(c: char) {
    '0' <= c <= '9' || 'a' <= c <= 'f'
  }

  function Nibble(c: char): (n: nat)
    requires IsHexDigit(c)
    ensures n < 16
  {
    if c <= '9' then c as int - '0' as int else c as int - 'a' as int + 10
  }

  function HexDigit(n: nat): (c: char)
    requires n < 16
    ensures IsHexDigit(c) && Nibble(c) == n && c == DIGITS[n]
  {
    if n < 10 then ('0' as int + n) as char else ('a' as int + n - 10) as char
  }

  /** The half of its byte that hexadecimal digit `i` stands for. */
  function Half(d: Digest, i: nat): (n: nat)
    requires i < 64
    ensures n < 16
  {
    if i % 2 == 0 then d[i / 2] / 16 else d[i / 2] % 16
  }

  function Hex(d: Digest): (text: string)
    ensures |text| == 64 && forall i | 0 <= i < 64 :: IsHexDigit(text[i]) && text[i] == HexDigit(Half(d, i))
  {
    seq(64, i requires 0 <= i < 64 => HexDigit(Half(d, i)))
  }

  /** `Digest::hex`: two digits pushed for each byte. */
  method ToHex(d: Digest) returns (text: string)
    ensures text == Hex(d)
  {
    text := "";
    for i := 0 to 32
      invariant |text| == 2 * i
      invariant forall k | 0 <= k < 2 * i :: text[k] == HexDigit(Half(d, k))
    {
      text := text + [DIGITS[d[i] / 16]];
      text := text + [DIGITS[d[i] % 16]];
      assert Half(d, 2 * i) == d[i] / 16 && Half(d, 2 * i + 1) == d[i] % 16;
    }
  }

  /** `Digest::parse_hex`: fills the bytes nibble by nibble, and stops at the first fault. */
  method ParseHex(text: string) returns (r: Result<Digest, DigestError>)
    ensures r.Ok? <==> |text| == 64 && forall i | 0 <= i < 64 :: IsHexDigit(text[i])
    ensures r.Ok? ==> Hex(r.value) == text
    ensures |text| != 64 ==> r == Err(WrongLength(|text|))
    ensures |text| == 64 && r.Err? ==>
              && r.error.NotLowercaseHex? && r.error.at < 64 && !IsHexDigit(text[r.error.at])
              && forall i | 0 <= i < r.error.at :: IsHexDigit(text[i])
  {
    if |text| != 64 {
      return Err(WrongLength(|text|));
    }
    var bytes: seq<Byte> := seq(32, _ => 0);
    for at := 0 to 64
      invariant |bytes| == 32
      invariant forall i | 0 <= i < at :: IsHexDigit(text[i])
      invariant forall i | 0 <= i < at :: Half(bytes, i) == Nibble(text[i])
      invariant forall i | (at + 1) / 2 <= i < 32 :: bytes[i] == 0
      invariant at % 2 == 1 ==> bytes[at / 2] % 16 == 0
    {
      if !IsHexDigit(text[at]) {
        return Err(NotLowercaseHex(at));
      }
      var nibble := Nibble(text[at]);
      var added := if at % 2 == 0 then nibble * 16 else nibble;
      bytes := bytes[at / 2 := bytes[at / 2] + added];
    }
    forall i | 0 <= i < 64 ensures HexDigit(Half(bytes, i)) == text[i] {}
    r := Ok(bytes);
  }

  /** Hexadecimal text is injective, so with `ParseHex` it is a bijection onto its range. */
  lemma HexIsInjective(a: Digest, b: Digest)
    requires Hex(a) == Hex(b)
    ensures a == b
  {
    forall k | 0 <= k < 32 ensures a[k] == b[k] {
      assert Nibble(Hex(a)[2 * k]) == a[k] / 16 && Nibble(Hex(a)[2 * k + 1]) == a[k] % 16;
      assert Nibble(Hex(b)[2 * k]) == b[k] / 16 && Nibble(Hex(b)[2 * k + 1]) == b[k] % 16;
    }
  }
}
