/**
 * UTF-8 as the platform's text encoder and decoder write and read it: section 8 of the Encoding Standard. The decoder
 * is total: a byte sequence that is no text gives U+FFFD for each part of it that begins like a character.
 */
module Utf8 {
  import opened Basics

  type Byte = n: int | 0 <= n < 256

  function EncodeChar(c: char): (bytes: seq<Byte>)
    ensures 1 <= |bytes| <= 4
    ensures c as int < 0x80 ==> bytes == [c as int]
    ensures c as int >= 0x80 ==> forall b :: b in bytes ==> b >= 0x80
  {
    var n := c as int;
    if n < 0x80 then [n]
    else if n < 0x800 then [0xC0 + n / 64, 0x80 + n % 64]
    else if n < 0x10000 then [0xE0 + n / 4096, 0x80 + n / 64 % 64, 0x80 + n % 64]
    else [0xF0 + n / 262144, 0x80 + n / 4096 % 64, 0x80 + n / 64 % 64, 0x80 + n % 64]
  }

  function Encode(s: string): seq<Byte> {
    if s == [] then [] else EncodeChar(s[0]) + Encode(s[1..])
  }

  /** What a first byte says of the bytes after it: how many there are, and the range of the first of them. */
  datatype Lead = Lead(needed: nat, lower: Byte, upper: Byte, bits: nat)

  function LeadOf(b: Byte): (lead: Option<Lead>) {
    if 0xC2 <= b <= 0xDF then Some(Lead(1, 0x80, 0xBF, b - 0xC0))
    else if 0xE0 <= b <= 0xEF then
      Some(Lead(2, if b == 0xE0 then 0xA0 else 0x80, if b == 0xED then 0x9F else 0xBF, b - 0xE0))
    else if 0xF0 <= b <= 0xF4 then
      Some(Lead(3, if b == 0xF0 then 0x90 else 0x80, if b == 0xF4 then 0x8F else 0xBF, b - 0xF0))
    else None
  }

  /** How many of the `needed` bytes that should follow do follow. */
  function Following(bytes: seq<Byte>, needed: nat, lower: Byte, upper: Byte): (k: nat)
    ensures k <= needed && k <= |bytes|
    ensures k > 0 ==> lower <= bytes[0] <= upper
    ensures forall i :: 1 <= i < k ==> 0x80 <= bytes[i] <= 0xBF
    decreases needed
  {
    if needed == 0 || bytes == [] || !(lower <= bytes[0] <= upper) then 0
    else
      var k := Following(bytes[1..], needed - 1, 0x80, 0xBF);
      assert forall i :: 1 <= i < k + 1 ==> bytes[i] == bytes[1..][i - 1];
      1 + k
  }

  /** The six bits a following byte carries. */
  function Low(b: Byte): int {
    b as int - 0x80
  }

  /** The character of a whole sequence. */
  function Assemble(bits: nat, tail: seq<Byte>): int
    requires 1 <= |tail| <= 3
  {
    if |tail| == 1 then bits * 64 + Low(tail[0])
    else if |tail| == 2 then bits * 4096 + Low(tail[0]) * 64 + Low(tail[1])
    else bits * 262144 + Low(tail[0]) * 4096 + Low(tail[1]) * 64 + Low(tail[2])
  }

  function Decode(bytes: seq<Byte>): string
    decreases |bytes|
  {
    if bytes == [] then ""
    else if bytes[0] < 0x80 then [bytes[0] as char] + Decode(bytes[1..])
    else
      match LeadOf(bytes[0])
      case None => "\U{FFFD}" + Decode(bytes[1..])
      case Some(lead) =>
        var k := Following(bytes[1..], lead.needed, lead.lower, lead.upper);
        if k < lead.needed then "\U{FFFD}" + Decode(bytes[1 + k..])
        else [Assemble(lead.bits, bytes[1..1 + k]) as char] + Decode(bytes[1 + k..])
  }

  lemma {:induction false} SixBitDigits(n: nat)
    ensures n == n / 64 * 64 + n % 64
    ensures n / 64 == n / 4096 * 64 + n / 64 % 64
    ensures n / 4096 == n / 262144 * 64 + n / 4096 % 64
  {
    assert n / 4096 == n / 64 / 64;
    assert n / 262144 == n / 4096 / 64;
  }

  /** What the first byte of a written character says fits the bytes that follow it. */
  lemma {:induction false} LeadFits(c: char)
    requires c as int >= 0x80
    ensures var bytes := EncodeChar(c);
            && LeadOf(bytes[0]).Some?
            && var lead := LeadOf(bytes[0]).value;
            && lead.needed == |bytes| - 1
            && lead.lower <= bytes[1] <= lead.upper
            && (forall i :: 2 <= i < |bytes| ==> 0x80 <= bytes[i] <= 0xBF)
            && Assemble(lead.bits, bytes[1..]) == c as int
  {
    SixBitDigits(c as int);
  }

  /** The decoder takes one written character off the front of any bytes. */
  lemma {:induction false} DecodesFirst(c: char, rest: seq<Byte>)
    ensures Decode(EncodeChar(c) + rest) == [c] + Decode(rest)
  {
    var bytes := EncodeChar(c) + rest;
    if c as int < 0x80 {
      assert bytes[1..] == rest;
    } else {
      LeadFits(c);
      var lead := LeadOf(bytes[0]).value;
      var n := lead.needed;
      assert bytes[1 + n..] == rest && bytes[1..1 + n] == EncodeChar(c)[1..];
      assert forall i :: 1 <= i < n ==> bytes[1..][i] == EncodeChar(c)[1 + i];
      FollowingAll(bytes[1..], n, lead.lower, lead.upper);
    }
  }

  lemma {:induction false} FollowingAll(bytes: seq<Byte>, needed: nat, lower: Byte, upper: Byte)
    requires 1 <= needed <= |bytes|
    requires lower <= bytes[0] <= upper
    requires forall i :: 1 <= i < needed ==> 0x80 <= bytes[i] <= 0xBF
    ensures Following(bytes, needed, lower, upper) == needed
  {
    if needed > 1 {
      FollowingAll(bytes[1..], needed - 1, 0x80, 0xBF);
    }
  }

  /** Every text is read back from its bytes. */
  lemma {:induction false} RoundTrip(s: string)
    ensures Decode(Encode(s)) == s
  {
    if s != [] {
      RoundTrip(s[1..]);
      DecodesFirst(s[0], Encode(s[1..]));
    }
  }

  lemma {:induction false} EncodeConcat(a: string, b: string)
    ensures Encode(a + b) == Encode(a) + Encode(b)
  {
    if a == [] {
      assert a + b == b;
    } else {
      assert a + b == [a[0]] + (a[1..] + b);
      EncodeConcat(a[1..], b);
      assert EncodeChar(a[0]) + (Encode(a[1..]) + Encode(b)) == (EncodeChar(a[0]) + Encode(a[1..])) + Encode(b);
    }
  }
}
