/** Texts as UTF-8 bytes: the encoder, a decoder, and the round trip between the two. */
module Encoding {
  import opened Wrappers
  import opened SliceNames

  type byte = x: int | 0 <= x < 256

  function Utf8Char(c: char): (bytes: seq<byte>)
    ensures |bytes| == CharBytes(c)
  {
    var n := c as int;
    if n < 0x80 then [n]
    else if n < 0x800 then [0xc0 + n / 64, 0x80 + n % 64]
    else if n < 0x1_0000 then [0xe0 + n / 4096, 0x80 + n / 64 % 64, 0x80 + n % 64]
    else [0xf0 + n / 262144, 0x80 + n / 4096 % 64, 0x80 + n / 64 % 64, 0x80 + n % 64]
  }

  function Utf8(text: string): (bytes: seq<byte>)
    ensures |bytes| == Utf8Length(text)
  {
    if text == "" then [] else Utf8(text[..|text| - 1]) + Utf8Char(text[|text| - 1])
  }

  /** How many bytes a character takes, by its first byte. */
  function LeadLength(first: int): nat {
    if first < 0x80 then 1 else if first < 0xe0 then 2 else if first < 0xf0 then 3 else 4
  }

  /** The scalar value of the first character: the low bits of its bytes, six for each continuation. */
  function ScalarAt(b: seq<int>): int
    requires b != [] && LeadLength(b[0]) <= |b|
  {
    if b[0] < 0x80 then b[0]
    else if b[0] < 0xe0 then 64 * (b[0] - 0xc0) + (b[1] - 0x80)
    else if b[0] < 0xf0 then 64 * (64 * (b[0] - 0xe0) + (b[1] - 0x80)) + (b[2] - 0x80)
    else 64 * (64 * (64 * (b[0] - 0xf0) + (b[1] - 0x80)) + (b[2] - 0x80)) + (b[3] - 0x80)
  }

  predicate IsScalar(n: int) {
    0 <= n < 0xd800 || 0xe000 <= n < 0x11_0000
  }

  function FromUtf8(b: seq<byte>): Option<string> {
    if b == [] then Some("")
    else if LeadLength(b[0]) > |b| || !IsScalar(ScalarAt(b)) then None
    else match FromUtf8(b[LeadLength(b[0])..])
      case None => None
      case Some(rest) => Some([ScalarAt(b) as char] + rest)
  }

  lemma CharDecodes(c: char, rest: seq<byte>)
    ensures var b := Utf8Char(c) + rest;
            && LeadLength(b[0]) == |Utf8Char(c)| && ScalarAt(b) == c as int && IsScalar(ScalarAt(b))
            && b[|Utf8Char(c)|..] == rest
  {
    SixBits(c as int);
  }

  lemma SixBits(n: int)
    requires 0 <= n < 0x11_0000
    ensures n == 64 * (n / 64) + n % 64
    ensures n / 64 == 64 * (n / 4096) + n / 64 % 64
    ensures n / 4096 == 64 * (n / 262144) + n / 4096 % 64
  {
  }

  lemma {:induction false} Utf8InTwo(a: string, b: string)
    ensures Utf8(a + b) == Utf8(a) + Utf8(b)
  {
    hide Utf8Char;
    if b == "" {
      assert a + b == a;
    } else {
      Utf8InTwo(a, b[..|b| - 1]);
      assert (a + b)[..|a + b| - 1] == a + b[..|b| - 1];
    }
  }

  /** Every text is decoded from its own bytes. */
  lemma {:induction false} Utf8RoundTrip(text: string)
    ensures FromUtf8(Utf8(text)) == Some(text)
  {
    hide Utf8Char, LeadLength, ScalarAt, IsScalar;
    if text != "" {
      var c, rest := text[0], text[1..];
      assert text == [c] + rest;
      Utf8InTwo([c], rest);
      OneCharacter(c);
      CharDecodes(c, Utf8(rest));
      Utf8RoundTrip(rest);
    }
  }

  lemma OneCharacter(c: char)
    ensures Utf8([c]) == Utf8Char(c) && |Utf8Char(c)| > 0
  {
    assert [c][..0] == "";
  }
}
