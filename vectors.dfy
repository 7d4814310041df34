/**
 * Concrete encodings and decodings the library's own tests rely on, stated about the
 * specification functions; the methods are tied to those functions by their contracts.
 * Strings are written as their UTF-16 code units.
 */
module Vectors {
  import opened Wrappers
  import opened Tables
  import opened Lengths
  import opened Encoding
  import opened Decoding
  import opened RoundTrip
  import opened Decoder

  /** The UTF-8 bytes of "hj", whose encoding is D1N0. */
  const HJ: seq<Byte> := [0x68, 0x6a]

  /** The UTF-8 bytes of "±". */
  const PlusMinus: seq<Byte> := [0xc2, 0xb1]

  /** The UTF-8 bytes of "Hello, world". */
  const HelloWorld: seq<Byte> :=
    [0x48, 0x65, 0x6c, 0x6c, 0x6f, 0x2c, 0x20, 0x77, 0x6f, 0x72, 0x6c, 0x64]

  /** "±" is RARG. */
  lemma EncodePlusMinus()
    ensures Encode(PlusMinus) == ['R' as int, 'A' as int, 'R' as int, 'G' as int]
  {
    EncodeTailSwitch2(PlusMinus);
    assert EncodeValues(PlusMinus) == [24, 10, 24, 16];
  }

  lemma DecodePlusMinus()
    ensures Decode(['R' as int, 'A' as int, 'R' as int, 'G' as int]) == Success(PlusMinus)
  {
    EncodePlusMinus();
    DecodeEncode(PlusMinus);
  }

  /** "Hello, world" is 91JPRV3F 5GG7EVVJ DHJ0: two whole groups and a two-byte tail. */
  lemma HelloWorldGroup0()
    ensures Encode(HelloWorld[..5]) ==
      ['9' as int, '1' as int, 'J' as int, 'P' as int, 'R' as int, 'V' as int, '3' as int, 'F' as int]
  {
    var g := HelloWorld[..5];
    assert g == [0x48, 0x65, 0x6c, 0x6c, 0x6f];
    EncodeValuesOfGroup(g);
    assert GroupValues(g) == [9, 1, 18, 22, 24, 27, 3, 15];
  }

  lemma HelloWorldGroup1()
    ensures Encode(HelloWorld[5..10]) ==
      ['5' as int, 'G' as int, 'G' as int, '7' as int, 'E' as int, 'V' as int, 'V' as int, 'J' as int]
  {
    var g := HelloWorld[5..10];
    assert g == [0x2c, 0x20, 0x77, 0x6f, 0x72];
    EncodeValuesOfGroup(g);
    assert GroupValues(g) == [5, 16, 16, 7, 14, 27, 27, 18];
  }

  lemma HelloWorldTail()
    ensures Encode(HelloWorld[10..]) == ['D' as int, 'H' as int, 'J' as int, '0' as int]
  {
    var t := HelloWorld[10..];
    assert t == [0x6c, 0x64];
    EncodeTailSwitch2(t);
    assert EncodeValues(t) == [13, 17, 18, 0];
  }

  lemma EncodeHelloWorld()
    ensures Encode(HelloWorld) ==
      ['9' as int, '1' as int, 'J' as int, 'P' as int, 'R' as int, 'V' as int, '3' as int, 'F' as int] +
      ['5' as int, 'G' as int, 'G' as int, '7' as int, 'E' as int, 'V' as int, 'V' as int, 'J' as int] +
      ['D' as int, 'H' as int, 'J' as int, '0' as int]
  {
    var d := HelloWorld;
    assert d == d[..5] + (d[5..10] + d[10..]);
    EncodeAppend(d[..5], d[5..10] + d[10..], 1);
    EncodeAppend(d[5..10], d[10..], 1);
    HelloWorldGroup0();
    HelloWorldGroup1();
    HelloWorldTail();
  }

  lemma DecodeHelloWorld()
    ensures Decode(
      ['9' as int, '1' as int, 'J' as int, 'P' as int, 'R' as int, 'V' as int, '3' as int, 'F' as int] +
      ['5' as int, 'G' as int, 'G' as int, '7' as int, 'E' as int, 'V' as int, 'V' as int, 'J' as int] +
      ['D' as int, 'H' as int, 'J' as int, '0' as int]) == Success(HelloWorld)
  {
    EncodeHelloWorld();
    DecodeEncode(HelloWorld);
  }

  /** The 5-bit values of D1N0, the encoding of "hj". */
  const HJValues: seq<Byte> := [13, 1, 21, 0]

  lemma EncodeHJ()
    ensures Encode(HJ) == ['D' as int, '1' as int, 'N' as int, '0' as int]
  {
    EncodeTailSwitch2(HJ);
    assert EncodeValues(HJ) == HJValues;
  }

  /** Any four characters, the last not a trim character, that look up to the values of
      D1N0 decode to "hj". */
  lemma DecodesToHJ(a: Char16, b: Char16, c: Char16, d: Char16)
    requires Lookup(a) == 13 && Lookup(b) == 1 && Lookup(c) == 21 && Lookup(d) == 0
    requires !IsTrimChar(d)
    ensures Decode([a, b, c, d]) == Success(HJ)
  {
    var s := [a, b, c, d];
    assert TrimEnd(s) == s;
    assert LookupAll(s) == HJValues;
    DecodeTailSwitch4(HJValues);
  }

  lemma DecodeDirect()
    ensures Decode(['D' as int, '1' as int, 'N' as int, '0' as int]) == Success(HJ)
  {
    DecodesToHJ('D' as int, '1' as int, 'N' as int, '0' as int);
  }

  /** Letters may be lower case. */
  lemma DecodeLowerCase()
    ensures Decode(['d' as int, '1' as int, 'n' as int, '0' as int]) == Success(HJ)
  {
    DecodesToHJ('d' as int, '1' as int, 'n' as int, '0' as int);
  }

  /** O and o stand for 0. */
  lemma DecodeLetterO()
    ensures Decode(['D' as int, '1' as int, 'N' as int, 'O' as int]) == Success(HJ)
    ensures Decode(['D' as int, '1' as int, 'N' as int, 'o' as int]) == Success(HJ)
  {
    DecodesToHJ('D' as int, '1' as int, 'N' as int, 'O' as int);
    DecodesToHJ('D' as int, '1' as int, 'N' as int, 'o' as int);
  }

  /** I and i stand for 1. */
  lemma DecodeLetterI()
    ensures Decode(['D' as int, 'i' as int, 'N' as int, '0' as int]) == Success(HJ)
    ensures Decode(['D' as int, 'I' as int, 'N' as int, '0' as int]) == Success(HJ)
  {
    DecodesToHJ('D' as int, 'i' as int, 'N' as int, '0' as int);
    DecodesToHJ('D' as int, 'I' as int, 'N' as int, '0' as int);
  }

  /** L and l stand for 1. */
  lemma DecodeLetterL()
    ensures Decode(['D' as int, 'l' as int, 'N' as int, '0' as int]) == Success(HJ)
    ensures Decode(['D' as int, 'L' as int, 'N' as int, '0' as int]) == Success(HJ)
  {
    DecodesToHJ('D' as int, 'l' as int, 'N' as int, '0' as int);
    DecodesToHJ('D' as int, 'L' as int, 'N' as int, '0' as int);
  }

  /** All of these at once. */
  lemma DecodeMixed()
    ensures Decode(['D' as int, 'i' as int, 'n' as int, 'o' as int]) == Success(HJ)
  {
    DecodesToHJ('D' as int, 'i' as int, 'n' as int, 'o' as int);
  }

  /** Only the low byte of a character is looked up: U+0144 reads as 'D'. */
  lemma DecodeLowByteAlias()
    ensures Decode([0x144, '1' as int, 'N' as int, '0' as int]) == Success(HJ)
  {
    DecodesToHJ(0x144, '1' as int, 'N' as int, '0' as int);
  }

  /** Trailing blanks and '=' are ignored. */
  lemma DecodePadded()
    ensures Decode(['D' as int, '1' as int, 'N' as int, '0' as int] +
                   [' ' as int, '\r' as int, '\n' as int, '\t' as int, '=' as int, '=' as int]) == Success(HJ)
  {
    DecodeIgnoresPadding(['D' as int, '1' as int, 'N' as int, '0' as int],
                         [' ' as int, '\r' as int, '\n' as int, '\t' as int, '=' as int, '=' as int]);
    DecodeDirect();
  }

  /** A blank inside the string is looked up like any other character. */
  lemma DecodeInnerBlank()
    ensures Decode(['D' as int, '1' as int, ' ' as int, 'N' as int, '0' as int]) == Failure(InvalidSymbol)
  {
    var t := ['D' as int, '1' as int, ' ' as int, 'N' as int, '0' as int];
    assert TrimEnd(t) == t;
    assert !Accepted(t[2]);
  }

  /** Three symbols cannot come from whole bytes; a bad length is reported even when a
      symbol is bad too. */
  lemma DecodeBadLength()
    ensures Decode(['A' as int, 'B' as int, 'C' as int]) == Failure(InvalidLength)
    ensures Decode(['A' as int, 'B' as int, '?' as int]) == Failure(InvalidLength)
  {
  }

  lemma DecodeBadSymbol()
    ensures Decode(['A' as int, 'B' as int, '?' as int, 'D' as int]) == Failure(InvalidSymbol)
  {
    var t := ['A' as int, 'B' as int, '?' as int, 'D' as int];
    assert TrimEnd(t) == t;
    assert !Accepted(t[2]);
  }

  /** The unused bits of the last symbol are not checked: 00 and 01 both decode to a
      zero byte, and only 00 is that byte's encoding. */
  lemma DecodeUnusedBits()
    ensures Decode(['0' as int, '0' as int]) == Success([0])
    ensures Decode(['0' as int, '1' as int]) == Success([0])
  {
    var zz, zo := ['0' as int, '0' as int], ['0' as int, '1' as int];
    assert TrimEnd(zz) == zz && TrimEnd(zo) == zo;
    assert LookupAll(zz) == [0, 0] && LookupAll(zo) == [0, 1];
    DecodeTailSwitch2([0, 0]);
    DecodeTailSwitch2([0, 1]);
  }

  lemma EncodeZero()
    ensures Encode([0]) == ['0' as int, '0' as int]
  {
    EncodeTailSwitch1([0]);
  }

  /** No bytes, no symbols; a string of padding alone decodes to no bytes. */
  lemma EncodeEmpty()
    ensures Encode([]) == []
    ensures Decode([]) == Success([])
    ensures Decode([' ' as int, '=' as int]) == Success([])
  {
  }

  /** An identifier's 26 symbols decode back to its 16 bytes, which the identifier
      constructor accepts. */
  lemma GuidRoundTrip(id: seq<Byte>)
    requires |id| == 16
    ensures |Encode(id)| == 26
    ensures Decode(Encode(id)) == Success(id)
    ensures NewGuid(Decode(Encode(id)).value) == Success(id)
  {
    DecodeEncode(id);
  }
}
