/**
 * What the decoder computes, as functions: trailing blanks and '=' are trimmed, the
 * remaining length is checked, every character is looked up through the reverse table
 * and rejected when the value has one of its top three bits set, and each group of
 * eight 5-bit values is put back together into five bytes; a trailing group of 2, 4,
 * 5 or 7 values gives 1, 2, 3 or 4 bytes.
 */
module Decoding {
  import opened Wrappers
  import opened Tables
  import opened Lengths
  import opened Encoding

  /** The characters the decoder strips from the end of its input. */
  predicate IsTrimChar(c: Char16)
    ensures IsTrimChar(c) ==> !Accepted(c)
  {
    c == ' ' as int || c == '\n' as int || c == '\r' as int || c == '\t' as int || c == '=' as int
  }

  /** The input without its trailing run of trim characters: the longest prefix that
      does not end in one. */
  function TrimEnd(s: seq<Char16>): (r: seq<Char16>)
    ensures |r| <= |s| && r == s[..|r|]
    ensures |r| == 0 || !IsTrimChar(r[|r| - 1])
    ensures forall i :: |r| <= i < |s| ==> IsTrimChar(s[i])
    decreases |s|
  {
    if |s| == 0 || !IsTrimChar(s[|s| - 1]) then s else TrimEnd(s[..|s| - 1])
  }

  /** The decoder's test on a retained character: its looked-up value has none of the
      top three bits set. */
  predicate Accepted(c: Char16)
    ensures Accepted(c) <==> Lookup(c) < 32
  {
    Lookup(c) & 0xE0 == 0
  }

  predicate AllAccepted(t: seq<Char16>)
  {
    forall i :: 0 <= i < |t| ==> Accepted(t[i])
  }

  /** The looked-up value of every character. */
  function LookupAll(t: seq<Char16>): (r: seq<Byte>)
    ensures |r| == |t|
    ensures AllAccepted(t) ==> AllValues(r)
  {
    seq(|t|, i requires 0 <= i < |t| => Lookup(t[i]))
  }

  /** Byte m of a group of eight values: the shifts and ors the decoder applies; each
      left shift drops the bits that leave the byte, as the byte casts do. */
  function GroupByte(v: seq<Byte>, m: nat): Byte
    requires |v| == 8 && m < 5
  {
    match m
    case 0 => (v[0] << 3) | (v[1] >> 2)
    case 1 => (v[1] << 6) | (v[2] << 1) | (v[3] >> 4)
    case 2 => (v[3] << 4) | (v[4] >> 1)
    case 3 => (v[4] << 7) | (v[5] << 2) | (v[6] >> 3)
    case 4 => (v[6] << 5) | v[7]
  }

  /** The five bytes of a group of eight values. */
  function GroupBytes(v: seq<Byte>): (r: seq<Byte>)
    requires |v| == 8
    ensures |r| == 5
  {
    seq(5, m requires 0 <= m < 5 => GroupByte(v, m))
  }

  /** The decoder's byte assembly is the inverse view of the encoder's layout: the five
      bytes of eight 5-bit values are exactly their 40 bits, read big-endian. */
  lemma GroupBytesLayout(v: seq<Byte>)
    requires |v| == 8 && AllValues(v)
    ensures PackBytes(GroupBytes(v)) == PackValues(v)
  {
  }

  /** The bytes of a trailing group of 2, 4, 5 or 7 values: the whole bytes among their
      bits, read as from the zero-completed group; the last value's bits that do not
      fill a byte are dropped. */
  function TailDecode(v: seq<Byte>): (r: seq<Byte>)
    requires 0 < |v| < 8 && ValidSymbolCount(|v|)
    ensures |r| == TailBytes(|v|)
  {
    seq(TailBytes(|v|), m requires 0 <= m < TailBytes(|v|) => GroupByte(PadValues(v), m))
  }

  /** The decoder's tail switch: for 7, 5, 4 and 2 trailing values it assembles 4, 3,
      2 and 1 bytes with the group's shifts, and none of them reads a missing value. */
  lemma DecodeTailSwitch7(v: seq<Byte>)
    requires |v| == 7
    ensures TailDecode(v) == [
      (v[0] << 3) | (v[1] >> 2),
      (v[1] << 6) | (v[2] << 1) | (v[3] >> 4),
      (v[3] << 4) | (v[4] >> 1),
      (v[4] << 7) | (v[5] << 2) | (v[6] >> 3) ]
  {
    var w := PadValues(v);
    assert w[0] == v[0] && w[1] == v[1] && w[2] == v[2] && w[3] == v[3];
    assert w[4] == v[4] && w[5] == v[5] && w[6] == v[6];
  }

  lemma DecodeTailSwitch5(v: seq<Byte>)
    requires |v| == 5
    ensures TailDecode(v) == [
      (v[0] << 3) | (v[1] >> 2),
      (v[1] << 6) | (v[2] << 1) | (v[3] >> 4),
      (v[3] << 4) | (v[4] >> 1) ]
  {
    var w := PadValues(v);
    assert w[0] == v[0] && w[1] == v[1] && w[2] == v[2] && w[3] == v[3] && w[4] == v[4];
  }

  lemma DecodeTailSwitch4(v: seq<Byte>)
    requires |v| == 4
    ensures TailDecode(v) == [
      (v[0] << 3) | (v[1] >> 2),
      (v[1] << 6) | (v[2] << 1) | (v[3] >> 4) ]
  {
    var w := PadValues(v);
    assert w[0] == v[0] && w[1] == v[1] && w[2] == v[2] && w[3] == v[3];
  }

  lemma DecodeTailSwitch2(v: seq<Byte>)
    requires |v| == 2
    ensures TailDecode(v) == [ (v[0] << 3) | (v[1] >> 2) ]
  {
    var w := PadValues(v);
    assert w[0] == v[0] && w[1] == v[1];
  }

  /** The bytes of a sequence of values: full groups first, then the tail. */
  function DecodeValues(vs: seq<Byte>): (r: seq<Byte>)
    requires ValidSymbolCount(|vs|)
    ensures |r| == DecodedSize(|vs|)
    decreases |vs|
  {
    if |vs| == 0 then []
    else if |vs| < 8 then TailDecode(vs)
    else
      ValidSymbolCountStep(|vs|);
      GroupBytes(vs[..8]) + DecodeValues(vs[8..])
  }

  /** Decoding a string: the length is checked before any symbol is looked up. */
  function Decode(s: seq<Char16>): (r: Result<seq<Byte>>)
    ensures r.Failure? ==> r.error == InvalidLength || r.error == InvalidSymbol
    ensures r.Success? ==> DecodedLength(|TrimEnd(s)|) == Some(|r.value|)
  {
    var t := TrimEnd(s);
    if !ValidSymbolCount(|t|) then Failure(InvalidLength)
    else if !AllAccepted(t) then Failure(InvalidSymbol)
    else Success(DecodeValues(LookupAll(t)))
  }
}
