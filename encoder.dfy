/**
 * The encoder's entry points. The conversion loop fills a character buffer eight
 * symbols per five input bytes and finishes with the tail switch; the public methods
 * check their arguments, size the output and call it. The input bytes are only read,
 * so they are passed as a sequence; the output buffer is an array written in place.
 */
module Encoder {
  import opened Wrappers
  import opened Tables
  import opened Lengths
  import opened Encoding
  import opened Splicing

  /** One iteration of the conversion loop: the eight symbols of the group g are
      written to outChars[at..at+8] and nothing else changes. */
  method ConvertGroup(outChars: array<Char16>, at: nat, g: seq<Byte>)
    requires |g| == 5 && at + 8 <= outChars.Length
    modifies outChars
    ensures outChars[..] == Splice(old(outChars[..]), at, Symbols(GroupValues(g)))
  {
    outChars[at + 0] := Symbol((g[0] & 0xF8) >> 3);
    outChars[at + 1] := Symbol(((g[0] & 0x07) << 2) | ((g[1] & 0xC0) >> 6));
    outChars[at + 2] := Symbol((g[1] & 0x3E) >> 1);
    outChars[at + 3] := Symbol(((g[1] & 0x01) << 4) | ((g[2] & 0xF0) >> 4));
    outChars[at + 4] := Symbol(((g[2] & 0x0F) << 1) | ((g[3] & 0x80) >> 7));
    outChars[at + 5] := Symbol((g[3] & 0x7C) >> 2);
    outChars[at + 6] := Symbol(((g[3] & 0x03) << 3) | ((g[4] & 0xE0) >> 5));
    outChars[at + 7] := Symbol(g[4] & 0x1F);
    Writes8(old(outChars[..]), at, Symbols(GroupValues(g)));
  }

  /** The tail switch on lengthmod5: a trailing group t of 4, 3, 2 or 1 bytes is
      written as 7, 5, 4 or 2 symbols at outChars[at..], and the count is returned. */
  method ConvertTail(outChars: array<Char16>, at: nat, t: seq<Byte>, lengthmod5: nat) returns (n: nat)
    requires 1 <= lengthmod5 <= 4 && |t| == lengthmod5
    requires at + TailSymbols(lengthmod5) <= outChars.Length
    modifies outChars
    ensures n == TailSymbols(lengthmod5)
    ensures outChars[..] == Splice(old(outChars[..]), at, Symbols(TailValues(t)))
  {
    match lengthmod5
    case 4 =>
      outChars[at + 0] := Symbol((t[0] & 0xF8) >> 3);
      outChars[at + 1] := Symbol(((t[0] & 0x07) << 2) | ((t[1] & 0xC0) >> 6));
      outChars[at + 2] := Symbol((t[1] & 0x3E) >> 1);
      outChars[at + 3] := Symbol(((t[1] & 0x01) << 4) | ((t[2] & 0xF0) >> 4));
      outChars[at + 4] := Symbol(((t[2] & 0x0F) << 1) | ((t[3] & 0x80) >> 7));
      outChars[at + 5] := Symbol((t[3] & 0x7C) >> 2);
      outChars[at + 6] := Symbol((t[3] & 0x03) << 3);
      EncodeTailSwitch4(t);
      Writes7(old(outChars[..]), at, Symbols(TailValues(t)));
      n := 7;
    case 3 =>
      outChars[at + 0] := Symbol((t[0] & 0xF8) >> 3);
      outChars[at + 1] := Symbol(((t[0] & 0x07) << 2) | ((t[1] & 0xC0) >> 6));
      outChars[at + 2] := Symbol((t[1] & 0x3E) >> 1);
      outChars[at + 3] := Symbol(((t[1] & 0x01) << 4) | ((t[2] & 0xF0) >> 4));
      outChars[at + 4] := Symbol((t[2] & 0x0F) << 1);
      EncodeTailSwitch3(t);
      Writes5(old(outChars[..]), at, Symbols(TailValues(t)));
      n := 5;
    case 2 =>
      outChars[at + 0] := Symbol((t[0] & 0xF8) >> 3);
      outChars[at + 1] := Symbol(((t[0] & 0x07) << 2) | ((t[1] & 0xC0) >> 6));
      outChars[at + 2] := Symbol((t[1] & 0x3E) >> 1);
      outChars[at + 3] := Symbol((t[1] & 0x01) << 4);
      EncodeTailSwitch2(t);
      Writes4(old(outChars[..]), at, Symbols(TailValues(t)));
      n := 4;
    case 1 =>
      outChars[at + 0] := Symbol((t[0] & 0xF8) >> 3);
      outChars[at + 1] := Symbol((t[0] & 0x07) << 2);
      EncodeTailSwitch1(t);
      Writes2(old(outChars[..]), at, Symbols(TailValues(t)));
      n := 2;
  }

  /** The symbols of k whole groups of data from position lo on, group by group. */
  function EncodeGroups(data: seq<Byte>, lo: nat, k: nat): (r: seq<Char16>)
    requires lo + 5 * k <= |data|
    ensures |r| == 8 * k
  {
    if k == 0 then []
    else EncodeGroups(data, lo, k - 1) + Symbols(GroupValues(data[lo + 5 * (k - 1)..lo + 5 * k]))
  }

  /** Encoding k whole groups group by group is encoding them at once. */
  lemma {:induction false} EncodeGroupsIsEncode(data: seq<Byte>, lo: nat, k: nat)
    requires lo + 5 * k <= |data|
    ensures EncodeGroups(data, lo, k) == Encode(data[lo..lo + 5 * k])
  {
    if k > 0 {
      EncodeGroupsIsEncode(data, lo, k - 1);
      EncodeGroupsNext(data, lo, k);
    }
  }

  /** The inductive step: one group more on both sides. */
  lemma EncodeGroupsNext(data: seq<Byte>, lo: nat, k: nat)
    requires 0 < k && lo + 5 * k <= |data|
    requires EncodeGroups(data, lo, k - 1) == Encode(data[lo..lo + 5 * (k - 1)])
    ensures EncodeGroups(data, lo, k) == Encode(data[lo..lo + 5 * k])
  {
    EncodeGroupStep(data, lo, lo + 5 * (k - 1), lo + 5 * k, k - 1);
  }

  /** One group more, starting at position i. */
  lemma EncodeGroupsAppendOne(data: seq<Byte>, lo: nat, k: nat, i: nat)
    requires i == lo + 5 * k && i + 5 <= |data|
    ensures EncodeGroups(data, lo, k + 1) == EncodeGroups(data, lo, k) + Symbols(GroupValues(data[i..i + 5]))
  {
  }

  /** The conversion loop: the symbols of the first `groups` whole groups of
      inData[offset..] are written to outChars from outStart on, eight per group, and
      nothing else changes. */
  method ConvertGroups(outChars: array<Char16>, outStart: nat, inData: seq<Byte>,
                       offset: nat, groups: nat)
    requires offset + 5 * groups <= |inData|
    requires outStart + 8 * groups <= outChars.Length
    modifies outChars
    ensures outChars[..] == Splice(old(outChars[..]), outStart, EncodeGroups(inData, offset, groups))
  {
    var calcLength := offset + 5 * groups;
    var i, j := offset, 0;
    ghost var k := 0;
    while i < calcLength
      invariant 0 <= k <= groups && i == offset + 5 * k && j == 8 * k
      invariant outChars[..] == Splice(old(outChars[..]), outStart, EncodeGroups(inData, offset, k))
    {
      ConvertGroupAt(outChars, outStart, inData, offset, k, i, j, old(outChars[..]));
      i := i + 5;
      j := j + 8;
      k := k + 1;
    }
  }

  /** One iteration of the conversion loop: the symbols of group k, read from
      inData[i..i+5], are written at outChars[outStart+j..] right after those of the
      groups before it. */
  method ConvertGroupAt(outChars: array<Char16>, outStart: nat, inData: seq<Byte>, offset: nat,
                        ghost k: nat, i: nat, j: nat, ghost d0: seq<Char16>)
    requires i == offset + 5 * k && j == 8 * k && i + 5 <= |inData|
    requires outStart + j + 8 <= outChars.Length == |d0|
    requires outChars[..] == Splice(d0, outStart, EncodeGroups(inData, offset, k))
    modifies outChars
    ensures outChars[..] == Splice(d0, outStart, EncodeGroups(inData, offset, k + 1))
  {
    var g := inData[i..i + 5];
    ConvertGroup(outChars, outStart + j, g);
    EncodeGroupsAppendOne(inData, offset, k, i);
    SpliceTwice(d0, outStart, EncodeGroups(inData, offset, k), outStart + j, Symbols(GroupValues(g)));
  }

  lemma GroupsThenTail(s: seq<Char16>, at: nat, data: seq<Byte>, lo: nat, k: nat,
                       r: nat, hi: nat, len: nat)
    requires 1 <= r <= 4 && hi == lo + 5 * k + r && hi == lo + len && hi <= |data|
    requires at + 8 * k + TailSymbols(r) <= |s| && at + EncodedLength(len) <= |s|
    ensures Splice(Splice(s, at, EncodeGroups(data, lo, k)), at + 8 * k,
                   Symbols(TailValues(data[lo + 5 * k..hi]))) ==
            Splice(s, at, Encode(data[lo..hi]))
  {
    EncodeGroupsIsEncode(data, lo, k);
    EncodeTailStep(data, lo, lo + 5 * k, hi, k);
    SpliceTwice(s, at, EncodeGroups(data, lo, k), at + 8 * k, Symbols(TailValues(data[lo + 5 * k..hi])));
  }

  /** Without a tail the groups written by the loop are the encoding of the range. */
  lemma GroupsOnly(s: seq<Char16>, at: nat, data: seq<Byte>, lo: nat, k: nat, hi: nat, len: nat)
    requires hi == lo + 5 * k && hi == lo + len && hi <= |data|
    requires at + 8 * k <= |s| && at + EncodedLength(len) <= |s|
    ensures Splice(s, at, EncodeGroups(data, lo, k)) == Splice(s, at, Encode(data[lo..hi]))
  {
    EncodeGroupsIsEncode(data, lo, k);
    assert data[lo..hi] == data[lo..lo + 5 * k];
  }

  /** The conversion: the symbols of inData[offset..offset+length] are written to
      outChars from outStart on, five bytes to eight symbols at a time and then the
      tail, and their count is returned. Nothing else in outChars changes. */
  method ConvertToBase32Array(outChars: array<Char16>, outStart: nat, inData: seq<Byte>,
                              offset: nat, length: nat) returns (j: nat)
    requires offset + length <= |inData|
    requires outStart + EncodedLength(length) <= outChars.Length
    modifies outChars
    ensures j == EncodedLength(length)
    ensures outChars[..] ==
      Splice(old(outChars[..]), outStart, Encode(inData[offset..offset + length]))
  {
    var lengthmod5 := length % 5;
    var groups := length / 5;
    EncodedLengthClosedForm(length);
    ConvertGroups(outChars, outStart, inData, offset, groups);
    j := 8 * groups;
    if lengthmod5 != 0 {
      var n := ConvertTail(outChars, outStart + 8 * groups,
                           inData[offset + 5 * groups..offset + length], lengthmod5);
      GroupsThenTail(old(outChars[..]), outStart, inData, offset, groups, lengthmod5,
                     offset + length, length);
      j := j + n;
    } else {
      GroupsOnly(old(outChars[..]), outStart, inData, offset, groups, offset + length, length);
    }
  }

  /** The length check the public methods share, in terms of the largest input whose
      encoding fits in an int. */
  lemma OutputLengthOf(length: int)
    requires 0 <= length <= IntMax
    ensures OutputLength(length).Success? <==> length <= MaxEncodable
    ensures OutputLength(length).Success? ==> OutputLength(length).value == EncodedLength(length)
  {
    OutputLengthLimit(length);
  }

  /** The largest input the encoder accepts: its encoding is int.MaxValue symbols. */
  const MaxEncodable: int := 1_342_177_279

  /** ToBase32String(inArray, offset, length): the argument checks in the order the C# code
      makes them, then the encoding of inArray[offset..offset+length] in a new string. */
  method ToBase32StringRange(inArray: seq<Byte>, offset: int, length: int)
    returns (r: Result<seq<Char16>>)
    requires |inArray| <= IntMax
    ensures length < 0 ==> r == Failure(ArgumentOutOfRange("length"))
    ensures 0 <= length && offset < 0 ==> r == Failure(ArgumentOutOfRange("offset"))
    ensures 0 <= length && 0 <= offset && offset > |inArray| - length ==>
      r == Failure(ArgumentOutOfRange("offset"))
    ensures 0 <= length && 0 <= offset <= |inArray| - length && length > MaxEncodable ==>
      r == Failure(OutOfMemory)
    ensures 0 <= length && 0 <= offset <= |inArray| - length && length <= MaxEncodable ==>
      r == Success(Encode(inArray[offset..offset + length]))
  {
    if length < 0 {
      return Failure(ArgumentOutOfRange("length"));
    }
    if offset < 0 {
      return Failure(ArgumentOutOfRange("offset"));
    }
    var inArrayLength := |inArray|;
    if offset > inArrayLength - length {
      return Failure(ArgumentOutOfRange("offset"));
    }
    if inArrayLength == 0 {
      assert inArray[offset..offset + length] == [];
      return Success([]);
    }
    OutputLengthOf(length);
    var stringLength := OutputLength(length);
    if stringLength.Failure? {
      return Failure(stringLength.error);
    }
    var outChars := new Char16[stringLength.value](_ => 0);
    ghost var blank := outChars[..];
    var j := ConvertToBase32Array(outChars, 0, inArray, offset, length);
    SpliceAll(blank, Encode(inArray[offset..offset + length]));
    return Success(outChars[..]);
  }

  /** ToBase32String(inArray): the whole array. */
  method ToBase32String(inArray: seq<Byte>) returns (r: Result<seq<Char16>>)
    requires |inArray| <= IntMax
    ensures |inArray| <= MaxEncodable ==> r == Success(Encode(inArray))
    ensures |inArray| > MaxEncodable ==> r == Failure(OutOfMemory)
  {
    r := ToBase32StringRange(inArray, 0, |inArray|);
    assert inArray[0..|inArray|] == inArray;
  }

  /** ToBase32CharArray: the argument checks in the order the C# code makes them, then
      the encoding of inArray[offsetIn..offsetIn+length] written to outArray from
      offsetOut on; the result is the number of symbols written. */
  method ToBase32CharArray(inArray: seq<Byte>, offsetIn: int, length: int,
                           outArray: array<Char16>, offsetOut: int) returns (r: Result<int>)
    requires |inArray| <= IntMax && outArray.Length <= IntMax
    modifies outArray
    ensures length < 0 ==> r == Failure(ArgumentOutOfRange("length"))
    ensures 0 <= length && offsetIn < 0 ==> r == Failure(ArgumentOutOfRange("offsetIn"))
    ensures 0 <= length && 0 <= offsetIn && offsetOut < 0 ==>
      r == Failure(ArgumentOutOfRange("offsetOut"))
    ensures 0 <= length && 0 <= offsetIn && 0 <= offsetOut && offsetIn > |inArray| - length ==>
      r == Failure(ArgumentOutOfRange("offsetIn"))
    ensures 0 <= length && 0 <= offsetIn && 0 <= offsetOut && offsetIn <= |inArray| - length ==>
      if |inArray| == 0 then r == Success(0)
      else if length > MaxEncodable then r == Failure(OutOfMemory)
      else if offsetOut > outArray.Length - EncodedLength(length) then
        r == Failure(ArgumentOutOfRange("offsetOut"))
      else if offsetOut == outArray.Length then r == Failure(IndexOutOfRange)
      else r == Success(EncodedLength(length))
    ensures r.Success? ==> 0 <= r.value <= outArray.Length
    ensures r.Success? && |inArray| > 0 ==>
      0 <= offsetIn && 0 <= length && offsetIn + length <= |inArray| &&
      0 <= offsetOut && offsetOut + EncodedLength(length) <= outArray.Length &&
      outArray[..] == Splice(old(outArray[..]), offsetOut, Encode(inArray[offsetIn..offsetIn + length]))
    ensures r.Failure? || |inArray| == 0 ==> outArray[..] == old(outArray[..])
  {
    if length < 0 {
      return Failure(ArgumentOutOfRange("length"));
    }
    if offsetIn < 0 {
      return Failure(ArgumentOutOfRange("offsetIn"));
    }
    if offsetOut < 0 {
      return Failure(ArgumentOutOfRange("offsetOut"));
    }
    var inArrayLength := |inArray|;
    if offsetIn > inArrayLength - length {
      return Failure(ArgumentOutOfRange("offsetIn"));
    }
    if inArrayLength == 0 {
      return Success(0);
    }
    var outArrayLength := outArray.Length;
    OutputLengthOf(length);
    var numElementsToCopy := OutputLength(length);
    if numElementsToCopy.Failure? {
      return Failure(numElementsToCopy.error);
    }
    if offsetOut > outArrayLength - numElementsToCopy.value {
      return Failure(ArgumentOutOfRange("offsetOut"));
    }
    // Taking the address of outArray[offsetOut] needs an element at offsetOut.
    if offsetOut == outArrayLength {
      return Failure(IndexOutOfRange);
    }
    var retVal := ConvertToBase32Array(outArray, offsetOut, inArray, offsetIn, length);
    return Success(retVal);
  }

  /** Three five-byte groups and a one-byte tail: the layout of a 16-byte identifier. */
  lemma GuidLayout(id: seq<Byte>)
    requires |id| == 16
    ensures Encode(id) == Symbols(GroupValues(id[0..5])) + Symbols(GroupValues(id[5..10])) +
                          Symbols(GroupValues(id[10..15])) + Symbols(TailValues(id[15..16]))
  {
    EncodeGroupsIsEncode(id, 0, 3);
    EncodeTailStep(id, 0, 15, 16, 3);
    assert id[0..16] == id;
  }

  /** Four consecutive writes that tile a 26-element sequence replace all of it. */
  lemma SplicesTile<T>(s: seq<T>, a: seq<T>, b: seq<T>, c: seq<T>, d: seq<T>)
    requires |s| == 26 && |a| == 8 && |b| == 8 && |c| == 8 && |d| == 2
    ensures Splice(Splice(Splice(Splice(s, 0, a), 8, b), 16, c), 24, d) == a + b + c + d
  {
  }

  /** ToBase32String(Guid): the 16 bytes of the identifier written out as 26 symbols by
      straight-line code, three whole groups and the one-byte tail case. */
  method ToBase32StringGuid(inData: seq<Byte>) returns (r: seq<Char16>)
    requires |inData| == 16
    ensures |r| == 26
    ensures r == Encode(inData)
  {
    var outChars := new Char16[26](_ => 0);
    ghost var blank := outChars[..];
    ConvertGroup(outChars, 0, inData[0..5]);
    ConvertGroup(outChars, 8, inData[5..10]);
    ConvertGroup(outChars, 16, inData[10..15]);
    var n := ConvertTail(outChars, 24, inData[15..16], 1);
    SplicesTile(blank, Symbols(GroupValues(inData[0..5])), Symbols(GroupValues(inData[5..10])),
                Symbols(GroupValues(inData[10..15])), Symbols(TailValues(inData[15..16])));
    GuidLayout(inData);
    r := outChars[..];
  }
}
