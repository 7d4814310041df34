/**
 * The decoder's entry points. The trim loop drops trailing blanks and '=', the length
 * switch sizes the result, and the decoding loop looks every character up through the
 * reverse table into an eight-value scratch buffer, rejects a value with any of its top
 * three bits set, and assembles five bytes per group of eight values and 1 to 4 bytes
 * from the tail. The input characters are only read, so they are passed as a sequence;
 * the scratch buffer and the result are arrays written in place.
 */
module Decoder {
  import opened Wrappers
  import opened Tables
  import opened Lengths
  import opened Decoding
  import opened Splicing

  // ---------------------------------------------------------------------------
  // Group by group, as the decoding loop goes.

  /** The bytes of the first k whole groups of eight characters of s. */
  function DecodeGroups(s: seq<Char16>, k: nat): (r: seq<Byte>)
    requires 8 * k <= |s|
    ensures |r| == 5 * k
  {
    DecodedSizeOfGroups(k);
    DecodeValues(LookupAll(s[..8 * k]))
  }

  /** The loop's step: the group written after the first k groups extends them. */
  lemma GroupWritten(d0: seq<Byte>, d1: seq<Byte>, d2: seq<Byte>, s: seq<Char16>, k: nat,
                     v: seq<Byte>)
    requires 8 * k + 8 <= |s| && 5 * k + 5 <= |d0|
    requires v == LookupAll(s[8 * k..8 * k + 8])
    requires d1 == Splice(d0, 0, DecodeGroups(s, k))
    requires d2 == Splice(d1, 5 * k, GroupBytes(v))
    ensures d2 == Splice(d0, 0, DecodeGroups(s, k + 1))
  {
    DecodeGroupStep(s, k);
    SpliceTwice(d0, 0, DecodeGroups(s, k), 5 * k, GroupBytes(v));
  }

  /** Looking characters up commutes with concatenation. */
  lemma LookupAllAppend(a: seq<Char16>, b: seq<Char16>)
    ensures LookupAll(a + b) == LookupAll(a) + LookupAll(b)
  {
    var l, r := LookupAll(a + b), LookupAll(a) + LookupAll(b);
    assert |l| == |r|;
    forall i | 0 <= i < |l| ensures l[i] == r[i] {
      if i < |a| {
        assert (a + b)[i] == a[i] && r[i] == LookupAll(a)[i];
      } else {
        assert (a + b)[i] == b[i - |a|] && r[i] == LookupAll(b)[i - |a|];
      }
    }
    assert l == r;
  }

  /** Decoding whole groups followed by any accepted length decodes each part. */
  lemma {:induction false} DecodeValuesAppend(a: seq<Byte>, b: seq<Byte>, groups: nat)
    requires |a| == 8 * groups && ValidSymbolCount(|b|)
    ensures ValidSymbolCount(|a + b|)
    ensures DecodeValues(a + b) == DecodeValues(a) + DecodeValues(b)
  {
    assert (|a| + |b|) % 8 == |b| % 8;
    if groups > 0 {
      assert (a + b)[..8] == a[..8];
      assert (a + b)[8..] == a[8..] + b;
      DecodeValuesAppend(a[8..], b, groups - 1);
    } else {
      assert a + b == b;
    }
  }

  /** One group of eight values is GroupBytes. */
  lemma DecodeValuesOfGroup(v: seq<Byte>)
    requires |v| == 8
    ensures DecodeValues(v) == GroupBytes(v)
  {
    assert v[..8] == v && v[8..] == [];
  }

  /** Decoding one group more of a prefix that ends on a group boundary appends that
      group's bytes. */
  lemma DecodeGroupStep(s: seq<Char16>, k: nat)
    requires 8 * k + 8 <= |s|
    ensures DecodeGroups(s, k + 1) == DecodeGroups(s, k) + GroupBytes(LookupAll(s[8 * k..8 * k + 8]))
  {
    var a, g := s[..8 * k], s[8 * k..8 * k + 8];
    assert s[..8 * (k + 1)] == a + g;
    LookupAllAppend(a, g);
    DecodeValuesAppend(LookupAll(a), LookupAll(g), k);
    DecodeValuesOfGroup(LookupAll(g));
  }

  /** Decoding a prefix of n characters whose last group is a tail of 2, 4, 5 or 7
      characters appends the tail's bytes to the whole groups'. */
  lemma DecodeTailStep(s: seq<Char16>, k: nat, n: nat)
    requires 8 * k < n <= |s| && n - 8 * k < 8 && ValidSymbolCount(n - 8 * k)
    ensures ValidSymbolCount(|s[..n]|)
    ensures DecodeValues(LookupAll(s[..n])) == DecodeGroups(s, k) + TailDecode(LookupAll(s[8 * k..n]))
  {
    var a, t := s[..8 * k], s[8 * k..n];
    assert s[..n] == a + t;
    LookupAllAppend(a, t);
    DecodeValuesAppend(LookupAll(a), LookupAll(t), k);
  }

  /** The whole groups written by the loop followed by the tail written by the switch
      are the decoding of the first n characters. */
  lemma GroupsThenTail(d: seq<Byte>, s: seq<Char16>, k: nat, r: nat, n: nat)
    requires 0 < r < 8 && ValidSymbolCount(r) && n == 8 * k + r && n <= |s|
    requires 5 * k + TailBytes(r) <= |d|
    ensures ValidSymbolCount(|s[..n]|) && |DecodeValues(LookupAll(s[..n]))| <= |d|
    ensures Splice(Splice(d, 0, DecodeGroups(s, k)), 5 * k, TailDecode(LookupAll(s[8 * k..n]))) ==
            Splice(d, 0, DecodeValues(LookupAll(s[..n])))
  {
    DecodeTailStep(s, k, n);
    SpliceTwice(d, 0, DecodeGroups(s, k), 5 * k, TailDecode(LookupAll(s[8 * k..n])));
  }

  /** Without a tail the groups written by the loop are the decoding. */
  lemma GroupsOnly(d: seq<Byte>, s: seq<Char16>, k: nat, n: nat)
    requires n == 8 * k && n <= |s| && 5 * k <= |d|
    ensures ValidSymbolCount(|s[..n]|) && |DecodeValues(LookupAll(s[..n]))| <= |d|
    ensures Splice(d, 0, DecodeGroups(s, k)) == Splice(d, 0, DecodeValues(LookupAll(s[..n])))
  {
    DecodedSizeOfGroups(k);
  }

  /** Every character of s[lo..hi] is accepted, read by position in s as the
      decoder reads its input through a pointer. */
  predicate AcceptedRange(s: seq<Char16>, lo: nat, hi: nat)
    requires lo <= hi <= |s|
  {
    forall j :: lo <= j < hi ==> Accepted(s[j])
  }

  /** A range is accepted exactly when both of its parts are. */
  lemma AcceptedRangeSplit(s: seq<Char16>, lo: nat, mid: nat, hi: nat)
    requires lo <= mid <= hi <= |s|
    ensures AcceptedRange(s, lo, hi) <==> AcceptedRange(s, lo, mid) && AcceptedRange(s, mid, hi)
  {
  }

  /** Accepting positions 0 to n of s is accepting the prefix s[..n]. */
  lemma AcceptedPrefix(s: seq<Char16>, n: nat)
    requires n <= |s|
    ensures AcceptedRange(s, 0, n) <==> AllAccepted(s[..n])
  {
    if AcceptedRange(s, 0, n) {
      forall i | 0 <= i < n ensures Accepted(s[..n][i]) {
        assert s[..n][i] == s[i];
      }
    } else {
      var j :| 0 <= j < n && !Accepted(s[j]);
      assert s[..n][j] == s[j];
    }
  }

  // ---------------------------------------------------------------------------
  // The decoding loop.

  /** The lookup loop, run on each group of eight characters and then on the tail:
      cbOut[j] receives the reverse table's value of input[p + j] for j below n, and
      the loop stops with false at the first value that has one of its top three
      bits set. */
  method LookupSymbols(input: seq<Char16>, p: nat, n: nat, cbOut: array<Byte>) returns (ok: bool)
    requires p + n <= |input| && n <= cbOut.Length
    modifies cbOut
    ensures ok <==> AcceptedRange(input, p, p + n)
    ensures ok ==> cbOut[..n] == LookupAll(input[p..p + n])
  {
    var j := 0;
    while j < n
      invariant 0 <= j <= n
      invariant forall q :: 0 <= q < j ==> cbOut[q] == Lookup(input[p + q])
      invariant AcceptedRange(input, p, p + j)
    {
      cbOut[j] := Lookup(input[p + j]);
      if cbOut[j] & 0xE0 != 0 {
        return false;
      }
      j := j + 1;
    }
    assert cbOut[..n] == LookupAll(input[p..p + n]);
    return true;
  }

  /** The five byte assignments of a group: dest[at..at+5] receives the bytes of the
      eight values in cbOut and nothing else changes. */
  method DecodeGroup(dest: array<Byte>, at: nat, v: seq<Byte>)
    requires |v| == 8 && at + 5 <= dest.Length
    modifies dest
    ensures dest[..] == Splice(old(dest[..]), at, GroupBytes(v))
  {
    dest[at + 0] := (v[0] << 3) | (v[1] >> 2);
    dest[at + 1] := (v[1] << 6) | (v[2] << 1) | (v[3] >> 4);
    dest[at + 2] := (v[3] << 4) | (v[4] >> 1);
    dest[at + 3] := (v[4] << 7) | (v[5] << 2) | (v[6] >> 3);
    dest[at + 4] := (v[6] << 5) | v[7];
    Writes5(old(dest[..]), at, GroupBytes(v));
  }

  /** The tail switch on tailSize: 7, 5, 4 and 2 values give 4, 3, 2 and 1 bytes at
      dest[at..], 0 values give none, and any other size is rejected. */
  method DecodeTail(dest: array<Byte>, at: nat, cbOut: array<Byte>, tailSize: nat)
    returns (r: Result<nat>)
    requires cbOut.Length == 8 && tailSize < 8 && dest != cbOut
    requires ValidSymbolCount(tailSize) ==> at + TailBytes(tailSize) <= dest.Length
    modifies dest
    ensures r.Success? <==> ValidSymbolCount(tailSize)
    ensures r.Failure? ==> r.error == InvalidLength && dest[..] == old(dest[..])
    ensures r.Success? ==> r.value == TailBytes(tailSize)
    ensures r.Success? && tailSize == 0 ==> dest[..] == old(dest[..])
    ensures r.Success? && tailSize > 0 ==>
      dest[..] == Splice(old(dest[..]), at, TailDecode(cbOut[..tailSize]))
  {
    match tailSize
    case 7 =>
      dest[at + 0] := (cbOut[0] << 3) | (cbOut[1] >> 2);
      dest[at + 1] := (cbOut[1] << 6) | (cbOut[2] << 1) | (cbOut[3] >> 4);
      dest[at + 2] := (cbOut[3] << 4) | (cbOut[4] >> 1);
      dest[at + 3] := (cbOut[4] << 7) | (cbOut[5] << 2) | (cbOut[6] >> 3);
      DecodeTailSwitch7(cbOut[..7]);
      Writes4(old(dest[..]), at, TailDecode(cbOut[..7]));
      r := Success(4);
    case 5 =>
      dest[at + 0] := (cbOut[0] << 3) | (cbOut[1] >> 2);
      dest[at + 1] := (cbOut[1] << 6) | (cbOut[2] << 1) | (cbOut[3] >> 4);
      dest[at + 2] := (cbOut[3] << 4) | (cbOut[4] >> 1);
      DecodeTailSwitch5(cbOut[..5]);
      Writes3(old(dest[..]), at, TailDecode(cbOut[..5]));
      r := Success(3);
    case 4 =>
      dest[at + 0] := (cbOut[0] << 3) | (cbOut[1] >> 2);
      dest[at + 1] := (cbOut[1] << 6) | (cbOut[2] << 1) | (cbOut[3] >> 4);
      DecodeTailSwitch4(cbOut[..4]);
      Writes2(old(dest[..]), at, TailDecode(cbOut[..4]));
      r := Success(2);
    case 2 =>
      dest[at + 0] := (cbOut[0] << 3) | (cbOut[1] >> 2);
      DecodeTailSwitch2(cbOut[..2]);
      Writes1(old(dest[..]), at, TailDecode(cbOut[..2]));
      r := Success(1);
    case 0 =>
      r := Success(0);
    case _ =>
      r := Failure(InvalidLength);
  }

  /** The group loop of the decoding loop: for each of the first loopCnt groups of
      eight characters, the lookup loop fills cbOut and the five byte assignments
      write the group's bytes at dest[5i..]; it stops with false at the first rejected
      character. On success dest holds the groups' bytes at its front. */
  method DecodeGroupsLoop(input: seq<Char16>, loopCnt: nat, dest: array<Byte>, cbOut: array<Byte>)
    returns (ok: bool)
    requires 8 * loopCnt <= |input| && 5 * loopCnt <= dest.Length
    requires cbOut.Length == 8 && dest != cbOut
    modifies dest, cbOut
    ensures ok <==> AcceptedRange(input, 0, 8 * loopCnt)
    ensures ok ==> dest[..] == Splice(old(dest[..]), 0, DecodeGroups(input, loopCnt))
  {
    var i := 0;
    while i < loopCnt
      invariant 0 <= i <= loopCnt
      invariant AcceptedRange(input, 0, 8 * i)
      invariant dest[..] == Splice(old(dest[..]), 0, DecodeGroups(input, i))
    {
      var accepted := DecodeGroupAt(input, i, dest, cbOut, old(dest[..]), 8 * loopCnt);
      if !accepted {
        return false;
      }
      i := i + 1;
    }
    return true;
  }

  /** One iteration of the group loop: the lookup loop over the eight characters of
      group i, then the group's five bytes at dest[5i..5i+5], which extend the bytes of
      the groups before it; a rejected character rejects every longer prefix. */
  method DecodeGroupAt(input: seq<Char16>, i: nat, dest: array<Byte>, cbOut: array<Byte>,
                       ghost d0: seq<Byte>, ghost n: nat)
    returns (accepted: bool)
    requires 8 * i + 8 <= n <= |input| && 5 * i + 5 <= dest.Length == |d0|
    requires cbOut.Length == 8 && dest != cbOut
    requires AcceptedRange(input, 0, 8 * i)
    requires dest[..] == Splice(d0, 0, DecodeGroups(input, i))
    modifies dest, cbOut
    ensures accepted ==> AcceptedRange(input, 0, 8 * (i + 1))
    ensures accepted ==> dest[..] == Splice(d0, 0, DecodeGroups(input, i + 1))
    ensures !accepted ==> !AcceptedRange(input, 0, n)
  {
    ghost var before := dest[..];
    accepted := LookupSymbols(input, 8 * i, 8, cbOut);
    if accepted {
      var values := cbOut[..8];
      assert values == LookupAll(input[8 * i..8 * i + 8]);
      DecodeGroup(dest, 5 * i, values);
      GroupWritten(d0, before, dest[..], input, i, values);
    }
  }

  /** The decoding loop over inputLength characters: loopCnt = inputLength / 8 groups,
      then the tail of inputLength % 8. A rejected character anywhere gives
      InvalidSymbol, before the tail's length is looked at; an accepted input of a
      rejected length gives InvalidLength; otherwise the result is the number of bytes
      written at the front of dest, which hold the decoding. */
  method FromBase32Decode(input: seq<Char16>, inputLength: nat, dest: array<Byte>)
    returns (r: Result<nat>)
    requires inputLength <= |input|
    requires ValidSymbolCount(inputLength) ==> DecodedSize(inputLength) <= dest.Length
    requires !ValidSymbolCount(inputLength) ==> inputLength / 8 * 5 <= dest.Length
    modifies dest
    ensures !AllAccepted(input[..inputLength]) ==> r == Failure(InvalidSymbol)
    ensures AllAccepted(input[..inputLength]) && !ValidSymbolCount(inputLength) ==>
      r == Failure(InvalidLength)
    ensures AllAccepted(input[..inputLength]) && ValidSymbolCount(inputLength) ==>
      r == Success(DecodedSize(inputLength)) &&
      dest[..] == Splice(old(dest[..]), 0, DecodeValues(LookupAll(input[..inputLength])))
  {
    var loopCnt := inputLength / 8;
    var tailSize := inputLength % 8;
    SymbolCountSplit(inputLength);
    var cbOut := new Byte[8];
    AcceptedPrefix(input, inputLength);
    var ok := DecodeGroupsLoop(input, loopCnt, dest, cbOut);
    if !ok {
      return Failure(InvalidSymbol);
    }
    r := DecodeRest(input, inputLength, loopCnt, tailSize, dest, cbOut, old(dest[..]));
  }

  /** The bytes written by the tail switch (none for an empty tail) complete those of
      the groups before it to the decoding of the whole input. */
  lemma TailWritten(d0: seq<Byte>, d1: seq<Byte>, d2: seq<Byte>, s: seq<Char16>, k: nat,
                    t: nat, n: nat, tail: seq<Byte>)
    requires n == 8 * k + t && t < 8 && ValidSymbolCount(t) && n <= |s|
    requires 5 * k + TailBytes(t) <= |d0|
    requires tail == LookupAll(s[8 * k..n])
    requires d1 == Splice(d0, 0, DecodeGroups(s, k))
    requires t == 0 ==> d2 == d1
    requires t > 0 ==> d2 == Splice(d1, 5 * k, TailDecode(tail))
    ensures ValidSymbolCount(n) && DecodedSize(n) == 5 * k + TailBytes(t)
    ensures d2 == Splice(d0, 0, DecodeValues(LookupAll(s[..n])))
  {
    DecodedSizeSplit(k, t);
    if t == 0 {
      GroupsOnly(d0, s, k, n);
    } else {
      GroupsThenTail(d0, s, k, t, n);
    }
  }

  /** The decoding loop after the whole groups: the lookup loop over the tail, then
      the tail switch, which writes the tail's bytes after the groups' and rejects a
      tail of 1, 3 or 6 characters. */
  method DecodeRest(input: seq<Char16>, inputLength: nat, loopCnt: nat, tailSize: nat,
                    dest: array<Byte>, cbOut: array<Byte>, ghost d0: seq<Byte>)
    returns (r: Result<nat>)
    requires inputLength == 8 * loopCnt + tailSize && tailSize < 8 && inputLength <= |input|
    requires ValidSymbolCount(inputLength) <==> ValidSymbolCount(tailSize)
    requires ValidSymbolCount(inputLength) ==>
      DecodedSize(inputLength) == 5 * loopCnt + TailBytes(tailSize) <= dest.Length
    requires cbOut.Length == 8 && dest != cbOut && 5 * loopCnt <= dest.Length == |d0|
    requires AcceptedRange(input, 0, 8 * loopCnt)
    requires dest[..] == Splice(d0, 0, DecodeGroups(input, loopCnt))
    modifies dest, cbOut
    ensures !AcceptedRange(input, 0, inputLength) ==> r == Failure(InvalidSymbol)
    ensures AcceptedRange(input, 0, inputLength) && !ValidSymbolCount(inputLength) ==>
      r == Failure(InvalidLength)
    ensures AcceptedRange(input, 0, inputLength) && ValidSymbolCount(inputLength) ==>
      r == Success(DecodedSize(inputLength)) &&
      dest[..] == Splice(d0, 0, DecodeValues(LookupAll(input[..inputLength])))
  {
    ghost var groups := dest[..];
    var ok := LookupSymbols(input, 8 * loopCnt, tailSize, cbOut);
    AcceptedRangeSplit(input, 0, 8 * loopCnt, inputLength);
    if !ok {
      return Failure(InvalidSymbol);
    }
    assert dest[..] == groups;
    r := SwitchTail(input, inputLength, loopCnt, tailSize, dest, cbOut, d0);
  }

  /** The tail switch once the tail's values are in cbOut: InvalidLength for a count no
      encoding has, and otherwise the tail's bytes right after the groups'. */
  method SwitchTail(input: seq<Char16>, inputLength: nat, loopCnt: nat, tailSize: nat,
                    dest: array<Byte>, cbOut: array<Byte>, ghost d0: seq<Byte>)
    returns (r: Result<nat>)
    requires inputLength == 8 * loopCnt + tailSize && tailSize < 8 && inputLength <= |input|
    requires ValidSymbolCount(inputLength) <==> ValidSymbolCount(tailSize)
    requires ValidSymbolCount(inputLength) ==>
      DecodedSize(inputLength) == 5 * loopCnt + TailBytes(tailSize) <= dest.Length
    requires cbOut.Length == 8 && dest != cbOut && 5 * loopCnt <= dest.Length == |d0|
    requires cbOut[..tailSize] == LookupAll(input[8 * loopCnt..inputLength])
    requires dest[..] == Splice(d0, 0, DecodeGroups(input, loopCnt))
    modifies dest
    ensures !ValidSymbolCount(inputLength) ==> r == Failure(InvalidLength)
    ensures ValidSymbolCount(inputLength) ==>
      r == Success(DecodedSize(inputLength)) &&
      dest[..] == Splice(d0, 0, DecodeValues(LookupAll(input[..inputLength])))
  {
    ghost var groups, tail := dest[..], cbOut[..tailSize];
    var n := DecodeTail(dest, 5 * loopCnt, cbOut, tailSize);
    if n.Failure? {
      return Failure(InvalidLength);
    }
    assert cbOut[..tailSize] == tail;
    TailWritten(d0, groups, dest[..], input, loopCnt, tailSize, inputLength, tail);
    r := Success(5 * loopCnt + n.value);
  }


  // ---------------------------------------------------------------------------
  // The public entry points.

  /** Trims the input, sizes the result from the trimmed length (rejecting the
      lengths no encoding has), allocates it and runs the decoding loop: the whole
      operation is Decode on the first inputLength characters. */
  method FromBase32CharPtr(input: seq<Char16>, inputLength: nat) returns (r: Result<seq<Byte>>)
    requires inputLength <= |input|
    ensures r == Decode(input[..inputLength])
  {
    ghost var s := input[..inputLength];
    var len := inputLength;
    while len > 0
      invariant 0 <= len <= inputLength
      invariant TrimEnd(input[..len]) == TrimEnd(s)
    {
      var lastChar := input[len - 1];
      if !IsTrimChar(lastChar) {
        break;
      }
      assert input[..len][..len - 1] == input[..len - 1];
      len := len - 1;
    }
    assert TrimEnd(input[..len]) == input[..len];
    var resultLength := len / 8 * 5;
    match len % 8 {
      case 7 => resultLength := resultLength + 4;
      case 5 => resultLength := resultLength + 3;
      case 4 => resultLength := resultLength + 2;
      case 2 => resultLength := resultLength + 1;
      case 0 =>
      case _ => return Failure(InvalidLength);
    }
    DecodedSizeClosedForm(len);
    var decodedBytes := new Byte[resultLength](_ => 0);
    ghost var blank := decodedBytes[..];
    var actual := FromBase32Decode(input, len, decodedBytes);
    if actual.Failure? {
      return Failure(actual.error);
    }
    SpliceAll(blank, DecodeValues(LookupAll(input[..len])));
    r := Success(decodedBytes[..]);
  }

  /** Decoding a whole string. */
  method FromBase32String(s: seq<Char16>) returns (r: Result<seq<Byte>>)
    ensures r == Decode(s)
  {
    assert s[..|s|] == s;
    r := FromBase32CharPtr(s, |s|);
  }

  /** The identifier constructor's check on its byte array. */
  function NewGuid(b: seq<Byte>): (r: Result<seq<Byte>>)
    ensures r.Success? <==> |b| == 16
    ensures r.Success? ==> r.value == b
    ensures r.Failure? ==> r.error == InvalidGuidLength
  {
    if |b| != 16 then Failure(InvalidGuidLength) else Success(b)
  }

  /** Decoding an identifier: a decoding failure propagates, and a decoding of any
      length other than 16 bytes is rejected. */
  method GuidFromBase32String(s: seq<Char16>) returns (r: Result<seq<Byte>>)
    ensures Decode(s).Failure? ==> r == Decode(s)
    ensures Decode(s).Success? ==> r == NewGuid(Decode(s).value)
  {
    var b := FromBase32String(s);
    if b.Failure? {
      return b;
    }
    r := NewGuid(b.value);
  }
}
