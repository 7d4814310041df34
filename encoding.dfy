/**
 * What the encoder computes, as functions: each five-byte group becomes eight 5-bit
 * values by masking and shifting, a trailing group of 1..4 bytes becomes 2, 4, 5 or 7
 * values, and each value is written as its forward-table symbol. No padding is emitted.
 */
module Encoding {
  import opened Tables
  import opened Lengths

  /** Every element is a 5-bit value. */
  predicate AllValues(vs: seq<Byte>)
  {
    forall i :: 0 <= i < |vs| ==> vs[i] < 32
  }

  /** Value m of the five-byte group g: the masks and shifts the encoder applies to
      pick bits 5m..5m+4 of the group, most significant bit first. */
  function GroupValue(g: seq<Byte>, m: nat): (v: Byte)
    requires |g| == 5 && m < 8
    ensures v < 32
  {
    match m
    case 0 => (g[0] & 0xF8) >> 3
    case 1 => ((g[0] & 0x07) << 2) | ((g[1] & 0xC0) >> 6)
    case 2 => (g[1] & 0x3E) >> 1
    case 3 => ((g[1] & 0x01) << 4) | ((g[2] & 0xF0) >> 4)
    case 4 => ((g[2] & 0x0F) << 1) | ((g[3] & 0x80) >> 7)
    case 5 => (g[3] & 0x7C) >> 2
    case 6 => ((g[3] & 0x03) << 3) | ((g[4] & 0xE0) >> 5)
    case 7 => g[4] & 0x1F
  }

  /** The eight values of one five-byte group. */
  function GroupValues(g: seq<Byte>): (r: seq<Byte>)
    requires |g| == 5
    ensures |r| == 8 && AllValues(r)
  {
    seq(8, m requires 0 <= m < 8 => GroupValue(g, m))
  }

  /** A trailing group of fewer than five bytes completed with zero bytes. */
  function PadGroup(t: seq<Byte>): (g: seq<Byte>)
    requires |t| < 5
    ensures |g| == 5 && g[..|t|] == t
    ensures forall i :: |t| <= i < 5 ==> g[i] == 0
  {
    t + seq(5 - |t|, _ => 0)
  }

  /** The values of a trailing group of 1..4 bytes: those of the zero-completed group,
      cut after the last value that holds an input bit. */
  function TailValues(t: seq<Byte>): (r: seq<Byte>)
    requires 1 <= |t| <= 4
    ensures |r| == TailSymbols(|t|) && AllValues(r)
  {
    seq(TailSymbols(|t|), m requires 0 <= m < TailSymbols(|t|) => GroupValue(PadGroup(t), m))
  }

  /** The encoder's tail switch: for 4, 3, 2 and 1 trailing bytes it computes 7, 5, 4
      and 2 values with the group's masks, the last one shifted in from zero bits. */
  lemma EncodeTailSwitch4(t: seq<Byte>)
    requires |t| == 4
    ensures TailValues(t) == [
      (t[0] & 0xF8) >> 3,
      ((t[0] & 0x07) << 2) | ((t[1] & 0xC0) >> 6),
      (t[1] & 0x3E) >> 1,
      ((t[1] & 0x01) << 4) | ((t[2] & 0xF0) >> 4),
      ((t[2] & 0x0F) << 1) | ((t[3] & 0x80) >> 7),
      (t[3] & 0x7C) >> 2,
      (t[3] & 0x03) << 3 ]
  {
    var g := PadGroup(t);
    assert g[0] == t[0] && g[1] == t[1] && g[2] == t[2] && g[3] == t[3] && g[4] == 0;
  }

  lemma EncodeTailSwitch3(t: seq<Byte>)
    requires |t| == 3
    ensures TailValues(t) == [
      (t[0] & 0xF8) >> 3,
      ((t[0] & 0x07) << 2) | ((t[1] & 0xC0) >> 6),
      (t[1] & 0x3E) >> 1,
      ((t[1] & 0x01) << 4) | ((t[2] & 0xF0) >> 4),
      (t[2] & 0x0F) << 1 ]
  {
    var g := PadGroup(t);
    assert g[0] == t[0] && g[1] == t[1] && g[2] == t[2] && g[3] == 0;
  }

  lemma EncodeTailSwitch2(t: seq<Byte>)
    requires |t| == 2
    ensures TailValues(t) == [
      (t[0] & 0xF8) >> 3,
      ((t[0] & 0x07) << 2) | ((t[1] & 0xC0) >> 6),
      (t[1] & 0x3E) >> 1,
      (t[1] & 0x01) << 4 ]
  {
    var g := PadGroup(t);
    assert g[0] == t[0] && g[1] == t[1] && g[2] == 0;
  }

  lemma EncodeTailSwitch1(t: seq<Byte>)
    requires |t| == 1
    ensures TailValues(t) == [
      (t[0] & 0xF8) >> 3,
      (t[0] & 0x07) << 2 ]
  {
    var g := PadGroup(t);
    assert g[0] == t[0] && g[1] == 0;
  }

  /** The values of a whole byte sequence: full groups first, then the tail. */
  function EncodeValues(data: seq<Byte>): (r: seq<Byte>)
    ensures |r| == EncodedLength(|data|)
    ensures AllValues(r)
    decreases |data|
  {
    if |data| == 0 then []
    else if |data| < 5 then TailValues(data)
    else GroupValues(data[..5]) + EncodeValues(data[5..])
  }

  /** The symbols of a sequence of 5-bit values; the reverse table reads them back. */
  function Symbols(vs: seq<Byte>): (r: seq<Char16>)
    requires AllValues(vs)
    ensures |r| == |vs|
    ensures forall i :: 0 <= i < |r| ==> r[i] == Symbol(vs[i])
  {
    seq(|vs|, i requires 0 <= i < |vs| => Symbol(vs[i]))
  }

  /** The reverse table reads every symbol back as its value, in either case. */
  lemma SymbolsLookup(vs: seq<Byte>)
    requires AllValues(vs)
    ensures forall i :: 0 <= i < |vs| ==>
      Lookup(Symbols(vs)[i]) == vs[i] && Lookup(LowerCase(Symbols(vs)[i])) == vs[i]
  {
    forall i | 0 <= i < |vs|
      ensures Lookup(Symbols(vs)[i]) == vs[i] && Lookup(LowerCase(Symbols(vs)[i])) == vs[i]
    {
      SymbolLookup(vs[i]);
    }
  }

  /** The Crockford Base32 encoding of a byte sequence. */
  function Encode(data: seq<Byte>): (r: seq<Char16>)
    ensures |r| == EncodedLength(|data|)
    ensures forall i :: 0 <= i < |r| ==> IsSymbol(r[i])
  {
    Symbols(EncodeValues(data))
  }

  // ---------------------------------------------------------------------------
  // The bit layout, against a 40-bit big-endian view of each group.

  /** Five bytes read as one 40-bit big-endian number. */
  function PackBytes(g: seq<Byte>): bv40
    requires |g| == 5
  {
    (g[0] as bv40 << 32) | (g[1] as bv40 << 24) | (g[2] as bv40 << 16) |
    (g[3] as bv40 << 8) | g[4] as bv40
  }

  /** Eight 5-bit values read as one 40-bit big-endian number. */
  function PackValues(v: seq<Byte>): bv40
    requires |v| == 8 && AllValues(v)
  {
    (v[0] as bv40 << 35) | (v[1] as bv40 << 30) | (v[2] as bv40 << 25) |
    (v[3] as bv40 << 20) | (v[4] as bv40 << 15) | (v[5] as bv40 << 10) |
    (v[6] as bv40 << 5) | v[7] as bv40
  }

  /** A group's eight values, concatenated, are exactly its 40 input bits. */
  lemma GroupLayout(g: seq<Byte>)
    requires |g| == 5
    ensures PackValues(GroupValues(g)) == PackBytes(g)
  {
  }

  /** A trailing group of fewer than eight values completed with zero values. */
  function PadValues(v: seq<Byte>): (w: seq<Byte>)
    requires |v| < 8
    ensures |w| == 8 && w[..|v|] == v
    ensures forall i :: |v| <= i < 8 ==> w[i] == 0
  {
    v + seq(8 - |v|, _ => 0)
  }

  /** The bits of a trailing group's last value that carry no input bit are zero (the
      encoder always leaves them zero). */
  predicate TailBitsZero(v: seq<Byte>)
    requires 0 < |v| < 8 && ValidSymbolCount(|v|)
  {
    match |v|
    case 2 => v[1] & 0x03 == 0
    case 4 => v[3] & 0x0F == 0
    case 5 => v[4] & 0x01 == 0
    case 7 => v[6] & 0x07 == 0
  }

  /** A tail is encoded as the group it would be with zero bytes appended, cut after its
      last symbol: completed with zero values, its values hold exactly the tail's bits
      followed by zero bits, and the last value's bits that hold no input bit are zero. */
  lemma TailLayout(t: seq<Byte>)
    requires 1 <= |t| <= 4
    ensures PackValues(PadValues(TailValues(t))) == PackBytes(PadGroup(t))
    ensures TailBitsZero(TailValues(t))
  {
    GroupLayout(PadGroup(t));
  }

  /** Encoding a concatenation whose first part is whole groups encodes each part. */
  lemma {:induction false} EncodeValuesAppend(a: seq<Byte>, b: seq<Byte>, groups: nat)
    requires |a| == 5 * groups
    ensures EncodeValues(a + b) == EncodeValues(a) + EncodeValues(b)
    decreases groups
  {
    if groups == 0 {
      assert a + b == b;
    } else {
      assert (a + b)[..5] == a[..5];
      assert (a + b)[5..] == a[5..] + b;
      EncodeValuesAppend(a[5..], b, groups - 1);
      calc {
        EncodeValues(a + b);
        GroupValues(a[..5]) + EncodeValues(a[5..] + b);
        GroupValues(a[..5]) + (EncodeValues(a[5..]) + EncodeValues(b));
        EncodeValues(a) + EncodeValues(b);
      }
    }
  }

  /** Symbols distribute over concatenation. */
  lemma SymbolsAppend(a: seq<Byte>, b: seq<Byte>)
    requires AllValues(a) && AllValues(b)
    ensures AllValues(a + b) && Symbols(a + b) == Symbols(a) + Symbols(b)
  {
    assert AllValues(a + b) by {
      forall i | 0 <= i < |a + b| ensures (a + b)[i] < 32 {
        if i >= |a| { assert (a + b)[i] == b[i - |a|]; }
      }
    }
  }

  /** Encoding a concatenation whose first part is whole groups. */
  lemma EncodeAppend(a: seq<Byte>, b: seq<Byte>, groups: nat)
    requires |a| == 5 * groups
    ensures Encode(a + b) == Encode(a) + Encode(b)
  {
    EncodeValuesAppend(a, b, groups);
    SymbolsAppend(EncodeValues(a), EncodeValues(b));
  }

  /** Group k of the input is encoded as symbols 8k..8k+8 of the output. */
  lemma EncodeValuesGroupAt(data: seq<Byte>, k: nat)
    requires 5 * k + 5 <= |data|
    ensures 8 * k + 8 <= |EncodeValues(data)| &&
      EncodeValues(data)[8 * k..8 * k + 8] == GroupValues(data[5 * k..5 * k + 5])
  {
    var pre, g, post := data[..5 * k], data[5 * k..5 * k + 5], data[5 * k + 5..];
    assert data == pre + (g + post);
    EncodeValuesAppend(pre, g + post, k);
    EncodeValuesAppend(g, post, 1);
    EncodeValuesOfGroup(g);
    EncodedLengthOfGroups(k);
    SliceMiddle(EncodeValues(pre), GroupValues(g), EncodeValues(post));
  }

  /** Exactly one group is encoded as its eight values. */
  lemma EncodeValuesOfGroup(g: seq<Byte>)
    requires |g| == 5
    ensures EncodeValues(g) == GroupValues(g)
  {
    assert g[..5] == g && g[5..] == [];
  }

  lemma SliceMiddle<T>(a: seq<T>, b: seq<T>, c: seq<T>)
    ensures (a + (b + c))[|a|..|a| + |b|] == b
  {
  }

  /** A tail of r bytes is encoded as the last TailSymbols(r) symbols. */
  lemma EncodeValuesTail(data: seq<Byte>)
    requires |data| % 5 != 0
    ensures 8 * (|data| / 5) <= |EncodeValues(data)| &&
      EncodeValues(data)[8 * (|data| / 5)..] == TailValues(data[5 * (|data| / 5)..])
  {
    var q := |data| / 5;
    var pre, t := data[..5 * q], data[5 * q..];
    assert |data| == 5 * q + |data| % 5;
    assert 0 < |t| < 5;
    assert data == pre + t;
    EncodeValuesAppend(pre, t, q);
    assert |EncodeValues(pre)| == 8 * q by { EncodedLengthOfGroups(q); }
    assert EncodeValues(t) == TailValues(t);
    assert (EncodeValues(pre) + EncodeValues(t))[8 * q..] == EncodeValues(t);
  }

  /** The bit layout: every full group's symbols hold exactly its 40 bits, and the tail
      is the zero-extended group cut after its last symbol. */
  lemma EncodeLayout(data: seq<Byte>, k: nat)
    requires 5 * k + 5 <= |data|
    ensures 8 * k + 8 <= |EncodeValues(data)| &&
      PackValues(EncodeValues(data)[8 * k..8 * k + 8]) == PackBytes(data[5 * k..5 * k + 5])
  {
    EncodeValuesGroupAt(data, k);
    GroupLayout(data[5 * k..5 * k + 5]);
  }

  lemma EncodeTailLayout(data: seq<Byte>)
    requires |data| % 5 != 0
    ensures var q, t := |data| / 5, data[5 * (|data| / 5)..];
      0 < |t| < 5 && 8 * q <= |EncodeValues(data)| && EncodeValues(data)[8 * q..] == TailValues(t) &&
      PackValues(PadValues(TailValues(t))) == PackBytes(PadGroup(t)) && TailBitsZero(TailValues(t))
  {
    EncodeValuesTail(data);
    TailLayout(data[5 * (|data| / 5)..]);
  }

  /** Encoding one group more of a range that starts on a group boundary appends that
      group's symbols. */
  lemma EncodeGroupStep(data: seq<Byte>, lo: nat, i: nat, hi: nat, k: nat)
    requires lo <= i && hi == i + 5 && hi <= |data| && i - lo == 5 * k
    ensures Encode(data[lo..hi]) == Encode(data[lo..i]) + Symbols(GroupValues(data[i..hi]))
  {
    var a, g := data[lo..i], data[i..hi];
    assert data[lo..hi] == a + g;
    EncodeAppend(a, g, k);
    EncodeValuesOfGroup(g);
  }

  /** Encoding the rest of a range after its full groups appends the tail's symbols. */
  lemma EncodeTailStep(data: seq<Byte>, lo: nat, i: nat, hi: nat, k: nat)
    requires lo <= i < hi <= |data| && hi - i < 5 && i - lo == 5 * k
    ensures Encode(data[lo..hi]) == Encode(data[lo..i]) + Symbols(TailValues(data[i..hi]))
  {
    var a, t := data[lo..i], data[i..hi];
    assert data[lo..hi] == a + t;
    EncodeAppend(a, t, k);
    assert EncodeValues(t) == TailValues(t);
  }
}
