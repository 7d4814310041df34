/**
 * How the decoder and the encoder relate: decoding an encoding gives the bytes back,
 * also after the encoding is lower-cased; a decoded string re-encodes to its canonical
 * form exactly when its last symbol's unused bits are zero; and whether decoding
 * succeeds depends only on the trimmed length and on every retained character standing
 * for a symbol.
 */
module RoundTrip {
  import opened Wrappers
  import opened Tables
  import opened Lengths
  import opened Encoding
  import opened Decoding

  /** A group's eight values are reassembled into its five bytes. */
  lemma GroupRoundTrip(g: seq<Byte>)
    requires |g| == 5
    ensures GroupBytes(GroupValues(g)) == g
  {
    var b := GroupBytes(GroupValues(g));
    assert b[0] == g[0] && b[1] == g[1] && b[2] == g[2] && b[3] == g[3] && b[4] == g[4];
  }

  /** Any eight 5-bit values are what their five bytes encode to: a full group loses no
      bit either way. */
  lemma GroupValuesRoundTrip(v: seq<Byte>)
    requires |v| == 8 && AllValues(v)
    ensures GroupValues(GroupBytes(v)) == v
  {
  }

  /** A trailing group of 1..4 bytes is reassembled from its 2, 4, 5 or 7 values. */
  lemma TailRoundTrip(t: seq<Byte>)
    requires 1 <= |t| <= 4
    ensures ValidSymbolCount(|TailValues(t)|)
    ensures TailDecode(TailValues(t)) == t
  {
  }

  /** A trailing group of values re-encodes to itself exactly when its unused bits are
      zero: the decoder drops them without looking. */
  lemma TailValuesRoundTrip(v: seq<Byte>)
    requires 0 < |v| < 8 && ValidSymbolCount(|v|) && AllValues(v)
    ensures 1 <= |TailDecode(v)| <= 4
    ensures TailValues(TailDecode(v)) == v <==> TailBitsZero(v)
  {
    if |v| == 2 {
      assert TailValues(TailDecode(v)) == v <==> v[1] & 0x03 == 0;
    } else if |v| == 4 {
      assert TailValues(TailDecode(v)) == v <==> v[3] & 0x0F == 0;
    } else if |v| == 5 {
      assert TailValues(TailDecode(v)) == v <==> v[4] & 0x01 == 0;
    } else {
      assert TailValues(TailDecode(v)) == v <==> v[6] & 0x07 == 0;
    }
  }

  /** The last partial group of a value sequence, if any, has zero unused bits. */
  predicate CanonicalTail(vs: seq<Byte>)
    requires ValidSymbolCount(|vs|)
    decreases |vs|
  {
    if |vs| < 8 then |vs| == 0 || TailBitsZero(vs)
    else
      ValidSymbolCountStep(|vs|);
      CanonicalTail(vs[8..])
  }

  /** Decoding the values of any byte sequence gives the bytes back. */
  lemma {:induction false} DecodeEncodeValues(d: seq<Byte>)
    ensures ValidSymbolCount(|EncodeValues(d)|)
    ensures DecodeValues(EncodeValues(d)) == d
    decreases |d|
  {
    if |d| == 0 {
    } else if |d| < 5 {
      TailRoundTrip(d);
    } else {
      var g, rest := d[..5], d[5..];
      var e := EncodeValues(rest);
      DecodeEncodeValues(rest);
      var x := GroupValues(g) + e;
      assert EncodeValues(d) == x;
      assert |x| == |e| + 8 && (|e| + 8) % 8 == |e| % 8;
      assert x[..8] == GroupValues(g) && x[8..] == e;
      GroupRoundTrip(g);
      assert d == g + rest;
    }
  }

  /** Values re-encode to themselves after decoding exactly when the last partial
      group's unused bits are zero. */
  lemma {:induction false} EncodeDecodeValues(vs: seq<Byte>)
    requires ValidSymbolCount(|vs|) && AllValues(vs)
    ensures EncodeValues(DecodeValues(vs)) == vs <==> CanonicalTail(vs)
    decreases |vs|
  {
    if |vs| == 0 {
    } else if |vs| < 8 {
      TailValuesRoundTrip(vs);
    } else {
      var v, rest := vs[..8], vs[8..];
      ValidSymbolCountStep(|vs|);
      assert AllValues(v) && AllValues(rest);
      var b, r := GroupBytes(v), DecodeValues(rest);
      assert DecodeValues(vs) == b + r;
      assert (b + r)[..5] == b && (b + r)[5..] == r;
      GroupValuesRoundTrip(v);
      assert EncodeValues(b + r) == v + EncodeValues(r);
      EncodeDecodeValues(rest);
      assert vs == v + rest;
      if v + EncodeValues(r) == vs {
        assert EncodeValues(r) == (v + EncodeValues(r))[8..];
      }
    }
  }

  /** Every character with every A-Z lower-cased, as String.ToLower does to an
      encoding. */
  function LowerAll(s: seq<Char16>): (r: seq<Char16>)
    ensures |r| == |s| && forall i :: 0 <= i < |s| ==> r[i] == LowerCase(s[i])
  {
    seq(|s|, i requires 0 <= i < |s| => LowerCase(s[i]))
  }

  /** The canonical symbol each character's low byte stands for. */
  function CanonicalAll(t: seq<Char16>): (r: seq<Char16>)
    ensures |r| == |t| && forall i :: 0 <= i < |t| ==> r[i] == Canonical(LowByte(t[i]))
  {
    seq(|t|, i requires 0 <= i < |t| => Canonical(LowByte(t[i])))
  }

  lemma SmallValueAccepted(x: Byte)
    requires x < 32
    ensures x & 0xE0 == 0
  {
  }

  /** Two canonical symbols with the same value are the same symbol. */
  lemma SameSymbol(x: Char16, y: Char16)
    requires IsSymbol(x) && IsSymbol(y) && Lookup(x) == Lookup(y)
    ensures x == y
  {
    SymbolOfValue(x);
    SymbolOfValue(y);
  }

  /** A string with no trim character, of an accepted length, whose characters look up
      to 5-bit values, decodes to the bytes of those values. */
  lemma DecodeOfValues(s: seq<Char16>, vs: seq<Byte>)
    requires ValidSymbolCount(|s|) && |s| == |vs| && AllValues(vs)
    requires forall i :: 0 <= i < |s| ==> !IsTrimChar(s[i]) && Lookup(s[i]) == vs[i]
    ensures Decode(s) == Success(DecodeValues(vs))
  {
    assert TrimEnd(s) == s;
    forall i | 0 <= i < |s| ensures Accepted(s[i]) {
      SmallValueAccepted(vs[i]);
    }
    assert LookupAll(s) == vs;
  }

  /** Decoding an encoding gives the bytes back. */
  lemma DecodeEncode(d: seq<Byte>)
    ensures Decode(Encode(d)) == Success(d)
  {
    DecodeEncodeValues(d);
    SymbolsLookup(EncodeValues(d));
    DecodeOfValues(Encode(d), EncodeValues(d));
  }

  /** Decoding a lower-cased encoding gives the bytes back too. */
  lemma DecodeLowerEncode(d: seq<Byte>)
    ensures Decode(LowerAll(Encode(d))) == Success(d)
  {
    var e, s := Encode(d), LowerAll(Encode(d));
    DecodeEncodeValues(d);
    SymbolsLookup(EncodeValues(d));
    forall i | 0 <= i < |s| ensures !IsTrimChar(s[i]) && Lookup(s[i]) == EncodeValues(d)[i] {
      assert s[i] == LowerCase(e[i]);
    }
    DecodeOfValues(s, EncodeValues(d));
  }

  /** Decoding succeeds exactly when the trimmed length is accepted and every retained
      character's low byte stands for a symbol; a bad length is reported before any
      bad symbol. */
  lemma DecodeSucceeds(s: seq<Char16>)
    ensures var t := TrimEnd(s);
      Decode(s).Success? <==>
        ValidSymbolCount(|t|) && forall i :: 0 <= i < |t| ==> IsSymbol(Canonical(LowByte(t[i])))
    ensures Decode(s) == Failure(InvalidLength) <==> !ValidSymbolCount(|TrimEnd(s)|)
  {
    var t := TrimEnd(s);
    forall i | 0 <= i < |t| ensures Accepted(t[i]) <==> IsSymbol(Canonical(LowByte(t[i]))) {
      LookupCorrect(t[i]);
    }
  }

  /** A string that decodes is read as the canonical symbols its retained characters
      stand for: replacing each look-alike, lower-case letter or character with the
      same low byte by its canonical symbol decodes to the same bytes. */
  lemma DecodeReadsCanonicalForm(s: seq<Char16>)
    requires Decode(s).Success?
    ensures forall i :: 0 <= i < |TrimEnd(s)| ==> IsSymbol(CanonicalAll(TrimEnd(s))[i])
    ensures Decode(CanonicalAll(TrimEnd(s))) == Decode(s)
  {
    var t := TrimEnd(s);
    var c, vs := CanonicalAll(t), LookupAll(t);
    forall i | 0 <= i < |t|
      ensures vs[i] < 32 && IsSymbol(c[i]) && !IsTrimChar(c[i]) && Lookup(c[i]) == vs[i]
    {
      LookupCorrect(t[i]);
      LookupCanonical(t[i]);
    }
    DecodeOfValues(c, vs);
  }

  /** Different value sequences have different symbols. */
  lemma SymbolsInjective(a: seq<Byte>, b: seq<Byte>)
    requires AllValues(a) && AllValues(b) && Symbols(a) == Symbols(b)
    ensures a == b
  {
    SymbolsLookup(a);
    SymbolsLookup(b);
    forall i | 0 <= i < |a| ensures a[i] == b[i] {
      assert Lookup(Symbols(a)[i]) == a[i] && Lookup(Symbols(b)[i]) == b[i];
    }
  }

  /** The canonical form of accepted characters is the symbols of their values. */
  lemma CanonicalIsSymbols(t: seq<Char16>)
    requires AllAccepted(t)
    ensures AllValues(LookupAll(t)) && CanonicalAll(t) == Symbols(LookupAll(t))
  {
    var c, vs := CanonicalAll(t), LookupAll(t);
    forall i | 0 <= i < |t| ensures vs[i] < 32 && IsSymbol(c[i]) && Lookup(c[i]) == vs[i] {
      LookupCorrect(t[i]);
      LookupCanonical(t[i]);
    }
    var sv := Symbols(vs);
    SymbolsLookup(vs);
    forall i | 0 <= i < |t| ensures sv[i] == c[i] {
      SameSymbol(sv[i], c[i]);
    }
  }

  /** Re-encoding what a string decodes to gives back its canonical form exactly when
      the unused bits of its last symbol are zero: the decoder does not check them. */
  lemma ReencodeGivesCanonicalForm(s: seq<Char16>)
    requires Decode(s).Success?
    ensures ValidSymbolCount(|TrimEnd(s)|)
    ensures Encode(Decode(s).value) == CanonicalAll(TrimEnd(s)) <==>
      CanonicalTail(LookupAll(TrimEnd(s)))
  {
    var t := TrimEnd(s);
    var vs := LookupAll(t);
    CanonicalIsSymbols(t);
    assert Decode(s).value == DecodeValues(vs);
    var w := EncodeValues(DecodeValues(vs));
    EncodeDecodeValues(vs);
    if Symbols(w) == Symbols(vs) {
      SymbolsInjective(w, vs);
    }
  }

  /** Trailing blanks and '=' do not change what a string decodes to. */
  lemma {:induction false} TrimEndIgnoresPadding(s: seq<Char16>, pad: seq<Char16>)
    requires forall i :: 0 <= i < |pad| ==> IsTrimChar(pad[i])
    ensures TrimEnd(s + pad) == TrimEnd(s)
    decreases |pad|
  {
    if |pad| > 0 {
      var shorter := pad[..|pad| - 1];
      assert (s + pad)[..|s + pad| - 1] == s + shorter;
      TrimEndIgnoresPadding(s, shorter);
    } else {
      assert s + pad == s;
    }
  }

  lemma DecodeIgnoresPadding(s: seq<Char16>, pad: seq<Char16>)
    requires forall i :: 0 <= i < |pad| ==> IsTrimChar(pad[i])
    ensures Decode(s + pad) == Decode(s)
  {
    TrimEndIgnoresPadding(s, pad);
  }
}
