/** Output lengths of the encoder and the decoder. */
module Lengths {
  import opened Wrappers

  /** int.MaxValue. */
  const IntMax: int := 0x7fff_ffff

  /** Symbols for a trailing group of r bytes: r = 1..4 bytes need 2, 4, 5 or 7
      symbols; r = 0 adds nothing. */
  function TailSymbols(r: nat): (k: nat)
    requires r < 5
  {
    match r
    case 0 => 0
    case 1 => 2
    case 2 => 4
    case 3 => 5
    case 4 => 7
  }

  /** Symbols for n bytes: eight per full five-byte group plus the tail's. */
  function EncodedLength(n: nat): (k: nat)
  {
    if n < 5 then TailSymbols(n) else 8 + EncodedLength(n - 5)
  }

  /** k full groups and a tail of r bytes take 8k symbols plus the tail's. */
  lemma {:induction false} EncodedLengthSplit(k: nat, r: nat)
    requires r < 5
    ensures EncodedLength(5 * k + r) == 8 * k + TailSymbols(r)
  {
    if k > 0 {
      EncodedLengthSplit(k - 1, r);
      assert 5 * k + r - 5 == 5 * (k - 1) + r;
    }
  }

  /** Whole groups take eight symbols each. */
  lemma EncodedLengthOfGroups(k: nat)
    ensures EncodedLength(5 * k) == 8 * k
  {
    EncodedLengthSplit(k, 0);
  }

  /** The closed form the encoder computes: n / 5 full groups and a tail of n % 5. */
  lemma EncodedLengthClosedForm(n: nat)
    ensures EncodedLength(n) == n / 5 * 8 + TailSymbols(n % 5)
  {
    EncodedLengthSplit(n / 5, n % 5);
  }

  /** Exactly enough 5-bit symbols to hold 8n bits, with fewer than five bits of
      zero padding left over. */
  lemma EncodedLengthIsCeiling(n: nat)
    ensures EncodedLength(n) == (8 * n + 4) / 5
    ensures 8 * n <= 5 * EncodedLength(n) < 8 * n + 5
  {
    EncodedLengthClosedForm(n);
  }

  /** The length the encoder allocates, or the OutOfMemory it throws when that length
      does not fit in an int. Callers have already rejected negative lengths. */
  function OutputLength(inputLength: int): (r: Result<int>)
    requires 0 <= inputLength <= IntMax
    ensures r.Success? <==> EncodedLength(inputLength) <= IntMax
    ensures r.Success? ==> r.value == EncodedLength(inputLength)
    ensures r.Failure? ==> r.error == OutOfMemory
  {
    EncodedLengthClosedForm(inputLength);
    if inputLength == 0 then Success(0)
    else
      var outlen := inputLength / 5 * 8 + TailSymbols(inputLength % 5);
      if outlen > IntMax then Failure(OutOfMemory) else Success(outlen)
  }

  /** The largest input the encoder accepts is 1342177279 bytes, whose encoding is
      exactly int.MaxValue symbols long. */
  lemma OutputLengthLimit(n: int)
    requires 0 <= n <= IntMax
    ensures OutputLength(n).Success? <==> n <= 1_342_177_279
  {
    EncodedLengthIsCeiling(n);
  }

  /** A symbol count the decoder accepts: 0, 2, 4, 5 or 7 modulo 8. */
  predicate ValidSymbolCount(len: nat)
  {
    len % 8 == 0 || len % 8 == 2 || len % 8 == 4 || len % 8 == 5 || len % 8 == 7
  }

  /** The accepted counts are exactly those whose bits, after the whole bytes they
      hold, leave fewer than five over: less than one symbol's worth. */
  lemma ValidSymbolCountLeftover(len: nat)
    ensures ValidSymbolCount(len) <==> (5 * len) % 8 < 5
  {
    var q, r := len / 8, len % 8;
    assert 5 * len == 8 * (5 * q) + 5 * r;
    assert (5 * len) % 8 == (5 * r) % 8;
  }

  /** Bytes for a trailing partial group of t symbols. */
  function TailBytes(t: nat): nat
    requires t < 8 && ValidSymbolCount(t)
  {
    match t
    case 0 => 0
    case 2 => 1
    case 4 => 2
    case 5 => 3
    case 7 => 4
  }

  /** A tail of t symbols decodes to the whole bytes its 5t bits hold, and what is left
      over is less than one symbol. */
  lemma TailBytesLeftover(t: nat)
    requires t < 8 && ValidSymbolCount(t)
    ensures 8 * TailBytes(t) <= 5 * t < 8 * TailBytes(t) + 5
  {
  }

  /** One full group of eight symbols more keeps the count accepted. */
  lemma ValidSymbolCountStep(len: nat)
    requires len >= 8
    ensures ValidSymbolCount(len) <==> ValidSymbolCount(len - 8)
  {
    assert (len - 8) % 8 == len % 8;
  }

  /** Whole groups of eight symbols in front do not change whether a count is accepted. */
  lemma ValidSymbolCountGroups(k: nat, t: nat)
    ensures ValidSymbolCount(8 * k + t) <==> ValidSymbolCount(t)
  {
    assert (8 * k + t) % 8 == t % 8;
  }

  /** Bytes for an accepted count of symbols: five per full group of eight plus the
      tail's. */
  function DecodedSize(len: nat): nat
    requires ValidSymbolCount(len)
  {
    if len < 8 then TailBytes(len)
    else
      ValidSymbolCountStep(len);
      5 + DecodedSize(len - 8)
  }

  /** The decoder's result length for a trimmed input of len symbols, as it computes
      it, or None for the lengths it rejects. */
  function DecodedLength(len: nat): (r: Option<nat>)
    ensures r.Some? <==> ValidSymbolCount(len)
    ensures r.Some? ==> r.value == DecodedSize(len)
  {
    if ValidSymbolCount(len) then
      DecodedSizeClosedForm(len);
      Some(len / 8 * 5 + TailBytes(len % 8))
    else None
  }

  /** p full groups and an accepted tail of t symbols. */
  lemma {:induction false} DecodedSizeSplit(p: nat, t: nat)
    requires t < 8 && ValidSymbolCount(t)
    ensures ValidSymbolCount(8 * p + t)
    ensures DecodedSize(8 * p + t) == 5 * p + TailBytes(t)
  {
    assert (8 * p + t) % 8 == t;
    if p > 0 {
      DecodedSizeSplit(p - 1, t);
      assert 8 * p + t - 8 == 8 * (p - 1) + t;
    }
  }

  /** A count of symbols is whole groups of eight and a tail; it is accepted when its
      tail is, and then decodes to five bytes per group and the tail's bytes. */
  lemma SymbolCountSplit(len: nat)
    ensures len == 8 * (len / 8) + len % 8 && len % 8 < 8
    ensures ValidSymbolCount(len) <==> ValidSymbolCount(len % 8)
    ensures ValidSymbolCount(len) ==> DecodedSize(len) == 5 * (len / 8) + TailBytes(len % 8)
  {
    assert (len % 8) % 8 == len % 8;
    if ValidSymbolCount(len) {
      DecodedSizeClosedForm(len);
    }
  }

  /** k full groups of symbols decode to five bytes each. */
  lemma DecodedSizeOfGroups(k: nat)
    ensures ValidSymbolCount(8 * k) && DecodedSize(8 * k) == 5 * k
  {
    DecodedSizeSplit(k, 0);
  }

  lemma DecodedSizeClosedForm(len: nat)
    requires ValidSymbolCount(len)
    ensures DecodedSize(len) == len / 8 * 5 + TailBytes(len % 8)
  {
    DecodedSizeSplit(len / 8, len % 8);
  }

  /** An encoding's length is accepted and decodes to the original byte count. */
  lemma DecodedSizeOfEncodedLength(n: nat)
    ensures ValidSymbolCount(EncodedLength(n))
    ensures DecodedSize(EncodedLength(n)) == n
  {
    var q, r := n / 5, n % 5;
    assert n == 5 * q + r;
    EncodedLengthSplit(q, r);
    DecodedSizeSplit(q, TailSymbols(r));
  }

  /** An accepted length is the encoding length of the byte count it decodes to. */
  lemma EncodedLengthOfDecodedSize(len: nat)
    requires ValidSymbolCount(len)
    ensures EncodedLength(DecodedSize(len)) == len
  {
    var p, t := len / 8, len % 8;
    assert len == 8 * p + t;
    DecodedSizeSplit(p, t);
    EncodedLengthSplit(p, TailBytes(t));
  }

  /** The rejected lengths leave 1, 3 or 6 symbols over a whole number of groups; an
      accepted one decodes to as many whole bytes as its 5-bit symbols hold. */
  lemma DecodedLengthCases(len: nat)
    ensures DecodedLength(len).None? <==> len % 8 == 1 || len % 8 == 3 || len % 8 == 6
    ensures DecodedLength(len).Some? ==> DecodedLength(len).value == 5 * len / 8
  {
  }
}
