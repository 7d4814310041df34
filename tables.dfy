/**
 * The two lookup tables of the Crockford Base32 codec: the forward table turns a
 * 5-bit value into its symbol, the reverse table turns the low byte of a character
 * into a 5-bit value or into the sentinel 0xff. Look-alike aliasing (lower case,
 * 'O' for '0', 'I' and 'L' for '1') lives entirely in the reverse table.
 */
module Tables {

  /** A C# byte. */
  type Byte = bv8

  /** A C# char: one UTF-16 code unit. */
  type Char16 = c: int | 0 <= c < 0x1_0000

  /** The forward table: value v in 0..31 is written as ForwardTable[v]. Entry 32 is a
      '=' that the encoder never selects, because every index it uses is a 5-bit mask. */
  const ForwardTable: seq<Char16> :=
      ['0' as int, '1' as int, '2' as int, '3' as int, '4' as int, '5' as int, '6' as int, '7' as int] +
      ['8' as int, '9' as int, 'A' as int, 'B' as int, 'C' as int, 'D' as int, 'E' as int, 'F' as int] +
      ['G' as int, 'H' as int, 'J' as int, 'K' as int, 'M' as int, 'N' as int, 'P' as int, 'Q' as int] +
      ['R' as int, 'S' as int, 'T' as int, 'V' as int, 'W' as int, 'X' as int, 'Y' as int, 'Z' as int, '=' as int]

  /** The marker the reverse table holds for every byte that is not a symbol. */
  const Invalid: Byte := 0xff

  /** The reverse table, indexed by a byte. Bytes 0x00..0x2f (controls, space and
      punctuation) and 0x80..0xff are all invalid. */
  const ReverseTable: seq<Byte> :=
      InvalidRun(48) +
      [0x00, 0x01, 0x02, 0x03, 0x04, 0x05, 0x06, 0x07] +   // 0x30..0x37: 0-7
      [0x08, 0x09, 0xff, 0xff, 0xff, 0xff, 0xff, 0xff] +   // 0x38..0x3f: 8, 9
      [0xff, 0x0a, 0x0b, 0x0c, 0x0d, 0x0e, 0x0f, 0x10] +   // 0x40..0x47: @, A-G
      [0x11, 0x01, 0x12, 0x13, 0x01, 0x14, 0x15, 0x00] +   // 0x48..0x4f: H-O
      [0x16, 0x17, 0x18, 0x19, 0x1a, 0xff, 0x1b, 0x1c] +   // 0x50..0x57: P-W
      [0x1d, 0x1e, 0x1f, 0xff, 0xff, 0xff, 0xff, 0xff] +   // 0x58..0x5f: X-Z
      [0xff, 0x0a, 0x0b, 0x0c, 0x0d, 0x0e, 0x0f, 0x10] +   // 0x60..0x67: `, a-g
      [0x11, 0x01, 0x12, 0x13, 0x01, 0x14, 0x15, 0x00] +   // 0x68..0x6f: h-o
      [0x16, 0x17, 0x18, 0x19, 0x1a, 0xff, 0x1b, 0x1c] +   // 0x70..0x77: p-w
      [0x1d, 0x1e, 0x1f, 0xff, 0xff, 0xff, 0xff, 0xff] +   // 0x78..0x7f: x-z
      InvalidRun(128)

  /** n copies of the invalid marker. */
  function InvalidRun(n: nat): (r: seq<Byte>)
    ensures |r| == n
    ensures forall i :: 0 <= i < n ==> r[i] == Invalid
  {
    seq(n, _ => Invalid)
  }

  /** The reverse table's entry for byte b, stated by the character b stands for: a
      lower-case letter reads as its upper-case form, a digit or letter other than U
      gives its value (O reads as 0, I and L as 1), and anything else is invalid.
      ReverseTableCorrect shows that this is the table entry by entry. */
  function ReverseEntry(b: int): Byte
  {
    var u := if 'a' as int <= b <= 'z' as int then b - 32 else b;
    match u
    case 0x30 => 0x00 case 0x31 => 0x01 case 0x32 => 0x02 case 0x33 => 0x03
    case 0x34 => 0x04 case 0x35 => 0x05 case 0x36 => 0x06 case 0x37 => 0x07
    case 0x38 => 0x08 case 0x39 => 0x09
    case 0x41 => 0x0a case 0x42 => 0x0b case 0x43 => 0x0c case 0x44 => 0x0d
    case 0x45 => 0x0e case 0x46 => 0x0f case 0x47 => 0x10 case 0x48 => 0x11
    case 0x49 => 0x01 case 0x4a => 0x12 case 0x4b => 0x13 case 0x4c => 0x01
    case 0x4d => 0x14 case 0x4e => 0x15 case 0x4f => 0x00 case 0x50 => 0x16
    case 0x51 => 0x17 case 0x52 => 0x18 case 0x53 => 0x19 case 0x54 => 0x1a
    case 0x56 => 0x1b case 0x57 => 0x1c case 0x58 => 0x1d case 0x59 => 0x1e
    case 0x5a => 0x1f
    case _ => Invalid
  }

  /** The table lookup the decoder performs: the character is cast to a byte, so only
      its low 8 bits select the entry (LookupIsTable). */
  function Lookup(c: Char16): Byte
  {
    ReverseEntry(LowByte(c))
  }

  /** The low 8 bits of a code unit, which is what C#'s (byte) cast keeps. */
  function LowByte(c: Char16): (b: int)
    ensures 0 <= b < 256
    ensures c < 256 ==> b == c
  {
    if c < 256 then c else c % 256
  }

  /** The 32 canonical symbols: digits and upper-case letters except I, L, O and U. */
  predicate IsSymbol(c: int)
  {
    ('0' as int <= c <= '9' as int || 'A' as int <= c <= 'Z' as int) &&
    c != 'I' as int && c != 'L' as int && c != 'O' as int && c != 'U' as int
  }

  /** ASCII lower-casing, as String.ToLower does on the encoder's output. */
  function LowerCase(c: Char16): Char16
  {
    if 'A' as int <= c <= 'Z' as int then c + 32 else c
  }

  /** The character a decoder reads c as: 'O' and 'o' as '0', 'I', 'i', 'L' and 'l'
      as '1', any other lower-case letter as its upper-case form. */
  function Canonical(c: int): (r: int)
    ensures 0 <= c < 256 ==> 0 <= r < 256
    ensures IsSymbol(c) ==> r == c
  {
    if c == 'O' as int || c == 'o' as int then '0' as int
    else if c == 'I' as int || c == 'i' as int || c == 'L' as int || c == 'l' as int then '1' as int
    else if 'a' as int <= c <= 'z' as int then c - 32
    else c
  }

  /** What the reverse table should hold at byte b, stated from the forward table:
      the value of the symbol b stands for, or the invalid marker. */
  predicate EntryAgrees(b: int)
    requires 0 <= b < 256
  {
    ReverseEntry(b) == ReverseTable[b] &&
    if IsSymbol(Canonical(b)) then
      ReverseTable[b] < 32 && ForwardTable[ReverseTable[b] as int] == Canonical(b)
    else
      ReverseTable[b] == Invalid
  }

  lemma ReverseTableBlock48()
    ensures forall b :: 48 <= b < 52 ==> EntryAgrees(b)
  {
    forall b | 48 <= b < 52 ensures EntryAgrees(b) {
      assert b == 48 || b == 49 || b == 50 || b == 51;
    }
  }

  lemma ReverseTableBlock52()
    ensures forall b :: 52 <= b < 56 ==> EntryAgrees(b)
  {
    forall b | 52 <= b < 56 ensures EntryAgrees(b) {
      assert b == 52 || b == 53 || b == 54 || b == 55;
    }
  }

  lemma ReverseTableBlock56()
    ensures forall b :: 56 <= b < 60 ==> EntryAgrees(b)
  {
    forall b | 56 <= b < 60 ensures EntryAgrees(b) {
      assert b == 56 || b == 57 || b == 58 || b == 59;
    }
  }

  lemma ReverseTableBlock60()
    ensures forall b :: 60 <= b < 64 ==> EntryAgrees(b)
  {
    forall b | 60 <= b < 64 ensures EntryAgrees(b) {
      assert b == 60 || b == 61 || b == 62 || b == 63;
    }
  }

  lemma ReverseTableBlock64()
    ensures forall b :: 64 <= b < 68 ==> EntryAgrees(b)
  {
    forall b | 64 <= b < 68 ensures EntryAgrees(b) {
      assert b == 64 || b == 65 || b == 66 || b == 67;
    }
  }

  lemma ReverseTableBlock68()
    ensures forall b :: 68 <= b < 72 ==> EntryAgrees(b)
  {
    forall b | 68 <= b < 72 ensures EntryAgrees(b) {
      assert b == 68 || b == 69 || b == 70 || b == 71;
    }
  }

  lemma ReverseTableBlock72()
    ensures forall b :: 72 <= b < 76 ==> EntryAgrees(b)
  {
    forall b | 72 <= b < 76 ensures EntryAgrees(b) {
      assert b == 72 || b == 73 || b == 74 || b == 75;
    }
  }

  lemma ReverseTableBlock76()
    ensures forall b :: 76 <= b < 80 ==> EntryAgrees(b)
  {
    forall b | 76 <= b < 80 ensures EntryAgrees(b) {
      assert b == 76 || b == 77 || b == 78 || b == 79;
    }
  }

  lemma ReverseTableBlock80()
    ensures forall b :: 80 <= b < 84 ==> EntryAgrees(b)
  {
    forall b | 80 <= b < 84 ensures EntryAgrees(b) {
      assert b == 80 || b == 81 || b == 82 || b == 83;
    }
  }

  lemma ReverseTableBlock84()
    ensures forall b :: 84 <= b < 88 ==> EntryAgrees(b)
  {
    forall b | 84 <= b < 88 ensures EntryAgrees(b) {
      assert b == 84 || b == 85 || b == 86 || b == 87;
    }
  }

  lemma ReverseTableBlock88()
    ensures forall b :: 88 <= b < 92 ==> EntryAgrees(b)
  {
    forall b | 88 <= b < 92 ensures EntryAgrees(b) {
      assert b == 88 || b == 89 || b == 90 || b == 91;
    }
  }

  lemma ReverseTableBlock92()
    ensures forall b :: 92 <= b < 96 ==> EntryAgrees(b)
  {
    forall b | 92 <= b < 96 ensures EntryAgrees(b) {
      assert b == 92 || b == 93 || b == 94 || b == 95;
    }
  }

  lemma ReverseTableBlock96()
    ensures forall b :: 96 <= b < 100 ==> EntryAgrees(b)
  {
    forall b | 96 <= b < 100 ensures EntryAgrees(b) {
      assert b == 96 || b == 97 || b == 98 || b == 99;
    }
  }

  lemma ReverseTableBlock100()
    ensures forall b :: 100 <= b < 104 ==> EntryAgrees(b)
  {
    forall b | 100 <= b < 104 ensures EntryAgrees(b) {
      assert b == 100 || b == 101 || b == 102 || b == 103;
    }
  }

  lemma ReverseTableBlock104()
    ensures forall b :: 104 <= b < 108 ==> EntryAgrees(b)
  {
    forall b | 104 <= b < 108 ensures EntryAgrees(b) {
      assert b == 104 || b == 105 || b == 106 || b == 107;
    }
  }

  lemma ReverseTableBlock108()
    ensures forall b :: 108 <= b < 112 ==> EntryAgrees(b)
  {
    forall b | 108 <= b < 112 ensures EntryAgrees(b) {
      assert b == 108 || b == 109 || b == 110 || b == 111;
    }
  }

  lemma ReverseTableBlock112()
    ensures forall b :: 112 <= b < 116 ==> EntryAgrees(b)
  {
    forall b | 112 <= b < 116 ensures EntryAgrees(b) {
      assert b == 112 || b == 113 || b == 114 || b == 115;
    }
  }

  lemma ReverseTableBlock116()
    ensures forall b :: 116 <= b < 120 ==> EntryAgrees(b)
  {
    forall b | 116 <= b < 120 ensures EntryAgrees(b) {
      assert b == 116 || b == 117 || b == 118 || b == 119;
    }
  }

  lemma ReverseTableBlock120()
    ensures forall b :: 120 <= b < 124 ==> EntryAgrees(b)
  {
    forall b | 120 <= b < 124 ensures EntryAgrees(b) {
      assert b == 120 || b == 121 || b == 122 || b == 123;
    }
  }

  lemma ReverseTableBlock124()
    ensures forall b :: 124 <= b < 128 ==> EntryAgrees(b)
  {
    forall b | 124 <= b < 128 ensures EntryAgrees(b) {
      assert b == 124 || b == 125 || b == 126 || b == 127;
    }
  }

  lemma {:induction false} ReverseTableOutside()
    ensures forall b :: 0 <= b < 48 || 128 <= b < 256 ==> EntryAgrees(b)
  {
    assert |ReverseTable| == 256;
  }

  /** Every byte maps to the value of the symbol it stands for (accepting lower case
      and the look-alikes), and every other byte maps to the invalid marker. */
  lemma ReverseTableCorrect()
    ensures |ReverseTable| == 256
    ensures forall b :: 0 <= b < 256 ==> EntryAgrees(b)
  {
    ReverseTableOutside();
    ReverseTableBlock48();
    ReverseTableBlock52();
    ReverseTableBlock56();
    ReverseTableBlock60();
    ReverseTableBlock64();
    ReverseTableBlock68();
    ReverseTableBlock72();
    ReverseTableBlock76();
    ReverseTableBlock80();
    ReverseTableBlock84();
    ReverseTableBlock88();
    ReverseTableBlock92();
    ReverseTableBlock96();
    ReverseTableBlock100();
    ReverseTableBlock104();
    ReverseTableBlock108();
    ReverseTableBlock112();
    ReverseTableBlock116();
    ReverseTableBlock120();
    ReverseTableBlock124();
  }

  /** What the forward table promises at value v: a canonical symbol, which the reverse
      table maps back to v in both cases. */
  predicate ForwardEntryAgrees(v: int)
    requires 0 <= v < 32
  {
    IsSymbol(ForwardTable[v]) &&
    Lookup(ForwardTable[v]) as int == v &&
    Lookup(LowerCase(ForwardTable[v])) as int == v
  }

  lemma ForwardTableBlock0()
    ensures forall v :: 0 <= v < 4 ==> ForwardEntryAgrees(v)
  {
    forall v | 0 <= v < 4 ensures ForwardEntryAgrees(v) {
      assert v == 0 || v == 1 || v == 2 || v == 3;
    }
  }

  lemma ForwardTableBlock4()
    ensures forall v :: 4 <= v < 8 ==> ForwardEntryAgrees(v)
  {
    forall v | 4 <= v < 8 ensures ForwardEntryAgrees(v) {
      assert v == 4 || v == 5 || v == 6 || v == 7;
    }
  }

  lemma ForwardTableBlock8()
    ensures forall v :: 8 <= v < 12 ==> ForwardEntryAgrees(v)
  {
    forall v | 8 <= v < 12 ensures ForwardEntryAgrees(v) {
      assert v == 8 || v == 9 || v == 10 || v == 11;
    }
  }

  lemma ForwardTableBlock12()
    ensures forall v :: 12 <= v < 16 ==> ForwardEntryAgrees(v)
  {
    forall v | 12 <= v < 16 ensures ForwardEntryAgrees(v) {
      assert v == 12 || v == 13 || v == 14 || v == 15;
    }
  }

  lemma ForwardTableBlock16()
    ensures forall v :: 16 <= v < 20 ==> ForwardEntryAgrees(v)
  {
    forall v | 16 <= v < 20 ensures ForwardEntryAgrees(v) {
      assert v == 16 || v == 17 || v == 18 || v == 19;
    }
  }

  lemma ForwardTableBlock20()
    ensures forall v :: 20 <= v < 24 ==> ForwardEntryAgrees(v)
  {
    forall v | 20 <= v < 24 ensures ForwardEntryAgrees(v) {
      assert v == 20 || v == 21 || v == 22 || v == 23;
    }
  }

  lemma ForwardTableBlock24()
    ensures forall v :: 24 <= v < 28 ==> ForwardEntryAgrees(v)
  {
    forall v | 24 <= v < 28 ensures ForwardEntryAgrees(v) {
      assert v == 24 || v == 25 || v == 26 || v == 27;
    }
  }

  lemma ForwardTableBlock28()
    ensures forall v :: 28 <= v < 32 ==> ForwardEntryAgrees(v)
  {
    forall v | 28 <= v < 32 ensures ForwardEntryAgrees(v) {
      assert v == 28 || v == 29 || v == 30 || v == 31;
    }
  }

  /** Looking up a symbol of the forward table gives back its value, and so does looking
      up its lower-case form; entry 32, '=', is never reached by a 5-bit value. */
  lemma ForwardTableCorrect()
    ensures |ForwardTable| == 33 && ForwardTable[32] == '=' as int
    ensures forall v :: 0 <= v < 32 ==>
      IsSymbol(ForwardTable[v]) && Lookup(ForwardTable[v]) as int == v &&
      Lookup(LowerCase(ForwardTable[v])) as int == v
  {
    ForwardTableBlock0();
    ForwardTableBlock4();
    ForwardTableBlock8();
    ForwardTableBlock12();
    ForwardTableBlock16();
    ForwardTableBlock20();
    ForwardTableBlock24();
    ForwardTableBlock28();
    forall v | 0 <= v < 32
      ensures IsSymbol(ForwardTable[v]) && Lookup(ForwardTable[v]) as int == v &&
        Lookup(LowerCase(ForwardTable[v])) as int == v
    {
      assert ForwardEntryAgrees(v);
    }
  }

  /** The decoder's validity test on a looked-up value: the value has none of the top
      three bits set exactly when the character's low byte stands for a symbol, and the
      value is then that symbol's position in the forward table. */
  lemma LookupCorrect(c: Char16)
    ensures Lookup(c) & 0xE0 == 0 <==> IsSymbol(Canonical(LowByte(c)))
    ensures Lookup(c) & 0xE0 == 0 ==>
      Lookup(c) < 32 && ForwardTable[Lookup(c) as int] == Canonical(LowByte(c))
    ensures Lookup(c) & 0xE0 != 0 ==> Lookup(c) == Invalid
  {
    ReverseTableCorrect();
    assert EntryAgrees(LowByte(c));
  }

  /** The decoder's lookup reads the reverse table at the character's low byte. */
  lemma LookupIsTable(c: Char16)
    ensures Lookup(c) == ReverseTable[LowByte(c)]
  {
    ReverseTableCorrect();
    assert EntryAgrees(LowByte(c));
  }

  /** An accepted character is read exactly as the canonical symbol it stands for. */
  lemma LookupCanonical(c: Char16)
    requires Lookup(c) & 0xE0 == 0
    ensures IsSymbol(Canonical(LowByte(c)))
    ensures Lookup(Canonical(LowByte(c))) == Lookup(c)
  {
    LookupCorrect(c);
    ForwardTableCorrect();
  }

  /** A canonical symbol is the forward-table entry at its own value. */
  lemma SymbolOfValue(c: Char16)
    requires IsSymbol(c)
    ensures Lookup(c) < 32 && ForwardTable[Lookup(c) as int] == c
  {
    LookupCorrect(c);
  }

  /** A symbol and its lower-case form have the same value. */
  lemma LowerCaseLookup(c: Char16)
    requires IsSymbol(c)
    ensures Lookup(LowerCase(c)) & 0xE0 == 0
    ensures Lookup(LowerCase(c)) == Lookup(c)
  {
    assert Canonical(LowByte(LowerCase(c))) == c;
    LookupCorrect(LowerCase(c));
    LookupCanonical(LowerCase(c));
  }

  /** The encoder's table read: the symbol of a 5-bit value. */
  function Symbol(v: Byte): (c: Char16)
    requires v < 32
    ensures IsSymbol(c)
  {
    ForwardTableCorrect();
    ForwardTable[v as int]
  }

  /** The reverse table maps the symbol of a value back to that value, and so it does
      the symbol's lower-case form. */
  lemma SymbolLookup(v: Byte)
    requires v < 32
    ensures Lookup(Symbol(v)) == v
    ensures Lookup(LowerCase(Symbol(v))) == v
  {
    ForwardTableCorrect();
  }
}
