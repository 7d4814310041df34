# Crockford Base32 codec, modelled in Dafny

This project models the `CFBase32` class of the ClockfordBase32 library: a C# codec between
byte arrays and Douglas Crockford's Base32 alphabet, without padding.

**Encoder.** `ConvertToBase32Array` turns each group of five bytes into eight symbols by
masking and shifting. A trailing group of 1 to 4 bytes becomes 2, 4, 5 or 7 symbols. Its
callers are:
- `ToBase32String`: the whole array, or a range given by offset and length;
- `ToBase32CharArray`: writes into a caller's array from an output offset;
- `ToBase32String(Guid)`: an unrolled 16-byte case.

`ToBase32_CalculateAndValidateOutputLength` computes the exact output length. It throws
`OutOfMemoryException` when that length does not fit in an `int`.

**Decoder.**
- `FromBase32CharPtr` strips trailing blanks and `'='`. It rejects a remaining length of 1,
  3 or 6 modulo 8, and sizes the result.
- `FromBase32_Decode` looks up every character's low byte in a 256-entry reverse table. It
  rejects any value with one of its top three bits set. Each group of eight values becomes
  five bytes, and a tail of 2, 4, 5 or 7 values becomes 1 to 4 bytes.
- Look-alikes are carried entirely by the reverse table: lower case letters, `O`/`o` for 0,
  and `I`/`i`/`L`/`l` for 1.

**How the model is built.**
- Modules follow the structure of the code:
  - `Tables`: the two tables;
  - `Lengths`: the two length computations;
  - `Encoding` and `Decoding`: what the codec computes, as functions on sequences;
  - `Encoder` and `Decoder`: the C# methods, as imperative Dafny over arrays, each proved
    against those functions;
  - `RoundTrip`: how encoding and decoding relate;
  - `Vectors`: the library's test vectors;
  - `Splicing`: writing a block into a buffer, shared by both sides.
- Types:
  - a C# `byte` is a `bv8`, so a left shift drops the bits that leave the byte, as the
    `(byte)` casts do;
  - a C# `char` is a UTF-16 code unit (`Char16`, 0..65535);
  - exceptions become `Failure` values of a `Result`, one error kind per cause.
- The input buffers are only read, so they are sequences. The output buffers and the
  decoder's eight-value scratch buffer `cbOut` are arrays written in place. The new contents
  are stated with `Splice`: the old contents with one block replaced.
- The reverse table is kept as the literal 256-entry sequence of the source. The lookup is
  written as a per-character function, `ReverseEntry`, and `ReverseTableCorrect` proves it
  equal to the table at every byte.

## Model

| member | source | states |
|---|---|---|
| Tables.ForwardTableCorrect | ClockfordBase32/CFBase32.cs:45-48 | the forward table has 33 entries, the last is '=', and each of the 32 values has a canonical symbol that the reverse table maps back to that value, in upper and lower case |
| Tables.ReverseTableCorrect | ClockfordBase32/CFBase32.cs:50-81 | the reverse table has 256 entries; a byte standing for a symbol (lower case and the look-alikes O, I, L included) holds that symbol's forward-table position, and every other byte holds 0xff |
| Tables.Canonical | ClockfordBase32/CFBase32.cs:50-81 | the aliasing the reverse table encodes: a canonical symbol reads as itself, and a byte stays a byte |
| Tables.LowByte | ClockfordBase32/CFBase32.cs:471 | the (byte) cast of a char: a value in 0..255, equal to the char when the char is below 256 |
| Tables.LookupIsTable | ClockfordBase32/CFBase32.cs:471 | the decoder's lookup is the reverse table read at the character's low byte |
| Tables.LookupCorrect | ClockfordBase32/CFBase32.cs:469-478 | a looked-up value passes the 0xE0 test exactly when the low byte stands for a symbol; it is then that symbol's forward-table position, and otherwise the table's 0xff |
| Tables.LookupCanonical | ClockfordBase32/CFBase32.cs:50-81 | an accepted character reads as the canonical symbol it stands for |
| Tables.SymbolOfValue | ClockfordBase32/CFBase32.cs:45-81 | a canonical symbol is the forward-table entry at the position it looks up to |
| Tables.LowerCaseLookup | ClockfordBase32/CFBase32.cs:50-81 | a symbol and its lower-case form are both accepted with the same value |
| Tables.Symbol | ClockfordBase32/CFBase32.cs:294-301 | the encoder's table read of a 5-bit value is a canonical symbol, so '=' is never emitted |
| Tables.SymbolLookup | ClockfordBase32/CFBase32.cs:45-81 | the reverse table maps the symbol of every 5-bit value back to it, also in lower case |
| Lengths.EncodedLengthSplit | ClockfordBase32/CFBase32.cs:257-267 | k whole groups and a tail of r bytes take 8k symbols plus 0, 2, 4, 5 or 7 for r = 0..4 |
| Lengths.ValidSymbolCountLeftover | ClockfordBase32/CFBase32.cs:401-420 | the accepted symbol counts are exactly those whose bits leave fewer than five bits over after the whole bytes they hold |
| Lengths.TailBytesLeftover | ClockfordBase32/CFBase32.cs:401-420 | a tail of t symbols decodes to the number of whole bytes its 5t bits hold, with fewer than five bits left over |
| Lengths.ValidSymbolCountGroups | ClockfordBase32/CFBase32.cs:446-447 | whole groups of eight symbols in front of a tail do not change whether the count is accepted |
| Lengths.EncodedLengthClosedForm | ClockfordBase32/CFBase32.cs:251-275 | the symbol count is n / 5 * 8 plus 0, 2, 4, 5 or 7 for n % 5, as the length function computes it |
| Lengths.EncodedLengthIsCeiling | ClockfordBase32/CFBase32.cs:251-275 | the symbol count is the fewest 5-bit symbols that hold 8n bits, with under five bits of padding |
| Lengths.OutputLength | ClockfordBase32/CFBase32.cs:251-275 | the length function succeeds exactly when the symbol count fits in an int, then returns it, and otherwise fails with OutOfMemory |
| Lengths.OutputLengthLimit | ClockfordBase32/CFBase32.cs:271-272 | the length function accepts exactly the inputs of at most 1342177279 bytes |
| Lengths.DecodedLength | ClockfordBase32/CFBase32.cs:401-420 | the decoder's size switch gives a size exactly for the accepted lengths, and that size is the decoded size |
| Lengths.DecodedLengthCases | ClockfordBase32/CFBase32.cs:401-420 | the rejected lengths are exactly those of 1, 3 or 6 modulo 8, and an accepted length L gives 5L/8 bytes |
| Lengths.SymbolCountSplit | ClockfordBase32/CFBase32.cs:446-447 | a length is loopCnt groups of eight plus tailSize, it is accepted when its tail is, and it then decodes to 5 * loopCnt bytes plus the tail's |
| Lengths.DecodedSizeOfEncodedLength | ClockfordBase32/CFBase32.cs:251-275 | every encoding length is accepted by the decoder and decodes to the original byte count |
| Lengths.EncodedLengthOfDecodedSize | ClockfordBase32/CFBase32.cs:401-420 | every accepted length is the encoding length of the byte count it decodes to |
| Encoding.GroupValue | ClockfordBase32/CFBase32.cs:294-301 | each mask-and-shift picks a 5-bit value |
| Encoding.EncodeValues | ClockfordBase32/CFBase32.cs:291-351 | the values of a byte sequence are as many as the encoded length says, all 5-bit |
| Encoding.GroupValues | ClockfordBase32/CFBase32.cs:294-301 | the eight values of a group are 5-bit values |
| Encoding.TailValues | ClockfordBase32/CFBase32.cs:305-351 | a tail of 1 to 4 bytes gives 2, 4, 5 or 7 values, all 5-bit |
| Encoding.EncodeTailSwitch4 | ClockfordBase32/CFBase32.cs:307-317 | the seven values of a four-byte tail are those of the zero-completed group |
| Encoding.EncodeTailSwitch3 | ClockfordBase32/CFBase32.cs:318-328 | the five values of a three-byte tail are those of the zero-completed group |
| Encoding.EncodeTailSwitch2 | ClockfordBase32/CFBase32.cs:329-339 | the four values of a two-byte tail are those of the zero-completed group |
| Encoding.EncodeTailSwitch1 | ClockfordBase32/CFBase32.cs:340-350 | the two values of a one-byte tail are those of the zero-completed group |
| Encoding.Encode | ClockfordBase32/CFBase32.cs:279-353 | an encoding has the encoded length and consists of canonical symbols only |
| Encoding.SymbolsLookup | ClockfordBase32/CFBase32.cs:45-81 | the reverse table reads every emitted symbol back as its value, in either case |
| Encoding.GroupLayout | ClockfordBase32/CFBase32.cs:294-301 | a group's eight 5-bit values, concatenated, are exactly its 40 bits read big-endian |
| Encoding.TailLayout | ClockfordBase32/CFBase32.cs:305-351 | a tail's values, completed with zero values, hold exactly the tail's bits followed by zero bits (the same 40 bits as the tail completed with zero bytes), and the bits of the last value that hold no input bit are zero |
| Encoding.EncodeLayout | ClockfordBase32/CFBase32.cs:291-303 | symbols 8k..8k+8 of an encoding hold exactly the 40 bits of input group k |
| Encoding.EncodeTailLayout | ClockfordBase32/CFBase32.cs:305-351 | the values after the whole groups are the tail's values: completed with zero values they hold exactly the tail's bits followed by zero bits, and the last value's unused bits are zero |
| Encoding.EncodeAppend | ClockfordBase32/CFBase32.cs:291-303 | encoding whole groups followed by more bytes is encoding each part |
| Encoding.EncodeValuesGroupAt | ClockfordBase32/CFBase32.cs:291-303 | values 8k..8k+8 of an encoding are those of input bytes 5k..5k+5 |
| Decoding.TrimEnd | ClockfordBase32/CFBase32.cs:392-398 | a prefix of the input that does not end in a blank or '=', everything after it being blanks or '=' |
| Decoding.IsTrimChar | ClockfordBase32/CFBase32.cs:395 | a blank or '=' is never an accepted symbol, so trimming never drops one |
| Decoding.Accepted | ClockfordBase32/CFBase32.cs:474-476 | the 0xE0 test on a looked-up value accepts exactly the 5-bit values |
| Decoding.LookupAll | ClockfordBase32/CFBase32.cs:469-478 | one looked-up value per character, and all of them 5-bit when every character is accepted |
| Decoding.GroupBytesLayout | ClockfordBase32/CFBase32.cs:484-506 | the five bytes assembled from eight 5-bit values are exactly their 40 bits read big-endian |
| Decoding.GroupBytes | ClockfordBase32/CFBase32.cs:484-506 | eight values give five bytes |
| Decoding.TailDecode | ClockfordBase32/CFBase32.cs:522-549 | a tail of 2, 4, 5 or 7 values gives 1, 2, 3 or 4 bytes |
| Decoding.DecodeTailSwitch7 | ClockfordBase32/CFBase32.cs:524-531 | the four bytes of a seven-value tail are the first four of the zero-completed group's and read no missing value |
| Decoding.DecodeTailSwitch5 | ClockfordBase32/CFBase32.cs:532-538 | the three bytes of a five-value tail are the first three of the zero-completed group's |
| Decoding.DecodeTailSwitch4 | ClockfordBase32/CFBase32.cs:539-544 | the two bytes of a four-value tail are the first two of the zero-completed group's |
| Decoding.DecodeTailSwitch2 | ClockfordBase32/CFBase32.cs:545-549 | the byte of a two-value tail is the first of the zero-completed group's |
| Decoding.DecodeValues | ClockfordBase32/CFBase32.cs:460-555 | accepted value sequences decode to the decoded size of their length |
| Decoding.Decode | ClockfordBase32/CFBase32.cs:383-441 | decoding fails only with InvalidLength or InvalidSymbol, and a result has the size the length switch computes from the trimmed length |
| RoundTrip.GroupRoundTrip | ClockfordBase32/CFBase32.cs:484-506 | the decoder's byte assembly inverts the encoder's group split |
| RoundTrip.GroupValuesRoundTrip | ClockfordBase32/CFBase32.cs:294-301 | the encoder's group split inverts the decoder's byte assembly on any eight 5-bit values |
| RoundTrip.TailRoundTrip | ClockfordBase32/CFBase32.cs:525-549 | the decoder's tail switch inverts the encoder's tail switch |
| RoundTrip.TailValuesRoundTrip | ClockfordBase32/CFBase32.cs:525-549 | a tail of values re-encodes to itself exactly when its unused low bits are zero |
| RoundTrip.DecodeEncodeValues | ClockfordBase32/CFBase32.cs:460-555 | the values of any bytes have an accepted length and decode to those bytes |
| RoundTrip.EncodeDecodeValues | ClockfordBase32/CFBase32.cs:460-555 | accepted values re-encode to themselves exactly when the last partial group's unused bits are zero |
| RoundTrip.DecodeEncode | ClockfordBase32/CFBase32.cs:362-380 | decoding the encoding of any byte sequence gives it back |
| RoundTrip.DecodeLowerEncode | ClockfordBase32Tests/TestPrivates.cs:84-89 | decoding the lower-cased encoding of any byte sequence gives it back |
| RoundTrip.DecodeSucceeds | ClockfordBase32/CFBase32.cs:392-420 | decoding succeeds exactly when the trimmed length is accepted and every retained character's low byte stands for a symbol; InvalidLength exactly when the length is rejected, whatever the characters |
| RoundTrip.DecodeReadsCanonicalForm | ClockfordBase32/CFBase32.cs:50-81 | a decodable string decodes like its canonical form, each character replaced by the symbol its low byte stands for |
| RoundTrip.ReencodeGivesCanonicalForm | ClockfordBase32/CFBase32.cs:525-549 | re-encoding a decoded string gives back its canonical form exactly when its last symbol's unused bits are zero |
| RoundTrip.SymbolsInjective | ClockfordBase32/CFBase32.cs:45-48 | distinct value sequences give distinct symbol strings |
| RoundTrip.CanonicalIsSymbols | ClockfordBase32/CFBase32.cs:50-81 | the canonical form of accepted characters is the symbol string of their values |
| RoundTrip.TrimEndIgnoresPadding | ClockfordBase32/CFBase32.cs:392-398 | trimming ignores any trailing blanks and '=' added to a string |
| RoundTrip.DecodeIgnoresPadding | ClockfordBase32/CFBase32.cs:390-398 | appending blanks and '=' does not change what a string decodes to |
| RoundTrip.DecodeOfValues | ClockfordBase32/CFBase32.cs:460-520 | a string of accepted length with no blank or '=' whose characters look up to 5-bit values decodes to the bytes of those values |
| RoundTrip.LowerAll | ClockfordBase32Tests/TestPrivates.cs:88 | String.ToLower on an encoding lower-cases every character |
| RoundTrip.CanonicalAll | ClockfordBase32/CFBase32.cs:50-81 | each character replaced by the canonical symbol of its low byte |
| RoundTrip.SameSymbol | ClockfordBase32/CFBase32.cs:45-81 | two canonical symbols with the same value are the same |
| Encoder.ConvertGroup | ClockfordBase32/CFBase32.cs:294-302 | the eight symbols of a group are written at the output position and nothing else changes |
| Encoder.ConvertTail | ClockfordBase32/CFBase32.cs:305-351 | the tail's 7, 5, 4 or 2 symbols are written at the output position, their count is returned, and nothing else changes |
| Encoder.EncodeGroupsIsEncode | ClockfordBase32/CFBase32.cs:291-303 | writing k groups one after another gives the encoding of those 5k bytes |
| Encoder.ConvertGroups | ClockfordBase32/CFBase32.cs:291-303 | the conversion loop writes the encoding of the whole groups from the output start and nothing else |
| Encoder.ConvertGroupAt | ClockfordBase32/CFBase32.cs:291-303 | one iteration extends the groups written so far by the next group's symbols |
| Encoder.ConvertToBase32Array | ClockfordBase32/CFBase32.cs:279-353 | the encoding of inData[offset..offset+length] is written from the output start, its length is returned, and nothing else changes |
| Encoder.OutputLengthOf | ClockfordBase32/CFBase32.cs:251-275 | the length check succeeds exactly up to MaxEncodable bytes and then gives the encoded length |
| Encoder.ToBase32StringRange | ClockfordBase32/CFBase32.cs:154-190 | the argument errors for length, offset and the range, in the code's order; OutOfMemory above MaxEncodable bytes; otherwise the encoding of the range |
| Encoder.ToBase32String | ClockfordBase32/CFBase32.cs:84-93 | the encoding of the whole array, or OutOfMemory above MaxEncodable bytes |
| Encoder.ToBase32CharArray | ClockfordBase32/CFBase32.cs:195-245 | the argument errors in the code's order, 0 for an empty input, OutOfMemory, the output-room error, the index error of line 236; on success the encoding is written at offsetOut, its length is returned and the rest of outArray is unchanged; on failure outArray is unchanged |
| Encoder.GuidLayout | ClockfordBase32/CFBase32.cs:116-143 | the encoding of 16 bytes is three whole groups and a one-byte tail |
| Encoder.ToBase32StringGuid | ClockfordBase32/CFBase32.cs:100-149 | the unrolled code gives 26 characters, equal to the general encoding of the 16 bytes |
| Decoder.DecodeGroups | ClockfordBase32/CFBase32.cs:460-509 | the first k groups of eight characters decode to 5k bytes |
| Decoder.GroupWritten | ClockfordBase32/CFBase32.cs:484-507 | the five bytes written for group k extend the bytes of the groups before it |
| Decoder.DecodeGroupStep | ClockfordBase32/CFBase32.cs:460-509 | decoding one more group appends that group's five bytes |
| Decoder.DecodeTailStep | ClockfordBase32/CFBase32.cs:511-549 | decoding a prefix that ends in a tail appends the tail's bytes to the groups' |
| Decoder.LookupAllAppend | ClockfordBase32/CFBase32.cs:469-471 | the lookup commutes with concatenation |
| Decoder.DecodeValuesAppend | ClockfordBase32/CFBase32.cs:460-555 | whole groups followed by an accepted length decode part by part |
| Decoder.AcceptedPrefix | ClockfordBase32/CFBase32.cs:460-520 | accepting input positions 0..n through the pointer is accepting the prefix of n characters |
| Decoder.LookupSymbols | ClockfordBase32/CFBase32.cs:469-478 | the lookup loop succeeds exactly when every character in the range is accepted, and then cbOut holds their values |
| Decoder.DecodeGroup | ClockfordBase32/CFBase32.cs:484-506 | the five byte assignments write the group's bytes at the output position and nothing else |
| Decoder.DecodeTail | ClockfordBase32/CFBase32.cs:522-555 | the tail switch succeeds exactly for 0, 2, 4, 5 or 7 values, writes and counts their 0 to 4 bytes, and otherwise fails with InvalidLength and writes nothing |
| Decoder.DecodeGroupsLoop | ClockfordBase32/CFBase32.cs:460-509 | the group loop succeeds exactly when all characters of the whole groups are accepted, and then dest starts with their bytes |
| Decoder.DecodeGroupAt | ClockfordBase32/CFBase32.cs:460-509 | one iteration either accepts group i and extends the bytes written, or finds a rejected character that rejects the whole input |
| Decoder.FromBase32Decode | ClockfordBase32/CFBase32.cs:444-559 | InvalidSymbol for any rejected character, checked before the length; otherwise InvalidLength for a rejected length; otherwise dest starts with the decoding and its size is returned |
| Decoder.AcceptedRangeSplit | ClockfordBase32/CFBase32.cs:469-520 | the characters of a range are all accepted exactly when those of both its parts are |
| Decoder.TailWritten | ClockfordBase32/CFBase32.cs:522-556 | the tail's bytes written right after the groups' complete the decoding of the whole input, whose size is the groups' bytes plus the tail's |
| Decoder.DecodeRest | ClockfordBase32/CFBase32.cs:511-556 | after the groups, the tail's lookup and switch give InvalidSymbol, InvalidLength or the full decoding and its size |
| Decoder.SwitchTail | ClockfordBase32/CFBase32.cs:522-556 | once the tail's values are looked up: InvalidLength exactly for a rejected length, and otherwise the full decoding in dest and its size |
| Decoder.FromBase32CharPtr | ClockfordBase32/CFBase32.cs:383-441 | trimming, sizing, allocating and decoding give exactly Decode of the first inputLength characters |
| Decoder.FromBase32String | ClockfordBase32/CFBase32.cs:362-380 | the result is Decode of the string |
| Decoder.NewGuid | ClockfordBase32/CFBase32.cs:358 | the identifier constructor accepts exactly 16 bytes and keeps them |
| Decoder.GuidFromBase32String | ClockfordBase32/CFBase32.cs:356-359 | a decoding failure propagates; a decoding is accepted exactly when it is 16 bytes long |
| Vectors.EncodePlusMinus | ClockfordBase32Tests/TestPrivates.cs:25 | the UTF-8 bytes of "±" encode to RARG |
| Vectors.DecodePlusMinus | ClockfordBase32Tests/TestPrivates.cs:110 | RARG decodes to the UTF-8 bytes of "±" |
| Vectors.HelloWorldGroup0 | ClockfordBase32Tests/TestPrivates.cs:24 | the first five bytes of "Hello, world" encode to 91JPRV3F |
| Vectors.HelloWorldGroup1 | ClockfordBase32Tests/TestPrivates.cs:24 | the next five encode to 5GG7EVVJ |
| Vectors.HelloWorldTail | ClockfordBase32Tests/TestPrivates.cs:24 | the last two encode to DHJ0 |
| Vectors.EncodeHelloWorld | ClockfordBase32Tests/TestPrivates.cs:24 | "Hello, world" encodes to 91JPRV3F5GG7EVVJDHJ0 |
| Vectors.DecodeHelloWorld | ClockfordBase32Tests/TestPrivates.cs:109 | 91JPRV3F5GG7EVVJDHJ0 decodes to "Hello, world" |
| Vectors.EncodeHJ | ClockfordBase32Tests/TestPrivates.cs:50-51 | "hj" encodes to D1N0 |
| Vectors.DecodesToHJ | ClockfordBase32Tests/TestPrivates.cs:51-78 | any four characters, the last not a trim character, whose values are those of D1N0 decode to "hj" |
| Vectors.DecodeDirect | ClockfordBase32Tests/TestPrivates.cs:54 | D1N0 decodes to "hj" |
| Vectors.DecodeLowerCase | ClockfordBase32Tests/TestPrivates.cs:57 | d1n0 decodes to "hj" |
| Vectors.DecodeLetterO | ClockfordBase32Tests/TestPrivates.cs:60-63 | D1NO and D1No decode to "hj" |
| Vectors.DecodeLetterI | ClockfordBase32Tests/TestPrivates.cs:66-69 | DiN0 and DIN0 decode to "hj" |
| Vectors.DecodeLetterL | ClockfordBase32Tests/TestPrivates.cs:72-75 | DlN0 and DLN0 decode to "hj" |
| Vectors.DecodeMixed | ClockfordBase32Tests/TestPrivates.cs:78 | Dino decodes to "hj" |
| Vectors.DecodeLowByteAlias | ClockfordBase32/CFBase32.cs:471 | a character U+0144 decodes like 'D', because only its low byte is looked up |
| Vectors.DecodePadded | ClockfordBase32/CFBase32.cs:392-398 | D1N0 followed by blanks and '=' decodes to "hj" |
| Vectors.DecodeInnerBlank | ClockfordBase32/CFBase32.cs:511-520 | a blank inside the string is rejected as an invalid symbol |
| Vectors.DecodeBadLength | ClockfordBase32/CFBase32.cs:402-419 | three symbols fail with InvalidLength, even when a symbol is invalid too |
| Vectors.DecodeBadSymbol | ClockfordBase32/CFBase32.cs:511-520 | an invalid character in an accepted length fails with InvalidSymbol |
| Vectors.DecodeUnusedBits | ClockfordBase32/CFBase32.cs:545-546 | 00 and 01 both decode to one zero byte: the tail's unused bits are not checked |
| Vectors.EncodeZero | ClockfordBase32/CFBase32.cs:340-347 | one zero byte encodes to 00 |
| Vectors.EncodeEmpty | ClockfordBase32/CFBase32.cs:174-175 | no bytes encode to the empty string, and the empty string or padding alone decodes to no bytes |
| Vectors.GuidRoundTrip | ClockfordBase32/CFBase32.cs:356-359 | the 26 symbols of any 16 bytes decode back to them, and the identifier constructor accepts them |

## Left out

- Pointers and pinning (`fixed`) are left out. The read-only inputs become sequences. A
  pointer into an output array becomes the array and a start offset.
- The only consequence of pointers that is kept is `&outArray[offsetOut]` at line 236. With
  an empty range and `offsetOut == outArray.Length` it throws, and this is modelled as its own
  outcome, `IndexOutOfRange`.
- `Guid.ToByteArray()` and `new Guid(byte[])` are .NET library code whose byte order is not
  part of this model. The identifier is modelled as its 16 bytes in that order, and
  `GuidFromBase32String` only checks that the decoding is 16 bytes long.
- Null-argument checks are left out, since Dafny references and sequences are never null.
  So are `Contract.*` calls, `Debug.WriteLine` and the security attributes.
- The C# methods take arrays, whose length fits in an `int`. `ToBase32StringRange`,
  `ToBase32String` and `ToBase32CharArray` state this as a precondition on the lengths.
- Concurrent modification of the buffers is left out, because the model is sequential.
  - The decoder's ignored `actualResultLength` is left out with it.
  - So is the unused `destLength` parameter.
- The exception messages of the decoder's three `ArgumentException`s are left out. The model
  keeps their causes apart instead: a rejected length is `InvalidLength`, and a rejected
  character is `InvalidSymbol`.
- Decoder.FromBase32Decode: on failure the contract does not say what `dest` holds. The C#
  code throws away the partly written buffer along with the exception.
- Decoder.DecodeGroupsLoop: on failure the contract does not say what `dest` holds, for the
  same reason.
- Decoder.DecodeRest: on failure the contract does not say what `dest` holds, for the same
  reason.
- Decoder.SwitchTail: on failure the contract does not say what `dest` holds, for the same
  reason.
- The contents of the scratch buffer `cbOut` after a decoding are not stated. The C# code
  drops it.
- The 410-character test vectors over all 256 byte values are not restated as concrete
  lemmas. `RoundTrip.DecodeEncode` and `RoundTrip.DecodeLowerEncode` cover every input.
- The identifier test's loop never runs, because it counts down from 1000 while `i < 0`.
  `Vectors.GuidRoundTrip` states what it was meant to check.
