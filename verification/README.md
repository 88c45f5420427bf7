# Models of the pg_query C extension

This project models the algorithmic cores of the C sources that the pg_query extension is built
from, and proves that each of them agrees with something simpler. Every core that works in place is
a method or a class whose contract is a reference function; what the sources promise is proved about
the reference functions.

**Wire codec** (`Bytes`, `Varint`, `Schema`, `WireMessage`, `WireFormat`, `WireStructure`, `WireTyped`,
`WireRoundTrip`, `WireAgain`, `WireNext`, `WirePack`, `WireBuffer`, `WireSlots`, `WireScan`, `WireStore`, `WireUnpack`,
`WireCodec`). `WireMessage` holds messages in memory and the merging of two of them, `WireFormat` the
reference meaning: `Enc` is the bytes a message stands for, `Decode` the message that bytes stand for,
following the Protocol Buffers Encoding specification (sections "Base 128 Varints", "Signed Integers" and
"Message Structure"). `WireStructure` writes the encoding out a second time, without records and in the
numbers of the specification, and proves it the same; `WireNext` says what one more record does to a
message decoded from any bytes, and which bytes are refused. The length calculator, the encoder into a
flat array and the encoder into a growing buffer are proved against `Enc`, the two-pass decoder with its
slabs and counted arrays against `Decode`, on input of any bytes. `RoundTrip` and `DecodeAfterEncode` are
about the references, and `EncodersAgree` and `PackThenUnpack` put everything together.

**Deparser** (`DeparseGrammar`, `DeparseExpr`, `DeparseParse`; `DeparseText`, `DeparseComments`,
`DeparseLayout`, `DeparseEmit`, `DeparseShape`, `DeparseRun`). For expressions the reference is a precedence
parser after section 4.1.6, "Operator Precedence", of the PostgreSQL 17 documentation: printing then parsing
is the identity, so is printing and parsing what has been parsed, and parentheses are printed only where the
code asks for them. The layout machine of levels, groups and parts is proved to neither lose, invent nor
reorder content for any well-nested printer, under any options; pretty printed parts get a line each, and it
is stated exactly when no comment is printed twice. `DeparseShape` follows a clause and a comment through to
the characters.

**Fingerprint** (`FingerprintSpec`, `FingerprintCache`, `FingerprintSame`, `FingerprintShows`,
`FingerprintSites`, `FingerprintLimits`). The reference recomputes and re-sorts the item hashes of a list
at every visit, the code shares a cache. They agree, and the cache bounds the number of visits. The
fingerprint is a congruence for permuting and duplicating items of sorted lists, and it shows what is
written: trees that differ in one visible text have different fingerprints, sorted lists excepted, for
which the exact condition is given.

**Normalisation** (`NormalizeIds`, `NormalizeWalk`, `NormalizeRepeats`, `NormalizeReach`,
`NormalizeLengths`, `NormalizeRewrite`, `NormalizeQuery`). The walk that numbers constants with GROUP BY
items reusing ids of targets, the merge of sorted locations with tokens, and the rewriting in a bounded
buffer, alone and together, for any fingerprint function.

**Smaller machines**: truncation (`TruncateText`, `Truncate`, `TruncateTree`, `TruncateShown`),
the two-pass splitter (`Split`), and the containers `PgList` and `Bitmapset`. `Common` holds optional
values, the maximum and a sort.

C's integer widths are written out where they matter: varints, shifts that lose bits, two's complement,
`INT_MAX` limits, the unsigned parenthesis counter. The lexer is a finite sequence of tokens with
offsets, the hash a function on streams, the deparsed text of a tree a function of the tree.

## Where the code does less than it says

- `truncate_mbstr` passes the number of characters to `pg_mbcharcliplen`, whose second argument is a
  number of bytes. Text with multi-byte characters can be cut shorter than the limit; `ClippedChars`
  gives the exact condition and `FourByteText` a family of such texts.
- A field with a list of a single null keeps its name in the fingerprint stream although it contributes
  nothing, and a list of two nulls does not (`OneNullShows`). `LoneNilShows` states that this is the
  only duplication that shows; `Congruence` leaves it out.
- The items of a sorted list are written one behind the other in the order of their digests, so changing
  one of them may leave the stream as it is (`RankMatters`). `PlaceShows` gives the exact condition in terms
  of the texts of the items in between; `OneTextShows` states that every change shows that does not move an
  item of a sorted list among the digests.
- A GROUP BY item gives back as many ids as it takes over, even if fewer were taken by it because of a
  GROUP BY inside of the item. Then the next constant gets an id that is in use (`GivesBack`), as in
  `IdRepeats`. `NumberConstants` states that the numbering is sound throughout if and only if no item does
  so. None does when the fingerprints that are compared tell whether there is a target list inside
  (`AgreeIsSound`), but they cannot tell below depth 100 (`CutoffHides`).
- The grammar (`doNegate`, `makeAndExpr` and `makeOrExpr`, lines 53548 to 53618 of
  `ext/pg_query/src_backend_parser_gram.c`) folds a minus sign into a numeric constant and flattens
  an AND in the first place of an AND (an OR in the first place of an OR) in spite of parentheses.
  `PrintThenGrammar` states that deparsing and parsing with these actions is the identity on exactly
  the other trees; `MinusIsFolded` and `AndIsFlattened` are two that change.
- A oneof that selects a string or message which is NULL or the default is not written at all.
  `CanonSame` states that a message comes back the same exactly when there is no such oneof;
  `NullChoiceIsLost` is one that does not.
- The decoder refuses a tag whose first byte has no number bits, but accepts the number 0 when it is spread
  over more bytes. Such an unknown field is kept, and its encoding is refused (`ZeroIsLost`); `FitsAgain`
  and `DecodeEncodeDecode` state that this and the room in the slabs are all that keeps a decoded message
  from being encoded and decoded again.
- The comment on `merge_messages` says that fields set in the earlier message only are taken over. A
  plain number is not (`NumberIsLost`), an optional byte string goes by its contents instead of its
  presence, and a oneof that is not selected in either message makes the merge, and with it the
  decoding, fail (`EmptyChoicesFail`). `MergeKeepsPromise` gives the exact condition.
- The comment on `generate_normalized_query` says that the result cannot be longer than the query. It can
  be (`OneBecomesLonger`); `FillLength` gives the exact length and `NoLongerExactly` the condition. The
  bound that always holds is ten characters more per constant (`GenerateNormalizedQuery`).
- When the parentheses do not balance at the end of the input, the splitter drops the pending
  statement; `SplitIsComplete` gives the exact condition and `UnclosedIsLost` an input. Its counter is
  unsigned and wraps around.
- Comments are printed twice, for some comments, exactly when a statement starts where another one
  prints (`TwiceExactly`); for statements in text order, when one visits a location at or behind the
  start of a later one (`TwiceInTextOrder`, with `TwiceOtherwise` as an instance).
- `deparseEmit` looks at the byte before the output string when that is still empty. The byte is a
  parameter, `below`, of the model. `ByteBelow` states when it is looked at, that the output is the same
  for every such byte otherwise, and `SpaceFirst` is a statement that gets there.

## Model

| member | source | states |
|---|---|---|
| `Varint.EncodeIsVarint` | ext/pg_query/protobuf-c.c:778-802 | the reference varint has its continuation bit set on every byte but the last ("Base 128 Varints" of the Protocol Buffers Encoding specification) |
| `Varint.NumberOfEncode` | ext/pg_query/protobuf-c.c:2400-2416 | the seven-bit groups of the varint of a number add up to that number, for every natural number |
| `Varint.Uint32SizeExact` | ext/pg_query/protobuf-c.c:264-278 | `uint32_size` is the length of the varint, for every 32-bit value |
| `Varint.Uint64SizeExact` | ext/pg_query/protobuf-c.c:349-369 | `uint64_size` is the length of the varint, for every 64-bit value |
| `Varint.Int32SizeExact` | ext/pg_query/protobuf-c.c:289-305 | `int32_size` is the length of the sign-extended varint, ten for every negative int32 |
| `Varint.TagSizeExact` | ext/pg_query/protobuf-c.c:239-253 | `get_tag_size` is the length of the tag, for every field number below 2^32 and every wire type |
| `Varint.ZigZagInverse32` | ext/pg_query/protobuf-c.c:316-322 | `unzigzag32` undoes `zigzag32` on every int32, and the image is 2v or -2v-1 |
| `Varint.ZigZagInverse64` | ext/pg_query/protobuf-c.c:380-386 | `unzigzag64` undoes `zigzag64` on every int64, and the image is 2v or -2v-1 |
| `Varint.PackUint32` | ext/pg_query/protobuf-c.c:778-802 | writes the reference varint at the offset, nothing else, and returns its length |
| `Varint.NegativeDigits` | ext/pg_query/protobuf-c.c:815-830 | the ten bytes written for a negative int32 are the varint of its 64-bit two's complement image |
| `Varint.PackInt32` | ext/pg_query/protobuf-c.c:815-830 | writes the varint of the sign-extended value, negative values in ten bytes, and nothing else |
| `Varint.PackUint64` | ext/pg_query/protobuf-c.c:860-887 | the split into two 32-bit halves and the byte that straddles them give the reference varint |
| `Varint.LittleEndianInverse` | ext/pg_query/protobuf-c.c:917-958 | reading a fixed-width little-endian value back gives the value, for every width |
| `Varint.PackTag` | ext/pg_query/protobuf-c.c:1069-1076 | `tag_pack` followed by the caller's OR of the wire type writes the varint of 8 * number + type |
| `Varint.ScanVarint` | ext/pg_query/protobuf-c.c:2727-2739 | the loop finds the length of the varint at the front, or 0 when none ends within the limit |
| `Varint.ParseTagAndWireType` | ext/pg_query/protobuf-c.c:2063-2095 | the loop gives exactly the field number, wire type and length that the reference varint of the tag stands for, and fails on all other input |
| `Varint.TagRoundTrip` | ext/pg_query/protobuf-c.c:2063-2095 | every field number from 1 to 2^32-1 and every wire type come back from their tag, whatever bytes follow |
| `Varint.ParseUint32Bytes` | ext/pg_query/protobuf-c.c:2400-2416 | the parser gives the low 32 bits of the number that the bytes stand for, also when the shift of the fifth byte loses bits |
| `Varint.ParseUint64Bytes` | ext/pg_query/protobuf-c.c:2446-2464 | the parser gives the number modulo 2^64 |
| `Varint.ParseBooleanBytes` | ext/pg_query/protobuf-c.c:2486-2494 | true exactly when some value bit of some byte is set |
| `Varint.Int32RoundTrip` | ext/pg_query/protobuf-c.c:2418-2422 | parse after pack is the identity on every int32, and the length is `int32_size` |
| `Varint.Uint32RoundTrip` | ext/pg_query/protobuf-c.c:2400-2416 | parse after pack is the identity on every uint32, and the length is `uint32_size` |
| `Varint.Uint64RoundTrip` | ext/pg_query/protobuf-c.c:2446-2464 | parse after pack is the identity on every uint64, and the length is `uint64_size` |
| `Schema.RunsAscend` | ext/pg_query/protobuf-c.c:2022-2061 | the runs of consecutive field numbers ascend without overlap, which is what allows halving |
| `Schema.IntRangeLookup` | ext/pg_query/protobuf-c.c:2022-2061 | the binary search over the ranges finds the field of every number in the descriptor and reports -1 for every other number, negative ones included |
| `WireMessage.MergeMessages` | ext/pg_query/protobuf-c.c:2174-2346 | field by field, the later message takes in the earlier one as the reference merge does, or fails with it |
| `WireMessage.MergeFieldsAre` | ext/pg_query/protobuf-c.c:2174-2346 | the outcome of every field in terms of the two messages alone, the order of the fields notwithstanding: lists are joined, a oneof is taken over when the later message selects nothing, and so on; the merge fails exactly when one field does |
| `WireMessage.UnionMerged` | ext/pg_query/protobuf-c.c:2240-2319 | what a oneof takes over when the later message selects nothing: numbers and booleans always, byte strings with contents and submessages, strings never |
| `WireMessage.SlotMerged` | ext/pg_query/protobuf-c.c:2240-2319 | what a field outside of oneofs takes over, type by type: strings and submessages that only the earlier message has, byte strings by their contents, optional numbers by their quantifier, plain numbers never |
| `WireMessage.MergeTyped` | ext/pg_query/protobuf-c.c:2174-2346 | merging two messages that match a descriptor gives one that matches it |
| `WireMessage.MergeKeepsPromise` | ext/pg_query/protobuf-c.c:2160-2173 | the merge is the one that the comment describes if and only if, down to the last submessage, no plain number is set in the earlier message alone, every oneof is selected in the later message or carries something over from the earlier one, and an optional byte string has contents in the earlier message alone exactly when it is marked as present there alone |
| `WireMessage.NumberIsLost` | ext/pg_query/protobuf-c.c:2313-2319 | a plain number that only the earlier message has is lost |
| `WireMessage.EmptyChoicesFail` | ext/pg_query/protobuf-c.c:2245-2256 | merging fails when neither message selects anything in a oneof |
| `WireFormat.RecsBytesAppend` | ext/pg_query/protobuf-c.c:1472-1524 | the encoding of two runs of records is the concatenation of their encodings |
| `WireRoundTrip.ScanOneRec` | ext/pg_query/protobuf-c.c:3088-3180 | the scan cuts a record off the front of any input that starts with it, and leaves the rest |
| `WireRoundTrip.ScanRecs` | ext/pg_query/protobuf-c.c:3088-3227 | scanning the bytes of a run of records gives the records back in wire order |
| `WireRoundTrip.IntegerRoundTrip` | ext/pg_query/protobuf-c.c:2496-2628 | every number in the range of its type survives its encoding and parsing, casts included |
| `WireRoundTrip.ScalarRoundTrip` | ext/pg_query/protobuf-c.c:2496-2628 | the same for numbers and booleans |
| `WireRoundTrip.PackedRoundTrip` | ext/pg_query/protobuf-c.c:2741-2871 | a packed payload is cut back into exactly its elements, for every element type |
| `WireRoundTrip.TextRoundTrip` | ext/pg_query/protobuf-c.c:2549-2595 | strings and byte strings come back; an absent string is read as an empty one |
| `WireRoundTrip.ValueRoundTrip` | ext/pg_query/protobuf-c.c:2496-2628 | one member of any type, submessages to any depth included, packed and parsed gives the value back |
| `WireRoundTrip.SingularReplay` | ext/pg_query/protobuf-c.c:2630-2705 | replaying the record of a singular, optional or oneof field restores that field and leaves all others alone |
| `WireRoundTrip.ListReplay` | ext/pg_query/protobuf-c.c:2707-2725 | replaying the records of an unpacked list appends its elements in order |
| `WireRoundTrip.PackedReplay` | ext/pg_query/protobuf-c.c:2741-2871 | replaying the record of a packed list restores the whole list |
| `WireRoundTrip.FieldsReplay` | ext/pg_query/protobuf-c.c:3278-3292 | replaying the records of the first i fields builds exactly the message with those fields set |
| `WireRoundTrip.UnknownReplay` | ext/pg_query/protobuf-c.c:1461-1468 | unknown fields come back in order with tag, wire type and bytes |
| `WireRoundTrip.RoundTrip` | ext/pg_query/protobuf-c.c:3025-3316 | decoding the encoding of any well-formed message succeeds and gives the message with left-out fields at their defaults |
| `WireRoundTrip.CanonSame` | ext/pg_query/protobuf-c.c:479-495 | the message that comes back reads the same as the original if and only if no selected oneof string or message is missing, at any depth |
| `WireRoundTrip.DecodeAfterEncode` | ext/pg_query/protobuf-c.c:3025-3316 | decode after encode succeeds, and is the identity for every reader if and only if no selected oneof pointer is missing |
| `WireRoundTrip.NullChoiceIsLost` | ext/pg_query/protobuf-c.c:479-495 | a oneof that selects a NULL string is encoded to nothing and comes back with nothing selected |
| `WireStructure.FourBytesAre` | ext/pg_query/protobuf-c.c:917-931 | the four bytes of a fixed-width value are its base 256 digits, least significant first |
| `WireStructure.ScalarIs` | ext/pg_query/protobuf-c.c:1356-1459 | the member bytes of every number and boolean, type by type: the varint of 2n or -2n-1 for the zigzag types, of n or n + 2^64 for the others, four or eight little-endian bytes, one byte for a boolean |
| `WireStructure.ValueIs` | ext/pg_query/include/protobuf-c/protobuf-c.h:338-344 | a record begins with the varint of 8 * number + 2 for strings, byte strings and submessages, + 1 and + 5 for fixed widths of eight and four bytes, + 0 for all other types, as "Message Structure" says |
| `WireStructure.PackedIs` | ext/pg_query/protobuf-c.c:1374-1446 | a packed list is one record: the varint of 8 * number + 2, the length, and the elements without keys; an empty list is nothing |
| `WireStructure.FieldIs` | ext/pg_query/protobuf-c.c:1479-1518 | which fields are written and which are left out, label by label: defaults, missing pointers, absent optional numbers and unselected oneof members are |
| `WireStructure.EncodingIs` | ext/pg_query/protobuf-c.c:1472-1524 | the reference encoding is, byte for byte, the one written out after "Message Structure": fields in the order of the descriptor, then unknown fields, submessages to any depth |
| `WireStructure.LetterA` | ext/pg_query/include/protobuf-c/protobuf-c.h:338-344 | the string "a" in field 1 is encoded as the bytes 10, 1, 97, and these bytes are decoded to it |
| `WireNext.ScanAppend` | ext/pg_query/protobuf-c.c:3088-3227 | input behind input that is a run of records is scanned on its own |
| `WireNext.NextRecord` | ext/pg_query/protobuf-c.c:3278-3292 | decoding one record more is parsing it into what has been decoded so far |
| `WireNext.LaterValue` | ext/pg_query/protobuf-c.c:2692-2725 | whatever was decoded before, a later number, boolean, string or byte string replaces the one in its field, is selected in its oneof, or is one more element of its list |
| `WireNext.LaterString` | ext/pg_query/protobuf-c.c:2549-2570 | the same for string members of any bytes; the string ends at its first zero byte |
| `WireNext.LaterMessage` | ext/pg_query/protobuf-c.c:2596-2625 | a submessage of any bytes is merged with the one before it in the same field, but not in a oneof or a list |
| `WireNext.LaterRun` | ext/pg_query/protobuf-c.c:2741-2871 | a packed run appends its elements, whether the field is declared packed or not |
| `WireNext.UnknownIsKept` | ext/pg_query/protobuf-c.c:2889-2902 | a field number that is not in the descriptor is kept with wire type and bytes |
| `WireNext.WrongTypeFails` | ext/pg_query/protobuf-c.c:2496-2628 | a member whose wire type is not that of its field makes the input fail |
| `WireNext.AnyTypeIsBoolean` | ext/pg_query/protobuf-c.c:2548-2550 | a boolean is read from a member of any wire type, and is true when some value bit of some byte is set |
| `WireNext.MemberAtFront` | ext/pg_query/protobuf-c.c:3121-3180 | which members can be cut off, wire type by wire type: varints of at most ten bytes, eight or four bytes, a length of at most five bytes below 2^31 with its contents; wire types 3, 4, 6 and 7 never |
| `WireNext.TagAtFront` | ext/pg_query/protobuf-c.c:2063-2095 | a tag is read exactly when it is a varint of at most five bytes whose first byte is at least 8 |
| `WireAgain.RangeExactly` | ext/pg_query/protobuf-c.c:2496-2628 | the numbers that come back from their encoding are exactly those in the range of their type |
| `WireAgain.DecodedSane` | ext/pg_query/protobuf-c.c:3025-3316 | whatever bytes are decoded, merged submessages included: numbers in range, strings without zero bytes, no missing elements, selected oneofs that hold a value |
| `WireAgain.FitsAgain` | ext/pg_query/protobuf-c.c:3025-3316 | a decoded message can be encoded if and only if, at every depth, no unknown field has the number 0 and the members fit the slabs |
| `WireAgain.DecodeEncodeDecode` | ext/pg_query/protobuf-c.c:3025-3316 | decoding, encoding and decoding again gives the same message to every reader, for input of any bytes from which such a message is decoded |
| `WireAgain.ZeroIsLost` | ext/pg_query/protobuf-c.c:2063-2095 | the tag 80 00 for the number 0 is accepted, but its encoding is refused |
| `WirePack.ScalarSize` | ext/pg_query/protobuf-c.c:415-463 | the size of a number or boolean member is the length of its encoding |
| `WirePack.RequiredFieldGetPackedSize` | ext/pg_query/protobuf-c.c:415-463 | tag and member size together are the length of the record |
| `WirePack.RepeatedFieldGetPackedSize` | ext/pg_query/protobuf-c.c:612-687 | the size of a list is the length of its records, one record with a length header when packed, nothing when empty |
| `WirePack.UnknownsGetPackedSize` | ext/pg_query/protobuf-c.c:699-703 | the size of the unknown fields is the length of their records |
| `WirePack.GetPackedSize` | ext/pg_query/protobuf-c.c:710-756 | `protobuf_c_message_get_packed_size` is the length of the reference encoding |
| `WirePack.PackScalar` | ext/pg_query/protobuf-c.c:1356-1459 | writes the member bytes of a number or boolean of any type and nothing else |
| `WirePack.Move` | ext/pg_query/protobuf-c.c:1040-1053 | `memmove` within the output, overlapping or not |
| `WirePack.PutLengthInFront` | ext/pg_query/protobuf-c.c:1040-1053 | the payload that was written one byte or more after its place is moved behind its length header, which leaves length and payload |
| `WirePack.PackMember` | ext/pg_query/protobuf-c.c:1090-1139 | writes exactly the member bytes of a value of any type, submessages included |
| `WirePack.RequiredFieldPack` | ext/pg_query/protobuf-c.c:1090-1139 | writes exactly the record of the value |
| `WirePack.PackedBounds` | ext/pg_query/protobuf-c.c:1323-1339 | a packed payload has at least the minimum size per element and at most ten times as much |
| `WirePack.GuessShortByOne` | ext/pg_query/protobuf-c.c:1374-1446 | the length header guessed from the minimum size is never too long and short by at most one byte, so the assertion before the `memmove` holds |
| `WirePack.PackedBodyPack` | ext/pg_query/protobuf-c.c:1374-1446 | header and payload of a packed field end up as length followed by payload, whether the guess was right or not |
| `WirePack.UnpackedFieldPack` | ext/pg_query/protobuf-c.c:1447-1458 | writes one tagged member per element, in order |
| `WirePack.FieldPack` | ext/pg_query/protobuf-c.c:1479-1518 | writes exactly the records of one field of any label |
| `WirePack.FieldPackNext` | ext/pg_query/protobuf-c.c:1479-1518 | one turn of the loop over the fields extends what is written by the records of the next field |
| `WirePack.FieldsPack` | ext/pg_query/protobuf-c.c:1472-1524 | after the loop exactly the records of all fields are written |
| `WirePack.UnknownFieldPack` | ext/pg_query/protobuf-c.c:1461-1468 | writes exactly the record of the unknown field |
| `WirePack.Pack` | ext/pg_query/protobuf-c.c:1472-1524 | `protobuf_c_message_pack` writes exactly the reference encoding at the given place, changes no other byte and returns its length |
| `WireBuffer.Buffer.constructor` | ext/pg_query/protobuf-c.c:188-219 | a new buffer is empty |
| `WireBuffer.Buffer.Append` | ext/pg_query/protobuf-c.c:190-219 | the contents grow by exactly the bytes appended; the allocation is doubled until they fit |
| `WireBuffer.RequiredFieldPackToBuffer` | ext/pg_query/protobuf-c.c:1547-1644 | appends exactly the record of the value |
| `WireBuffer.PackPayloadToBuffer` | ext/pg_query/protobuf-c.c:1813-1905 | appends exactly the packed payload and returns its length |
| `WireBuffer.PackedFieldPackToBuffer` | ext/pg_query/protobuf-c.c:1907-1941 | appends exactly the record of the packed field, its length computed beforehand |
| `WireBuffer.UnpackedFieldPackToBuffer` | ext/pg_query/protobuf-c.c:1907-1941 | appends one record per element, in order |
| `WireBuffer.UnknownsPackToBuffer` | ext/pg_query/protobuf-c.c:1943-1954 | appends exactly the records of the unknown fields |
| `WireBuffer.PackToBuffer` | ext/pg_query/protobuf-c.c:1958-2011 | `protobuf_c_message_pack_to_buffer` appends exactly the reference encoding and returns its length |
| `WireSlots.PackedFitsCount` | ext/pg_query/protobuf-c.c:2356-2398 | a packed member of any bytes yields at most as many elements as were counted for it, and exactly as many when all of it can be read and the type is not boolean |
| `WireSlots.OneRecordFits` | ext/pg_query/protobuf-c.c:2882-2933 | one record adds to a list at most the slots counted for it, exactly those unless boolean, and to no other list |
| `WireSlots.CountedGrows` | ext/pg_query/protobuf-c.c:3201-3223 | the slots counted for a prefix of the input are at most those counted for all of it |
| `WireSlots.ReplayFits` | ext/pg_query/protobuf-c.c:3278-3292 | whatever records are replayed, submessages merged or not, a list holds at most the slots counted for them, exactly as many unless boolean |
| `WireSlots.SecondPassFits` | ext/pg_query/protobuf-c.c:3278-3292 | for input of any bytes that the first pass accepts and at every moment of the second pass, no list holds more elements than were counted, the next member included; at the end all but boolean lists hold exactly as many, and unknown fields exactly as many |
| `WireTyped.DecodedTyped` | ext/pg_query/protobuf-c.c:3025-3316 | whatever bytes are decoded, the message matches its descriptor |
| `WireScan.MemberSlabs.constructor` | ext/pg_query/protobuf-c.c:3034-3064 | no member is kept at first |
| `WireScan.MemberSlabs.NextSlab` | ext/pg_query/protobuf-c.c:3182-3198 | a further slab of twice the size is opened without losing a member |
| `WireScan.MemberSlabs.Put` | ext/pg_query/protobuf-c.c:3199-3199 | the member is kept behind those before it |
| `WireScan.MemberSlabs.Add` | ext/pg_query/protobuf-c.c:3182-3199 | a member is kept in wire order as long as the slabs together have room, and refused exactly when they are full |
| `WireScan.ScanLengthPrefixed` | ext/pg_query/protobuf-c.c:2110-2146 | the length of prefix and contents, 0 exactly when the prefix is bad, above INT_MAX or longer than the input |
| `WireScan.ScanOne` | ext/pg_query/protobuf-c.c:3088-3180 | one turn of the scan cuts off the record that the reference scan finds, or fails with it |
| `WireScan.CountPackedElements` | ext/pg_query/protobuf-c.c:2356-2398 | the count of a packed member: bytes that end a varint, the quotient of a fixed width, one per byte of booleans, failure for all else |
| `WireScan.FieldOfTag` | ext/pg_query/protobuf-c.c:3100-3120 | remembering the previous field instead of searching gives the same field |
| `WireScan.KeepMember` | ext/pg_query/protobuf-c.c:3182-3223 | keeps the member and adds its slots, or fails exactly when the slabs are full or it cannot be counted |
| `WireScan.ScanAll` | ext/pg_query/protobuf-c.c:3088-3227 | the first pass succeeds exactly on inputs that are runs of records which can be counted and fit the slabs; then the slabs hold the records in wire order and the counters are the slots of each field |
| `WireStore.ParseElement` | ext/pg_query/protobuf-c.c:2741-2871 | the next element of a packed member and its length |
| `WireStore.ParsePacked` | ext/pg_query/protobuf-c.c:2741-2871 | stores exactly the elements of the payload behind those already there, within the counted room, and fails exactly when the payload is not whole elements |
| `WireStore.Building.constructor` | ext/pg_query/protobuf-c.c:3229-3276 | the structure stands for the initialised message |
| `WireStore.Building.StoreSlot` | ext/pg_query/protobuf-c.c:2692-2705 | a singular member is overwritten, all others stay |
| `WireStore.Building.StoreUnion` | ext/pg_query/protobuf-c.c:2630-2689 | case and storage of a oneof are overwritten together |
| `WireStore.Building.StoreUnknown` | ext/pg_query/protobuf-c.c:2882-2933 | the unknown field goes behind those already stored |
| `WireStore.Building.StoreElement` | ext/pg_query/protobuf-c.c:2707-2725 | the element goes behind those of its list |
| `WireStore.Building.StorePacked` | ext/pg_query/protobuf-c.c:2741-2871 | the elements of a packed member go behind those of their list |
| `WireStore.Building.Finish` | ext/pg_query/protobuf-c.c:3294-3299 | reading the structure back gives the message it stands for |
| `WireUnpack.ReadString` | ext/pg_query/protobuf-c.c:2549-2570 | a string is its bytes up to the first zero byte |
| `WireUnpack.ParseRequiredMember` | ext/pg_query/protobuf-c.c:2496-2628 | parses one member as the reference does, wire type errors included; a boolean is taken under any wire type; the merge into an earlier submessage is in `JoinEarlier` |
| `WireUnpack.JoinEarlier` | ext/pg_query/protobuf-c.c:2596-2625 | a submessage takes in the one that came before it in the same field, or the merge fails |
| `WireUnpack.ParseMember` | ext/pg_query/protobuf-c.c:2882-2933 | stores one scanned member in the structure as the reference does, a repeated singular submessage merged, in the room that was counted |
| `WireUnpack.RoomForNext` | ext/pg_query/protobuf-c.c:3278-3292 | before every member of the second pass there is room for all it can add |
| `WireUnpack.ReplayStops` | ext/pg_query/protobuf-c.c:3284-3290 | a member that cannot be stored decides the outcome of the whole second pass |
| `WireUnpack.ReplaySlab` | ext/pg_query/protobuf-c.c:3284-3291 | the members of one slab are replayed in order |
| `WireUnpack.ReplaySlabs` | ext/pg_query/protobuf-c.c:3278-3292 | slab after slab, the last as far as it is filled, all members are replayed in wire order |
| `WireUnpack.Allocate` | ext/pg_query/protobuf-c.c:3229-3276 | the initialised message gets arrays of exactly the counted sizes |
| `WireUnpack.Unpack` | ext/pg_query/protobuf-c.c:3025-3316 | for input of any bytes, `protobuf_c_message_unpack` computes the reference decoding: a message or a failure |
| `WireCodec.FitsPacks` | ext/pg_query/protobuf-c.c:1472-1524 | a message that matches its descriptor meets every demand of the encoders |
| `WireCodec.EncodersAgree` | ext/pg_query/protobuf-c.c:1472-1524 | size calculator, flat encoder and buffer encoder agree on the length and on every byte |
| `WireCodec.PackThenUnpack` | ext/pg_query/protobuf-c.c:3025-3316 | decoding in two passes what the encoder wrote gives the message back, unchanged to every reader if and only if no selected oneof pointer is missing |
| `DeparseExpr.ParsePrinted` | ext/pg_query/postgres_deparse.c:877-953 | in every context whose next token binds weaker, the reference parser reads a printed expression as one derivation and goes on behind it |
| `DeparseExpr.ReferenceOf` | ext/pg_query/postgres_deparse.c:877-953 | the derivation, parenthesised groups being nodes of their own, is the printed tree |
| `DeparseExpr.PrintThenParse` | ext/pg_query/postgres_deparse.c:3732-3775 | printing then parsing is the identity on every tree of the fragment: the parentheses are enough for the precedences of section 4.1.6 of the PostgreSQL documentation |
| `DeparseExpr.GrammarOf` | ext/pg_query/postgres_deparse.c:3741-3990 | the actions of the real grammar (`doNegate`, `makeAndExpr`, `makeOrExpr`) rebuild a tree if and only if it has no minus sign before a numeric constant and no AND first in an AND or OR first in an OR |
| `DeparseExpr.PrintThenGrammar` | ext/pg_query/postgres_deparse.c:3741-3990 | printing then parsing with the actions of the grammar is the identity on exactly those trees |
| `DeparseExpr.MinusIsFolded` | ext/pg_query/postgres_deparse.c:3741-3775 | a minus sign before the constant 1 comes back as the constant -1 |
| `DeparseExpr.AndIsFlattened` | ext/pg_query/postgres_deparse.c:3935-3990 | an AND first in an AND comes back as one AND of three |
| `DeparseExpr.Sink.DeparseAnyOperator` | ext/pg_query/postgres_deparse.c:1298-1315 | writes the possibly qualified operator |
| `DeparseExpr.Sink.DeparseQualOp` | ext/pg_query/postgres_deparse.c:1318-1330 | writes the plain symbol, or `OPERATOR(...)` when it is qualified |
| `DeparseExpr.Sink.DeparseAExpr` | ext/pg_query/postgres_deparse.c:3741-3775 | writes both operands around the operator, atoms as bare tokens and anything else in parentheses; a prefix operator has no left operand |
| `DeparseExpr.Sink.DeparseBoolExpr` | ext/pg_query/postgres_deparse.c:3935-3990 | writes the arguments with the keyword between them, nested AND and OR in parentheses; NOT before its argument |
| `DeparseExpr.Sink.DeparseBooleanTest` | ext/pg_query/postgres_deparse.c:4839-4877 | writes the operand, in parentheses exactly when it is an AND, OR or NOT, and the test |
| `DeparseExpr.Sink.DeparseExpr` | ext/pg_query/postgres_deparse.c:877-953 | writes the tokens of a tree of the fragment |
| `DeparseExpr.DeparseThenParse` | ext/pg_query/postgres_deparse.c:877-953 | printing a tree of the fragment and parsing its tokens gives the tree back, by a derivation without needless parentheses |
| `DeparseExpr.NoNeedlessParens` | ext/pg_query/postgres_deparse.c:3732-3765 | in the derivation of a printed tree every parenthesised group encloses something other than an atom or a group; operands of operators are atoms or such groups, groups inside of AND, OR and NOT enclose an AND or OR, groups that are tested enclose a boolean expression, and nothing else is parenthesised |
| `DeparseParse.ParsePrintParse` | ext/pg_query/postgres_deparse.c:3732-3775 | whatever tokens are parsed, the tree is one of the fragment, and printing and parsing it again gives it back |
| `DeparseParse.SymbolsAreOps` | ext/pg_query/postgres_deparse.c:375-405 | which strings are operator symbols, character by character |
| `DeparseParse.PrefixTakes` | ext/pg_query/postgres_deparse.c:3741-3765 | in the reference parser a sign takes the next operand alone, any other prefix operator also what binds tighter than `OP` operators |
| `DeparseParse.NotTakes` | ext/pg_query/postgres_deparse.c:3935-3990 | NOT takes operators, but neither AND nor OR |
| `DeparseExpr.OperandsPrinted` | ext/pg_query/postgres_deparse.c:3741-3765 | an operand that is a column, a parameter or a constant is printed as its bare token, any other operand between parentheses |
| `DeparseExpr.KeywordsPrinted` | ext/pg_query/postgres_deparse.c:4839-4877 | the tokens of AND, OR, NOT, the six boolean tests and the two forms of operators |
| `DeparseGrammar.PrecedenceTable` | ext/pg_query/postgres_deparse.c:3732-3739 | the reference parser has the operators in the order of section 4.1.6 of the PostgreSQL documentation |
| `DeparseGrammar.OperandGoesTo` | ext/pg_query/postgres_deparse.c:3741-3765 | of two operators the tighter one takes the operand between them, of two equally tight ones the first, and comparisons do not chain; this is why the parentheses matter |
| `DeparseText.JoinedContent` | ext/pg_query/postgres_deparse.c:685-707 | joining parts into a line keeps their characters |
| `DeparseText.MergedContent` | ext/pg_query/postgres_deparse.c:685-707 | merging keeps the content of the parts in order |
| `DeparseText.MergeParts` | ext/pg_query/postgres_deparse.c:685-707 | the parts are cut into runs, one line each: nothing is lost or reordered, the parts of a line are kept apart, every joined line had indent plus length within the maximum, and no line could have taken in the part after it |
| `DeparseText.JoinedApart` | ext/pg_query/postgres_deparse.c:685-707 | all parts merged into a line touch what is in front of them without white space only behind an opening parenthesis |
| `DeparseComments.PrintedOnce` | ext/pg_query/postgres_deparse.c:563-605 | a run of visits prints each comment at most once, and exactly those pending ones that it reaches |
| `DeparseComments.StatementPrints` | ext/pg_query/postgres_deparse.c:3145-3183 | a statement prints exactly the comments matched between its start and the largest location it visits, each once |
| `DeparseComments.NoCommentTwice` | ext/pg_query/postgres_deparse.c:3145-3183 | when no statement of a multi-statement query starts where another one prints comments, no comment is printed twice |
| `DeparseComments.PrintedTwice` | ext/pg_query/postgres_deparse.c:3145-3183 | a comment that lies between start and largest visited location of two statements is printed twice |
| `DeparseComments.TwiceExactly` | ext/pg_query/postgres_deparse.c:3145-3183 | no comment is printed twice, whatever the comments are, if and only if no statement starts where another one prints comments |
| `DeparseComments.TwiceInTextOrder` | ext/pg_query/postgres_deparse.c:3145-3183 | for statements in text order that is so if and only if every location visited lies below every later start |
| `DeparseComments.TwiceOtherwise` | ext/pg_query/postgres_deparse.c:3145-3183 | one input: the comment at location 10 is printed by both of two statements that visit it |
| `DeparseLayout.LayoutState.constructor` | ext/pg_query/postgres_deparse.c:3151-3156 | a statement starts with no level open and nothing laid out; sizes of 0 stand for 4 and 80 |
| `DeparseLayout.LayoutState.CurrentPartGroup` | ext/pg_query/postgres_deparse.c:429-440 | the current group exists afterwards and has a part; nothing is said by it |
| `DeparseLayout.LayoutState.Append` | ext/pg_query/postgres_deparse.c:487-491 | the content grows by exactly the string, in the current part |
| `DeparseLayout.LayoutState.RemoveTrailingSpace` | ext/pg_query/postgres_deparse.c:499-504 | exactly one space at the end of the current part goes, if there is one; everything else stays |
| `DeparseLayout.LayoutState.MarkCurrentPartNonMergable` | ext/pg_query/postgres_deparse.c:449-454 | the current part alone is barred from merging |
| `DeparseLayout.LayoutState.AppendPart` | ext/pg_query/postgres_deparse.c:519-530 | a part is opened, an empty last one giving way when deduplicating; the content stays |
| `DeparseLayout.LayoutState.AppendCommaAndPart` | ext/pg_query/postgres_deparse.c:532-545 | the content grows by a comma, before or after the break as the option says |
| `DeparseLayout.LayoutState.AppendPartGroup` | ext/pg_query/postgres_deparse.c:547-561 | a group with one empty part is opened; the content grows by its keyword |
| `DeparseLayout.LayoutState.IncreaseNestingLevel` | ext/pg_query/postgres_deparse.c:654-671 | a level is opened, indented once or twice, and the parent's part is barred from merging |
| `DeparseLayout.LayoutState.AppendComment` | ext/pg_query/postgres_deparse.c:575-603 | the line breaks before and behind the comment, its text, the bar from merging and the note that it is printed, all exactly |
| `DeparseLayout.LayoutState.AppendCommentsIfNeeded` | ext/pg_query/postgres_deparse.c:563-605 | exactly the comments pending at the location are printed, in order, and noted, each with its line breaks and the bar from merging |
| `DeparseLayout.LayoutState.RemoveTrailingEmptyPart` | ext/pg_query/postgres_deparse.c:506-517 | the last part of the current group goes when it is empty, and nothing else does |
| `DeparseLayout.LayoutState.DecreaseNestingLevel` | ext/pg_query/postgres_deparse.c:673-752 | the lines of the level, merged where asked for, go behind the parent's parts or become results; no content is lost or reordered |
| `DeparseLayout.CloseGroup` | ext/pg_query/postgres_deparse.c:681-723 | the lines of a group are its parts, merged and kept apart where the mode asks for it, behind the keyword; the content is that of the group |
| `DeparseLayout.CloseLevel` | ext/pg_query/postgres_deparse.c:681-740 | the lines of a level are those of its groups in order |
| `DeparseEmit.EmittedContent` | ext/pg_query/postgres_deparse.c:620-646 | emitting adds exactly the content of the parts, whatever the options are |
| `DeparseEmit.Apart` | ext/pg_query/postgres_deparse.c:620-646 | two parts touch without white space only behind an opening parenthesis or in front of a closing one or a semicolon, or at the very start of an output that is still empty |
| `DeparseEmit.ByteBelow` | ext/pg_query/postgres_deparse.c:620-646 | the byte before the output string is looked at if and only if, without pretty printing, the first of several parts leaves the string empty; otherwise the output does not depend on that byte |
| `DeparseEmit.OneLineEach` | ext/pg_query/postgres_deparse.c:628-640 | pretty printed parts without newlines are written as one line each: cut at its newlines, the output is the parts, each behind `indent` spaces and without a space at its end |
| `DeparseEmit.FlatPart` | ext/pg_query/postgres_deparse.c:620-642 | without pretty printing the next part follows behind a single space, or directly behind an opening parenthesis and in front of a closing one or a semicolon; an empty part changes nothing |
| `DeparseEmit.NoNewline` | ext/pg_query/postgres_deparse.c:620-642 | without pretty printing emitting adds no newline |
| `DeparseEmit.FirstPart` | ext/pg_query/postgres_deparse.c:620-642 | the first part is written as it is, without a space at its end |
| `DeparseShape.MergedTwo` | ext/pg_query/postgres_deparse.c:685-707 | two parts share a line exactly when indent, both lengths and the space between fit the maximum |
| `DeparseShape.PartIn` | ext/pg_query/postgres_deparse.c:407-417 | a part is indented with its level and once more in an indented group, and is merged in groups of one mode only |
| `DeparseShape.WithoutEmptyIs` | ext/pg_query/postgres_deparse.c:506-517 | the last part goes when it is empty, else nothing does |
| `DeparseShape.SelectShown` | ext/pg_query/postgres_deparse.c:547-752 | a SELECT clause of two targets a and b and a FROM clause t, any words, laid out with default sizes: one line per clause while the targets fit 80 characters, otherwise the targets on lines of their own, indented by four |
| `DeparseShape.PrettyComment` | ext/pg_query/postgres_deparse.c:572-603 | the parts after a comment in pretty printed text: the line breaks asked for, one less at the start of a clause, and the comment in a part that is never merged |
| `DeparseShape.FlatComment` | ext/pg_query/postgres_deparse.c:572-603 | without pretty printing newlines, comment and newlines go into the current part, which is never merged |
| `DeparseEmit.Emit` | ext/pg_query/postgres_deparse.c:607-652 | an empty last part is dropped and the others are written with their separators: pretty printed on a line each, behind their indentation, otherwise kept apart by spaces without any newline; the output grows by the content of the results |
| `DeparseRun.Perform` | ext/pg_query/postgres_deparse.c:408-605 | one operation of a printer adds exactly what it says, or the comments that are due |
| `DeparseRun.Run` | ext/pg_query/postgres_deparse.c:654-752 | a well-nested run leaves no level open and everything said in the results, in call order |
| `DeparseRun.DiscardEarlier` | ext/pg_query/postgres_deparse.c:3165-3169 | exactly the comments matched before the start of the statement count as printed |
| `DeparseRun.StartStatement` | ext/pg_query/postgres_deparse.c:3158-3175 | the comments due at the start of a statement become its first results, on a level of their own |
| `DeparseRun.DeparseRawStmtOpts` | ext/pg_query/postgres_deparse.c:3145-3183 | for every well-nested printer and every setting of the options the characters written are those said, in call order, the parts emitted are on lines of their own or kept apart, and the comments printed are those of the statement |
| `DeparseRun.SpaceFirst` | ext/pg_query/postgres_deparse.c:620-646 | a statement behind a comment of a single space, after which that byte is looked at |
| `DeparseRun.SameContent` | ext/pg_query/postgres_deparse.c:3145-3183 | two settings of the layout options give the same non-layout characters |
| `FingerprintSpec.SortFacts` | ext/pg_query/pg_query_fingerprint.c:139-148 | sorting keeps exactly the items, each with its position, in ascending order of their hashes |
| `Common.SortByFacts` | ext/pg_query/pg_query_fingerprint.c:139-148 | sorting by a comparison function orders the elements and only reorders them |
| `FingerprintCache.CoveredMore` | ext/pg_query/pg_query_fingerprint.c:157-196 | a cache that covers a tree still covers it when it has grown |
| `FingerprintCache.ColdBound` | ext/pg_query/pg_query_fingerprint.c:263-310 | the visits of an uncached walk are at most size times one more than the nesting depth of sorted lists |
| `FingerprintCache.NestingBound` | ext/pg_query/pg_query_fingerprint.c:266-269 | sorted lists are nested at most as deep as the cutoff at depth 100 allows |
| `FingerprintCache.SumSort` | ext/pg_query/pg_query_fingerprint.c:198-213 | visiting every item once in sorted order costs the size of the list |
| `FingerprintCache.CachedItems` | ext/pg_query/pg_query_fingerprint.c:157-196 | the sorted hashes are those of recomputing and re-sorting, whether they come from the shared cache or not; a cache hit visits nothing |
| `FingerprintCache.HashItems` | ext/pg_query/pg_query_fingerprint.c:168-185 | the digest of every item is that of a fresh context, although the cache is shared |
| `FingerprintCache.VisitRun` | ext/pg_query/pg_query_fingerprint.c:198-213 | the items are written in hash order without duplicates, without new cache entries, at the cost of the list's size |
| `FingerprintCache.FingerprintList` | ext/pg_query/pg_query_fingerprint.c:150-226 | a list writes the reference stream, leaves the cache correct, and costs its own size once covered |
| `FingerprintCache.FingerprintField` | ext/pg_query/include/pg_query_fingerprint_defs.c:8858-8873 | a child that leaves the digest unchanged takes its field name back |
| `FingerprintCache.FingerprintFields` | ext/pg_query/include/pg_query_fingerprint_defs.c:8852-8927 | the fields of a node are written in order as in the reference |
| `FingerprintCache.FingerprintNode` | ext/pg_query/pg_query_fingerprint.c:263-310 | the stream is the reference one at every node, null pointers and the cutoff included; a covered tree costs at most its size |
| `FingerprintCache.FingerprintTree` | ext/pg_query/pg_query_fingerprint.c:312-325 | the fingerprint computed with the shared cache is the one without any cache, and there are at most size times one more than the nesting depth visits, hence at most 101 times the size |
| `FingerprintSites.CacheExactly` | ext/pg_query/pg_query_fingerprint.c:157-196 | the cache can be keyed by the list alone if and only if no list is sorted in two ways, with other items, under another field or at another depth |
| `FingerprintSites.FlatNesting` | ext/pg_query/pg_query_fingerprint.c:157-196 | a sorted list of texts is nested once, an unsorted one not at all |
| `FingerprintSame.EmitIsOut` | ext/pg_query/pg_query_fingerprint.c:263-310 | given a hash injective on the digested streams, visiting a node appends a text that does not depend on what was written before |
| `FingerprintSame.RunFacts` | ext/pg_query/pg_query_fingerprint.c:198-213 | the run of a sorted list is strictly ascending, holds only items, and loses no hash |
| `FingerprintSame.OutRunSame` | ext/pg_query/pg_query_fingerprint.c:198-213 | lists with the same set of item hashes contribute the same text |
| `FingerprintSame.SameElements` | ext/pg_query/pg_query_fingerprint.c:153-155 | lists with the same set of items, in any order and multiplicity, are the same list |
| `FingerprintSame.OutSame` | ext/pg_query/pg_query_fingerprint.c:150-226 | same trees contribute the same text at every place and depth, the cutoff included |
| `FingerprintSame.Congruence` | ext/pg_query/pg_query_fingerprint.c:312-325 | trees that differ only by permuting or duplicating items of lists in the six sorted fields, at any depth, have equal fingerprints |
| `FingerprintSame.LoneNilShows` | ext/pg_query/include/pg_query_fingerprint_defs.c:8858-8873 | the one duplication that shows: two otherwise same lists contribute the same if and only if both or neither consist of a single null |
| `FingerprintLimits.OneNullShows` | ext/pg_query/include/pg_query_fingerprint_defs.c:8858-8873 | a list of one null and a list of two in the same field write different streams, and have different fingerprints unless the hash collides on these two |
| `FingerprintLimits.CutoffHides` | ext/pg_query/pg_query_fingerprint.c:263-269 | what hangs below a chain of nodes that reaches depth 100 does not show in the stream |
| `FingerprintShows.ScalarShows` | ext/pg_query/pg_query_fingerprint.c:78-136 | above depth 100 every string of a scalar is written in full, one behind the other |
| `FingerprintShows.StringNode` | ext/pg_query/pg_query_fingerprint.c:290-297 | a String node writes "String", "str" and its own text |
| `FingerprintShows.NextField` | ext/pg_query/include/pg_query_fingerprint_defs.c:8852-8927 | a node writes its tag, and every field writes behind what is there |
| `FingerprintShows.TextShows` | ext/pg_query/include/pg_query_fingerprint_defs.c:8852-8858 | scalar text of a node is written like a scalar, except in the places where it is left out |
| `FingerprintShows.ChildShows` | ext/pg_query/include/pg_query_fingerprint_defs.c:8858-8873 | a child writes the name of its field and itself one level deeper; the name goes exactly when nothing was written and the child is not a list of one null |
| `FingerprintShows.DirectShows` | ext/pg_query/include/pg_query_fingerprint_defs.c:270-286 | a child whose own function is called writes its name and what it writes as a node, without the tag |
| `FingerprintShows.NothingShows` | ext/pg_query/pg_query_fingerprint.c:263-274 | null pointers, ignored nodes and everything from depth 100 on write nothing |
| `FingerprintShows.ItemShows` | ext/pg_query/pg_query_fingerprint.c:216-225 | the items of a list in any other than the six sorted fields are written in their order |
| `FingerprintShows.SortedShows` | ext/pg_query/pg_query_fingerprint.c:153-214 | a list in one of the six sorted fields writes the texts of its items, every text once, in ascending order of their digests |
| `FingerprintShows.OneTextShows` | ext/pg_query/pg_query_fingerprint.c:312-325 | trees that differ in one visible text, at any place above depth 100, have different fingerprints, given a hash injective on the digested streams; in a sorted list the item has to keep its place among the digests |
| `FingerprintShows.PlaceShows` | ext/pg_query/pg_query_fingerprint.c:198-214 | two sorted lists of which one item is changed write the same stream if and only if its old text in front of the texts of the items whose digests lie between is the same string as its new text behind them |
| `FingerprintShows.RankMatters` | ext/pg_query/pg_query_fingerprint.c:198-214 | this happens: two sorted lists with one item changed write the same stream |
| `NormalizeIds.NumberedFresh` | ext/pg_query/pg_query_normalize.c:316-347 | consecutive fresh ids extend the range in use without a gap |
| `NormalizeIds.NumberedReuse` | ext/pg_query/pg_query_normalize.c:517-522 | ids already in use leave the range as it is |
| `NormalizeIds.FindTarget` | ext/pg_query/pg_query_normalize.c:502-511 | the first target with the fingerprint, or none |
| `NormalizeIds.EntriesPlaces` | ext/pg_query/pg_query_normalize.c:349-599 | whatever the fingerprints are, the locations of all constants are recorded in walking order |
| `NormalizeIds.NoneTakenOver` | ext/pg_query/pg_query_normalize.c:316-347 | without a SELECT with a target list every constant gets the next fresh id, in order |
| `NormalizeIds.ConsumedBounds` | ext/pg_query/pg_query_normalize.c:440-554 | a walk takes no more ids than it meets constants, and gives back none on balance while every item gives back no more than it has taken |
| `NormalizeIds.RememberedAbove` | ext/pg_query/pg_query_normalize.c:451-475 | the ids remembered for targets are in use |
| `NormalizeIds.GivesBack` | ext/pg_query/pg_query_normalize.c:517-522 | taking over ids and giving as many back keeps the numbering if and only if that many were taken; otherwise the next fresh id is in use already, if it is one at all |
| `NormalizeIds.AgreeIsSound` | ext/pg_query/pg_query_normalize.c:496-522 | no item gives back too many ids when, among targets and GROUP BY items of one SELECT, equal fingerprints agree on target lists |
| `NormalizeIds.TellingAgrees` | ext/pg_query/pg_query_normalize.c:496-522 | fingerprints that tell apart what has a target list from what has none agree on every tree |
| `NormalizeRepeats.IdRepeats` | ext/pg_query/pg_query_normalize.c:496-522 | a query with five constants in which the last one gets the id of the second, when fingerprints do not tell target and item apart |
| `NormalizeWalk.ConstLocations.constructor` | ext/pg_query/pg_query_normalize.c:619-631 | numbering starts at 1 with nothing recorded |
| `NormalizeWalk.ConstLocations.RecordConstLocation` | ext/pg_query/pg_query_normalize.c:316-347 | a location gets the next fresh id, which is recorded when a target is being walked, and which is not in use while the numbering is sound; -1 is passed over |
| `NormalizeWalk.ConstLocations.RecordParam` | ext/pg_query/pg_query_normalize.c:358-376 | a parameter raises the highest number and is recorded |
| `NormalizeWalk.ConstLocations.WalkTarget` | ext/pg_query/pg_query_normalize.c:451-475 | a target is remembered with its fingerprint and the ids recorded in it, none when it contains a SELECT with a target list |
| `NormalizeWalk.ConstLocations.WalkTargets` | ext/pg_query/pg_query_normalize.c:451-475 | every target of the list is remembered, in order; the ids remembered have been given out while the numbering is sound |
| `NormalizeWalk.ConstLocations.AssignIds` | ext/pg_query/pg_query_normalize.c:518-520 | the ids of the new entries are overwritten one by one |
| `NormalizeWalk.ConstLocations.VisitGroupItem` | ext/pg_query/pg_query_normalize.c:496-522 | for any fingerprints: the first target with the item's fingerprint is used up; its ids are taken over and as many given back exactly when it recorded as many as the item has constants; the numbering stays sound if and only if no more ids are given back than were taken |
| `NormalizeWalk.ConstLocations.Match` | ext/pg_query/pg_query_normalize.c:502-511 | the ids of the first target with the fingerprint, if there is one, and the targets without it |
| `NormalizeWalk.ConstLocations.TakeOver` | ext/pg_query/pg_query_normalize.c:517-522 | the ids of the new entries are replaced and as many given back, if the numbers agree, and nothing happens otherwise |
| `NormalizeWalk.ItemKept` | ext/pg_query/pg_query_normalize.c:496-522 | the numbering is sound after a GROUP BY item if and only if it was before it and the item gives back no more ids than it has taken |
| `NormalizeWalk.ConstLocations.WalkGroup` | ext/pg_query/pg_query_normalize.c:481-523 | the items take over ids one after the other, each target once; the numbering stays sound if and only if no item gives back too many |
| `NormalizeWalk.ConstLocations.WalkSelect` | ext/pg_query/pg_query_normalize.c:440-554 | clause after clause the entries of the reference are recorded, for any fingerprints; the numbering stays sound if and only if no GROUP BY item gives back too many |
| `NormalizeWalk.ConstLocations.Walk` | ext/pg_query/pg_query_normalize.c:349-599 | for any tree and any fingerprints exactly the locations and ids of the reference are recorded; the negative ids in use have been exactly those below the next fresh one after every GROUP BY item if and only if no item gives back more ids than it has taken |
| `NormalizeIds.ParamsBelow` | ext/pg_query/pg_query_normalize.c:358-376 | the highest parameter number is at least every parameter number visited |
| `NormalizeIds.PrintedAbove` | ext/pg_query/pg_query_normalize.c:288-292 | while the numbering is sound, fresh ids print above every parameter of the query, and without a gap |
| `NormalizeWalk.NumberConstants` | ext/pg_query/pg_query_normalize.c:349-599 | the walk over a query, for any fingerprints: the entries of the reference, all constant locations in order, the highest parameter, fresh ids above it; sound numbering at every GROUP BY item if and only if none gives back more ids than it has taken |
| `NormalizeLengths.SortKeeps` | ext/pg_query/pg_query_normalize.c:69-81 | sorting by location orders the entries and only reorders them |
| `NormalizeLengths.NextStart` | ext/pg_query/pg_query_normalize.c:142-155 | the first unread token that starts at the location or behind it |
| `NormalizeLengths.FindConstant` | ext/pg_query/pg_query_normalize.c:142-202 | the tokens read and the length of the constant: up to the end of its last token, for a string that starts with U&' up to the white space at that end; -1 when the input ends first |
| `NormalizeLengths.StartAndEnd` | ext/pg_query/pg_query_normalize.c:153-178 | a constant starts where a token does and ends with it, or with the next one behind a minus sign |
| `NormalizeLengths.FillFinds` | ext/pg_query/pg_query_normalize.c:128-205 | when the parser keeps its promise, the token cursor is never past the next constant |
| `NormalizeLengths.FillInConstantLengths` | ext/pg_query/pg_query_normalize.c:105-208 | locations and ids are those of the sorted entries, lengths lie within the query; when locations are constant starts, the first entry of a location reaches to the end of its constant, or for a string that starts with U&' to the white space at that end, and repetitions get -1 |
| `NormalizeRewrite.SymbolLength` | ext/pg_query/pg_query_normalize.c:243-253 | a parameter symbol has at most eleven characters |
| `NormalizeRewrite.SymbolReads` | ext/pg_query/pg_query_normalize.c:286-297 | a symbol is a dollar sign and the decimal digits, without leading zeros, of the id, for a fresh id of the number that follows the highest parameter by it |
| `NormalizeRewrite.ChosenDisjoint` | ext/pg_query/pg_query_normalize.c:255-278 | the intervals replaced ascend, are disjoint, not empty and within the query |
| `NormalizeRewrite.FillBound` | ext/pg_query/pg_query_normalize.c:243-253 | every interval gives back at least one character, so k replacements add at most ten each |
| `NormalizeRewrite.FillLength` | ext/pg_query/pg_query_normalize.c:243-310 | the length of the result to the character: that of the query, plus the symbols, minus the constants replaced |
| `NormalizeRewrite.NoLongerExactly` | ext/pg_query/pg_query_normalize.c:210-222 | the result is no longer than the query, as the comment promises, if and only if the symbols together are no longer than the constants that they replace |
| `NormalizeRewrite.OneBecomesLonger` | ext/pg_query/pg_query_normalize.c:210-222 | `SELECT 1` becomes `SELECT $1`, which is longer |
| `NormalizeRewrite.Restores` | ext/pg_query/pg_query_normalize.c:255-310 | putting the tokens back into the intervals restores the query |
| `NormalizeRewrite.GenerateNormalizedQuery` | ext/pg_query/pg_query_normalize.c:223-314 | the text is the query with the chosen intervals replaced by their symbols, and fits the buffer of query length plus ten per entry |
| `NormalizeRewrite.ReplaceNext` | ext/pg_query/pg_query_normalize.c:255-297 | one turn of the loop copies what precedes the constant and writes its symbol, or passes over the entry |
| `NormalizeRewrite.GuardNeverFires` | ext/pg_query/pg_query_normalize.c:270-278 | when locations are constant starts every entry with a length is replaced |
| `NormalizeRewrite.EachOnce` | ext/pg_query/pg_query_normalize.c:255-297 | every location of an entry is the start of an interval |
| `NormalizeRewrite.Normalize` | ext/pg_query/pg_query_normalize.c:601-663 | every interval was recorded with the id printed there; tokens put back restore the query; when locations are constant starts each constant is replaced as a whole, and each location is replaced exactly once |
| `NormalizeQuery.Normalize` | ext/pg_query/pg_query_normalize.c:601-663 | from the tree to the text, for any fingerprints: intervals stand at constants visited by the walk and show the ids that the reference gives them, fresh ones above every parameter of the query and, with sound numbering, within as many numbers as there are constants; when the constants start at tokens and do not overlap, every constant of the tree is replaced exactly once and as a whole |
| `NormalizeQuery.PromiseCarries` | ext/pg_query/pg_query_normalize.c:105-208 | what the parser promises about the constants of the tree holds of the sorted entries |
| `NormalizeReach.LeavesAreReached` | ext/pg_query/pg_query_normalize.c:349-599 | which constants and parameters are visited: all but those in type names, in guarded statements when only utility statements are normalised, and integers that are GROUP BY or ORDER BY items |
| `NormalizeReach.ClauseOrder` | ext/pg_query/pg_query_normalize.c:440-553 | the clauses of a SELECT are visited in this order |
| `NormalizeReach.GroupServed` | ext/pg_query/pg_query_normalize.c:503-511 | every GROUP BY item is served by the first target with its fingerprint that has not served an earlier item, so a target serves at most one |
| `NormalizeReach.ItemTakesOver` | ext/pg_query/pg_query_normalize.c:485-523 | an item records nothing if it is an integer, the ids of the target that serves it if there are as many as it has constants, and ids of its own otherwise |
| `TruncateText.CutBehind` | ext/pg_query/src_backend_utils_mb_mbutils.c:391-406 | cutting behind a whole number of characters leaves whole characters on both sides (UTF-8, section 3 of RFC 3629) |
| `TruncateText.TopBits` | ext/pg_query/src_common_wchar.c:620-646 | the length of a character by the bits at the top of its first byte, and which bytes continue one |
| `TruncateText.CountChars` | ext/pg_query/src_backend_utils_mb_mbutils.c:391-406 | `pg_mbstrlen` counts the characters |
| `TruncateText.CharClipLength` | ext/pg_query/src_backend_utils_mb_mbutils.c:479-501 | the loop gives the bytes of the characters that the limit and the byte budget allow |
| `TruncateText.ClipExact` | ext/pg_query/src_backend_utils_mb_mbutils.c:479-501 | as many characters as the limit allows are kept if and only if the bytes before the last of them are fewer than the byte budget |
| `TruncateText.ClippedChars` | ext/pg_query/pg_query_summary_truncate.c:74-90 | cut text is whole characters, at most the limit; it has exactly the limit if and only if the bytes before the last character kept are fewer than the characters of the text |
| `TruncateText.FourByteText` | ext/pg_query/pg_query_summary_truncate.c:84-85 | for text of four-byte characters the cut keeps all that the limit allows if and only if four times the characters before the last one kept is below the number of characters: the character count is passed where a byte count is meant |
| `TruncateText.TruncateMbstr` | ext/pg_query/pg_query_summary_truncate.c:74-90 | the buffer holds the cut text; the dots fit into it for a limit of at least three, and the result has at most the limit if and only if the limit is at least three or the text fits it |
| `TruncateText.Find` | ext/pg_query/pg_query_summary_truncate.c:294-294 | `strstr`: the first occurrence from the position on, or none |
| `TruncateText.Overwrite` | ext/pg_query/pg_query_summary_truncate.c:296-300 | replacement and `memmove` leave what was before, the replacement and what was behind |
| `TruncateText.ReplaceSkips` | ext/pg_query/pg_query_summary_truncate.c:285-304 | text before the first occurrence stays |
| `TruncateText.GlobalReplace` | ext/pg_query/pg_query_summary_truncate.c:285-304 | the replacement in place equals left-to-right non-overlapping replacement |
| `TruncateText.ReplaceKeepsText` | ext/pg_query/pg_query_summary_truncate.c:285-304 | replacing text by text leaves whole characters |
| `Truncate.TruncationState.AddTruncation` | ext/pg_query/pg_query_summary_truncate.c:92-108 | a candidate longer than the dots is noted with the current depth |
| `Truncate.TruncationState.Generate` | ext/pg_query/pg_query_summary_truncate.c:122-269 | the candidates are those of the tree in walking order with their depths, and the depth is restored for the siblings |
| `Truncate.CandidatesAre` | ext/pg_query/pg_query_summary_truncate.c:122-269 | every candidate names a field of a node of the tree, at that node's depth |
| `Truncate.ApplyKeeps` | ext/pg_query/pg_query_summary_truncate.c:306-349 | overwriting a field leaves every node in place that does not lie inside of that field |
| `Truncate.InsideIsDeeper` | ext/pg_query/pg_query_summary_truncate.c:258-266 | nodes inside of a field lie deeper than its node |
| `TruncateTree.CandidatesExactly` | ext/pg_query/pg_query_summary_truncate.c:110-269 | a candidate is noted if and only if it is a known field, present and longer than three characters, of a node of the tree that is no RawStmt; its depth is the number of nodes above |
| `TruncateTree.DummyIsPut` | ext/pg_query/pg_query_summary_truncate.c:306-349 | after a truncation there is the dummy in the place of the field |
| `TruncateTree.OthersStay` | ext/pg_query/pg_query_summary_truncate.c:306-349 | subtrees that are neither around the field nor inside of it are left as they are |
| `Truncate.SortOrders` | ext/pg_query/pg_query_summary_truncate.c:271-283 | sorting puts deeper candidates first, then longer ones, and loses none |
| `Truncate.Outward` | ext/pg_query/pg_query_summary_truncate.c:306-349 | in any such order every truncation is applied to a node that is still attached to the current tree |
| `Truncate.Show` | ext/pg_query/pg_query_summary_truncate.c:355-357 | the three replacements turn the placeholders into dots, in place |
| `TruncateShown.LettersAre` | ext/pg_query/pg_query_summary_truncate.c:355-357 | the patterns in letters: the horizontal ellipsis between double quotes, SELECT, AS and WHERE, three dots |
| `TruncateShown.PlaceholderShown` | ext/pg_query/pg_query_summary_truncate.c:357-357 | a placeholder between any texts without double quotes is shown as three dots |
| `TruncateShown.ConditionShown` | ext/pg_query/pg_query_summary_truncate.c:356-356 | behind `SELECT WHERE` the keywords go as well |
| `TruncateShown.TargetShown` | ext/pg_query/pg_query_summary_truncate.c:355-355 | a placeholder that is named like itself behind `SELECT` loses its name |
| `Truncate.VersionIsText` | ext/pg_query/pg_query_summary_truncate.c:353-357 | the text shown after any number of truncations is whole characters |
| `Truncate.ApplyTruncations` | ext/pg_query/pg_query_summary_truncate.c:306-371 | the text is the first version that fits after at least one truncation; when none fits, the last version cut to the limit |
| `Truncate.StoredOnce` | ext/pg_query/pg_query_summary_truncate.c:306-371 | the text that is stored is the only one with these properties |
| `Truncate.SummaryTruncate` | ext/pg_query/pg_query_summary_truncate.c:52-72 | text that fits is left alone; otherwise the sorted candidates are applied to attached nodes until the text fits; for a limit of at least three the result is whole characters, at most the limit |
| `Split.StaysSound` | ext/pg_query/pg_query_split.c:88-120 | after every token the ranges ascend, each holds a keyword and no semicolon at counted depth zero, and every keyword seen is in a range or pending |
| `Split.SplitIsProper` | ext/pg_query/pg_query_split.c:88-120 | the statements ascend without overlap within the text, each with a keyword and without a semicolon at counted depth zero |
| `Split.SplitIsComplete` | ext/pg_query/pg_query_split.c:88-120 | every keyword lies in exactly one statement if and only if the parenthesis counter ends at zero or no statement is pending at the end |
| `Split.UnclosedIsLost` | ext/pg_query/pg_query_split.c:88-120 | a keyword and an opening parenthesis that is never closed give no statement at all |
| `Split.OpenIs` | ext/pg_query/pg_query_split.c:96-101 | the counter is the number of parentheses opened less those closed, in 64 bits |
| `Split.SplitExactly` | ext/pg_query/pg_query_split.c:88-120 | a stretch of the text is a statement if and only if it begins at 0 or right behind a semicolon between balanced parentheses, ends at the next one or, with balanced parentheses, at the end of the text, and holds a keyword and no such semicolon |
| `Split.CountStatements` | ext/pg_query/pg_query_split.c:58-79 | the first pass counts the statements |
| `Split.SplitWithScanner` | ext/pg_query/pg_query_split.c:82-120 | the second pass fills exactly the statements counted, each with its start and length |
| `PgList.CellList.constructor` | ext/pg_query/src_backend_nodes_list.c:118-173 | a new list has its cells valid and a capacity that makes the allocation a power of two |
| `PgList.CellList.Enlarge` | ext/pg_query/src_backend_nodes_list.c:182-257 | the cells move to a larger array unchanged |
| `PgList.CellList.InsertCell` | ext/pg_query/src_backend_nodes_list.c:390-405 | the datum stands at the position, all other cells keep their order |
| `PgList.CellList.CopyBehind` | ext/pg_query/src_backend_nodes_list.c:500-504 | the copied cells stand behind the old ones, also when source and target are one list |
| `PgList.Lappend` | ext/pg_query/src_backend_nodes_list.c:353-366 | acts as appending to a sequence; enlarges only a full list |
| `PgList.Lcons` | ext/pg_query/src_backend_nodes_list.c:446-459 | acts as prepending to a sequence |
| `PgList.ListInsertNth` | ext/pg_query/src_backend_nodes_list.c:414-426 | acts as inserting into a sequence |
| `PgList.ListConcat` | ext/pg_query/src_backend_nodes_list.c:486-510 | acts as concatenation, also of a list with itself, and leaves a different second list unchanged |
| `PgList.ListTruncate` | ext/pg_query/src_backend_nodes_list.c:534-555 | acts as taking a prefix; NIL for a size of zero or less |
| `PgList.ListDeleteNthCell` | ext/pg_query/src_backend_nodes_list.c:595-658 | acts as removing one element; NIL when it was the last |
| `PgList.ListDeleteLast` | ext/pg_query/src_backend_nodes_list.c:708-724 | acts as dropping the last element; NIL when none is left |
| `PgList.ListCopy` | ext/pg_query/src_backend_nodes_list.c:956-970 | a fresh list with the same cells |
| `PgList.ListCopyTail` | ext/pg_query/src_backend_nodes_list.c:981-998 | a fresh list without the first cells, NIL when none is left |
| `PgList.AppendCost` | ext/pg_query/src_backend_nodes_list.c:214-215 | one append keeps the copied cells at most twice the length, whether it enlarges the list or not |
| `PgList.NextPower2Is` | ext/pg_query/src_backend_nodes_list.c:118-173 | the next power of two is the smallest one that is at least n |
| `PgList.AppendAll` | ext/pg_query/src_backend_nodes_list.c:353-366 | n appends from NIL give the items in order and copy at most 2n cells in total |
| `PgList.Perform` | ext/pg_query/src_backend_nodes_list.c:118-998 | each operation keeps a list valid and acts as the operation on sequences |
| `PgList.PerformAll` | ext/pg_query/src_backend_nodes_list.c:118-998 | any run of the operations from NIL keeps the list valid and acts as the same run on sequences |
| `Bitmapset.BitOfMember` | ext/pg_query/src_backend_nodes_bitmapset.c:61-62 | member x is bit x % 64 of word x / 64 |
| `Bitmapset.WordLimit` | ext/pg_query/src_backend_nodes_bitmapset.c:61-62 | a word is below 2^64 |
| `Bitmapset.SetBitSets` | ext/pg_query/src_backend_nodes_bitmapset.c:406-406 | setting a bit changes that bit only |
| `Bitmapset.SameWord` | ext/pg_query/src_backend_nodes_bitmapset.c:177-183 | words with the same bits are the same word |
| `Bitmapset.CanonicalForm` | ext/pg_query/src_backend_nodes_bitmapset.c:92-108 | without trailing zero words, two sets are equal if and only if their words are |
| `Bitmapset.CountMembers` | ext/pg_query/src_backend_nodes_bitmapset.c:336-359 | the number of members is the sum of the bit counts of the words |
| `Bitmapset.MakeSingleton` | ext/pg_query/src_backend_nodes_bitmapset.c:201-217 | the set of just that member in canonical form; an error exactly for a negative one |
| `Bitmapset.IsMember` | ext/pg_query/src_backend_nodes_bitmapset.c:265-286 | membership in the set; an error exactly for a negative number |
| `Bitmapset.Equal` | ext/pg_query/src_backend_nodes_bitmapset.c:155-186 | true exactly for equal sets, empty ones included |
| `Bitmapset.NumMembers` | ext/pg_query/src_backend_nodes_bitmapset.c:336-359 | the number of members |
| `Bitmapset.AddMember` | ext/pg_query/src_backend_nodes_bitmapset.c:374-418 | the set with the member added, in canonical form; an error that changes nothing exactly for a negative one |
| `Bitmapset.NextMember` | ext/pg_query/src_backend_nodes_bitmapset.c:504-538 | the smallest member above the given one, -2 exactly when there is none |
| `Bitmapset.Iterate` | ext/pg_query/src_backend_nodes_bitmapset.c:504-538 | iterating from -1 visits every member once, ascending, `bms_num_members` of them |
| `Bitmapset.AddAll` | ext/pg_query/src_backend_nodes_bitmapset.c:374-418 | adding members one by one gives exactly their set, in canonical form |

## Left out

- WireMessage.MergeMessages: works on values; that the earlier message is emptied and freed is not modelled, and the default of a string is the empty string.
- WireUnpack.Unpack: the legacy labels required and default values, float and double fields, allocation failure and the truncation of a list count to 32 bits (2^32 counted elements or more) are not modelled.
- WireRoundTrip.RoundTrip: asks for an encoding of at most `INT_MAX` bytes, members that fit the slabs and field numbers below 2^31, the limits of the code itself.
- WirePack.Pack: the room in the output is a precondition, as it is for the callers of the C function; arithmetic of `size_t` does not wrap below the size limit.
- WireBuffer.PackPayloadToBuffer: appends fixed-width arrays element by element, where the code appends the whole array at once.
- Freeing of unpacked messages, services, descriptor queries by name and the message check.
- DeparseExpr.PrintThenParse: relates trees and tokens; how tokens are spelled and scanned is not modelled. IN, LIKE, BETWEEN, IS NOT DISTINCT FROM and IS NULL are outside of the fragment.
- The statement printers: a printer is any well-nested run of layout operations and visits to locations.
- DeparseRun.DeparseRawStmtOpts: that parts merged into one line are kept apart is stated where lines are made, by `MergeParts`, `CloseGroup` and `DecreaseNestingLevel`, and not again for the whole text.
- DeparseLayout.LayoutState.RemoveTrailingEmptyPart: modelled where the code calls it by itself, at the start of a statement, where no keyword follows.
- Comment collection in `pg_query_deparse.c`, and the choice of match locations.
- FingerprintSame.Congruence: the hash is assumed to be injective on the streams that are digested, and on no others.
- FingerprintCache.FingerprintTree: asks that every list is sorted in one way only, under one field name and depth, because the cache is keyed by the list alone (`CacheExactly`); the token output, the seed and the internals of XXH3 and of the hash table are not modelled, and sorting is a stable insertion sort.
- NormalizeWalk.NumberConstants: fingerprints are any function of the nodes, and a target is represented by its value. The growth of the arrays of locations and parameters is left to sequences, and the removal from the list of targets is a functional deletion. Ids are unbounded integers.
- NormalizeQuery.Normalize: says nothing about ids outside of the range of C's int, which the code does not check.
- NormalizeLengths.FillInConstantLengths: sorting is a deterministic sort by location; the scanner is the sequence of its tokens.
- Truncate.ApplyTruncations: the text of a tree is any function into UTF-8 text, and a candidate field is any field marked as one, so the table of node types and their fields is not modelled. A negative limit is not modelled.
- Truncate.SummaryTruncate: candidate lengths are any function of the subtree; candidates of equal depth and length keep an order of the model's own.
- Split.SplitWithScanner: the tokens come from the scanner; locations are natural numbers. The splitter that uses the parser is not modelled.
- PgList.Perform: `int` lengths do not overflow, memory is not freed, and integer, OID and transaction id lists are the same as pointer lists.
- PgList.AppendAll: the cells counted are those copied when a list is enlarged.
- Bitmapset.NextMember: the increment of the largest `int` is not modelled; words are naturals below 2^64 with their bits defined by halving.
- The flex scanner, the raw parser, the generated tree walkers and the per-node fingerprint functions: trees are generic, tokens are given.
- JSON and protobuf output of parse trees, PL/pgSQL, the Ruby binding and the error handling around the entry points.
