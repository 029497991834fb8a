# Verified components of libtorrent 0.16.9

A model in Dafny of the parts of libtorrent where most of its algorithmic work is done, and proofs
of what these parts are for. Each part has a functional specification or an abstract value of its
own; the imperative code is proved to compute it, and the promises are proved of it for all inputs
and all runs.

| part | files | abstract view |
|---|---|---|
| inflate | `BitStream`, `Huffman`, `InflateFormat`, `InflateScan`, `DeflateTables`, `DeflateEncode`, `DeflateFlaws`, `PuffState`, `PuffConstruct`, `Puff` | the bits of the input, and what sections 3.2.2 to 3.2.7 of RFC 1951 make of them |
| Unicode conversion | `Unicode`, `ConvertSpec`, `ConvertText`, `ConvertStops`, `ConvertUTF` | sequences of characters and their encodings |
| bencoding | `Bencode`, `LazyBdecode`, `LazyBdecodeProof`, `LazyErrors`, `LazyTree`, `EntryInteger` | bencoded values, and the entries a decoder without arrays makes of them |
| HTTP responses | `HexNumber`, `HttpFormat`, `HttpResume`, `HttpDetour`, `HttpHead`, `HttpChunks`, `HttpParser` | the parser as a function of all bytes received |
| file layout | `FileLayout`, `FileOrder`, `FileSlices`, `FileStorage` | the files with what is kept about them, and the bytes of the torrent |
| packet buffer | `PacketBuffer` | a map from sequence numbers to packets |
| bandwidth sharing | `BandwidthChannel`, `BandwidthManager`, `BandwidthRun`, `BandwidthFair` | shares of a round, and runs of queue, quotas and limits as values |
| write cache | `DiskBlocks`, `DiskCache`, `DiskOrder`, `DiskRun` | what each piece holds, seen through the cache, and the calls and buffers in it |
| connection queue | `ConnectionQueue`, `ConnectionRun`, `ConnectionTimes` | the steps under the lock, in any order and from any thread |

Where the code does less than its comments or its users expect, the model follows the code, an
input shows the difference, and the exact condition is proved:

- A Huffman code without symbols counts as complete, although nothing can be decoded with it
  (`Huffman.ZeroNeverFails`).
- The legality test for UTF-8 has no lower bound for the byte after 0xED and 0xF4, and text with
  such bytes is converted (`ConvertSpec.LegalIsGrammarIff`, `ConvertText.SuccessOnIllegalIff`,
  `ConvertText.IllegalConverts`).
- Numbers outside the range of 64 bits are not read back, and very long strings not either
  (`LazyBdecodeProof.RoundTrip`, `LazyBdecodeProof.NumberLost`).
- The smallest 64-bit number does not survive being printed and read
  (`EntryInteger.PrintThenRead`).
- A chunk size is looked for on later lines if there is none on its own, so that what is read
  depends on how much has been received (`HttpResume.SteadyIff`, `HttpResume.SteadyMessageIff`,
  `HttpResume.UnsteadyExample`, `HttpDetour.UnsteadyYetSame`).
- With negative chunk sizes the payload may be miscounted (`HttpChunks.PayloadIff`,
  `HttpChunks.NegativeExample`); bytes after the last chunk are counted as payload, and resetting
  the parser keeps path, protocol and message (`HttpParser.HttpParser.Reset`).
- A lookup in the packet buffer for a number past the wrap may find another packet
  (`PacketBuffer.PacketBuffer.AtFinds`, `PacketBuffer.BeyondLookup`), and a packet with such a
  number may overwrite another (`PacketBuffer.PacketBuffer.Insert`, `PacketBuffer.WrapOverwrites`);
  when the numbers in use span more than half the range, packets are not found
  (`PacketBuffer.TooFarApart`).
- Closing the connection queue a second time may cancel the timer that an urgent entry waits for
  (`ConnectionRun.RanCalm`, `ConnectionRun.SecondCloseForgets`). While a closing thread holds an
  urgent entry, other threads may exceed the limit, or leave the entry without a timer
  (`ConnectionRun.StepCalm`, `ConnectionRun.LimitExceeded`, `ConnectionRun.NeverTimesOut`).
- A list of 20767725 entries is as long as the decoder can make one; the next size overflows
  (`LazyTree.RoomIff`).

`Basics` holds what several parts share. Each file holds the module of its name.
`dafny verify dfyconfig.toml` checks the project.

## Model

| member | source | states |
|---|---|---|
| `Huffman.LeftIsKraft` | libtorrent-rasterbar-0.16.9/src/puff.cpp:342-348 | the running count of codes left over, doubled and reduced length by length, is 2^l minus the Kraft sum of the lengths up to l |
| `Huffman.SortedHas` | libtorrent-rasterbar-0.16.9/src/puff.cpp:350-361 | the symbol table of length l holds exactly the used symbols of length at most l |
| `Huffman.SortedOrdered` | libtorrent-rasterbar-0.16.9/src/puff.cpp:350-361 | the symbol table is a stable sort: by length, and by symbol within a length |
| `Huffman.MatchUnique` | libtorrent-rasterbar-0.16.9/src/puff.cpp:224-245 | the canonical code of section 3.2.2 of RFC 1951 is prefix free: two codes that stand at one position of a bit stream are of the same symbol |
| `Huffman.WalkIsSymbolAt` | libtorrent-rasterbar-0.16.9/src/puff.cpp:224-245 | walking the count and symbol tables bit by bit finds the symbol whose canonical code, as section 3.2.2 of RFC 1951 defines it, stands in the stream, and fails or runs out exactly when the definition does |
| `Huffman.EncodeDecode` | libtorrent-rasterbar-0.16.9/src/puff.cpp:253-292 | for any lengths that are not oversubscribed, the canonical code of any used symbol, with any bits before and after it, decodes to that symbol and takes exactly its length in bits |
| `Huffman.CompleteNeverInvalid` | libtorrent-rasterbar-0.16.9/src/puff.cpp:253-292 | with a Kraft sum of exactly one, decoding never fails |
| `Huffman.IncompleteHasInvalid` | libtorrent-rasterbar-0.16.9/src/puff.cpp:253-292 | with a smaller Kraft sum there is a string of bits, all ones, that decodes to nothing |
| `Huffman.ZeroNeverFails` | libtorrent-rasterbar-0.16.9/src/puff.cpp:295-340 | of the codes for which the builder returns zero, decoding never fails exactly for those that have a symbol (the comment promises it for all of them; a code without symbols is the exception) |
| `InflateFormat.CopyBackPeriodic` | libtorrent-rasterbar-0.16.9/src/puff.cpp:469-478 | every byte of a back-reference equals the byte `dist` before it, also when the length is greater than the distance |
| `InflateFormat.KraftFixed` | libtorrent-rasterbar-0.16.9/src/puff.cpp:523-537 | the fixed literal code is complete, and the fixed distance code leaves two codes out |
| `InflateFormat.OrderInverse` | libtorrent-rasterbar-0.16.9/src/puff.cpp:641-642 | the permuted order of the code-length lengths is a permutation |
| `DeflateTables.LengthTable` | libtorrent-rasterbar-0.16.9/src/puff.cpp:429-434 | the base and the extra bits of every length symbol follow from the form of the table alone: eight symbols of one length, then four for every number of extra bits, then 258 |
| `DeflateTables.LengthCoded` | libtorrent-rasterbar-0.16.9/src/puff.cpp:429-434 | every length from 3 to 258 has a symbol and a number that refines it |
| `DeflateTables.DistanceTable` | libtorrent-rasterbar-0.16.9/src/puff.cpp:435-442 | likewise for distances: four symbols of one distance, then two for every number of extra bits |
| `DeflateTables.DistanceCoded` | libtorrent-rasterbar-0.16.9/src/puff.cpp:435-442 | every distance from 1 to 32768 has a symbol and a number that refines it |
| `DeflateTables.FixedCodes` | libtorrent-rasterbar-0.16.9/src/puff.cpp:523-532 | the codes of the fixed literal code are the four ranges of section 3.2.6 of RFC 1951, with their numbers of bits |
| `DeflateTables.FixedDistanceCodes` | libtorrent-rasterbar-0.16.9/src/puff.cpp:534-537 | the fixed distance codes are the symbols in five bits |
| `DeflateTables.OrderTable` | libtorrent-rasterbar-0.16.9/src/puff.cpp:641-642 | code-length lengths are sent for the repeats first, then for no code, then for the lengths from the middle outwards |
| `InflateScan.ScanPredicts` | libtorrent-rasterbar-0.16.9/src/puff.cpp:174-183 | measuring predicts producing: if inflating without a buffer is good with n bytes, a buffer of at least n bytes gets the same bytes from the same input, and a smaller one ends with the output-full result |
| `DeflateEncode.SymbolsOfBody` | libtorrent-rasterbar-0.16.9/src/puff.cpp:422-484 | decoding the bits of any list of literals and back-references and an end mark, with any codes that have the symbols, gives the bytes they stand for and stops after the end mark |
| `DeflateEncode.LengthsOfOps` | libtorrent-rasterbar-0.16.9/src/puff.cpp:661-686 | decoding any run-length coding of code lengths, with repeats that cross from literal to distance lengths, gives the lengths |
| `DeflateEncode.ItemFor` | libtorrent-rasterbar-0.16.9/src/puff.cpp:456-465 | every length from 3 to 258 at every distance from 1 to 32768 can be written as a back-reference |
| `DeflateEncode.BlockOfBlk` | libtorrent-rasterbar-0.16.9/src/puff.cpp:156-187 | decoding a stored, fixed or dynamic block gives its bytes and stops after its last bit, from any bit position and with any padding |
| `DeflateEncode.InflateEncoded` | libtorrent-rasterbar-0.16.9/src/puff.cpp:745-788 | the whole format round trip: any sequence of stored, fixed and dynamic blocks, with any codes, header coding and back-references that the format allows, and any bytes after it, inflates to the data it encodes and to exactly that many bits used |
| `DeflateFlaws.PartOfInput` | libtorrent-rasterbar-0.16.9/src/puff.cpp:745-788 | on any part of any input, inflating wants more input, or ends as it does with all of it |
| `DeflateFlaws.CutOff` | libtorrent-rasterbar-0.16.9/src/puff.cpp:119-137 | a stream that inflates well wants more input when it is cut off anywhere before its last bit |
| `DeflateFlaws.HeadFlawReported` | libtorrent-rasterbar-0.16.9/src/puff.cpp:631-700 | after any good blocks, a block of the reserved kind, a stored length without its complement, too many codes, an incomplete code for the code lengths, a repeat of nothing, too many lengths, and an unfit literal or distance code are reported each with its own code, at the bit where they are seen |
| `DeflateFlaws.BodyFlawReported` | libtorrent-rasterbar-0.16.9/src/puff.cpp:445-468 | after any good blocks and items, bits that are no code, a symbol without a meaning, a length without a distance, and a distance to before the output are reported, with the output up to there |
| `PuffState.State.Bits` | libtorrent-rasterbar-0.16.9/src/puff.cpp:119-137 | the next bits of the stream as a number, low bit first, with fewer than 8 bits left in the buffer; or too few bits and that is reported |
| `PuffState.State.DecodeSlow` | libtorrent-rasterbar-0.16.9/src/puff.cpp:224-245 | the slow decoder finds what walking the tables finds, and leaves the stream after the code |
| `PuffState.State.Decode` | libtorrent-rasterbar-0.16.9/src/puff.cpp:253-292 | the fast decoder finds the same symbol, the same failure and the same end of input, and leaves the same stream; when no code matches it keeps the buffered bits, also if those are no longer the ones before the next byte |
| `PuffConstruct.CountLengths` | libtorrent-rasterbar-0.16.9/src/puff.cpp:334-338 | the counts are those of the lengths |
| `PuffConstruct.SortSymbols` | libtorrent-rasterbar-0.16.9/src/puff.cpp:350-361 | the table filled in one pass over the symbols is the sorted one |
| `PuffConstruct.Construct` | libtorrent-rasterbar-0.16.9/src/puff.cpp:327-365 | with a used symbol, the result is negative exactly when the code is oversubscribed and otherwise 2^15 less the Kraft sum; with none it is zero; unless negative the tables are those of the code |
| `Puff.StoredBlock` | libtorrent-rasterbar-0.16.9/src/puff.cpp:156-187 | a stored block has the result, the bytes and the input position of the format, with a check of the length against its complement |
| `Puff.PutCopy` | libtorrent-rasterbar-0.16.9/src/puff.cpp:466-478 | a back-reference is appended as its periodic extension, or the output is full, or the distance is too far back |
| `Puff.Codes` | libtorrent-rasterbar-0.16.9/src/puff.cpp:422-484 | literals and back-references up to the end mark have the result, the output and the position of the format |
| `Puff.FixedBlock` | libtorrent-rasterbar-0.16.9/src/puff.cpp:510-545 | a block with the fixed codes, likewise |
| `Puff.ReadLengths` | libtorrent-rasterbar-0.16.9/src/puff.cpp:661-686 | the code lengths read are those the format gives, or the same error |
| `Puff.NoLengths` | libtorrent-rasterbar-0.16.9/src/puff.cpp:657-669 | with a code-length code that has no symbols, every length fails to decode at the cost of one or two bytes of input: the result is the end of input exactly if there are not that many for all lengths, and otherwise what the code does with the failed symbols is not defined |
| `Puff.BuildCode` | libtorrent-rasterbar-0.16.9/src/puff.cpp:688-696 | a code is accepted exactly if it is complete or has at most one symbol, and its tables are built |
| `Puff.DynamicBlock` | libtorrent-rasterbar-0.16.9/src/puff.cpp:631-700 | a block with its own codes has the result, the output and the position of the format, with the same error code in every case of a bad header, an empty code-length code included |
| `Puff.AllBlocks` | libtorrent-rasterbar-0.16.9/src/puff.cpp:766-780 | blocks up to the last one, likewise |
| `Puff.Puff` | libtorrent-rasterbar-0.16.9/src/puff.cpp:745-788 | inflating, or measuring, has the result, the sizes and the output bytes that the functional reference of sections 3.2.3 to 3.2.7 of RFC 1951 gives for the bits of the input; nothing after the output is touched |
| `ConvertSpec.LegalIff` | libtorrent-rasterbar-0.16.9/src/ConvertUTF.cpp:295-318 | the legality test accepts the encodings of characters and one family of sequences besides: those with a second byte below 0x80 after 0xED or 0xF4 |
| `ConvertSpec.LegalIsGrammarIff` | libtorrent-rasterbar-0.16.9/src/ConvertUTF.cpp:295-318 | the legality test agrees with the grammar exactly for the sequences outside that family |
| `ConvertSpec.GrammarIsEncoding` | libtorrent-rasterbar-0.16.9/src/ConvertUTF.cpp:295-318 | the grammar of section 4 of RFC 3629, rule by rule, describes exactly the encodings of the characters |
| `ConvertSpec.LegalSequenceIff` | libtorrent-rasterbar-0.16.9/src/ConvertUTF.cpp:325-331 | the exported test finds that bytes begin with a legal sequence exactly when they begin with the encoding of a character or with a sequence of that family |
| `ConvertSpec.OverlookedExample` | libtorrent-rasterbar-0.16.9/src/ConvertUTF.cpp:295-318 | the bytes ED 20 80 are accepted, encode no character, and decode to U+B800 |
| `ConvertSpec.LegalDecodes` | libtorrent-rasterbar-0.16.9/src/ConvertUTF.cpp:353-364 | a legal sequence outside that family decodes to the character it encodes |
| `ConvertSpec.EncodedDecodes` | libtorrent-rasterbar-0.16.9/src/ConvertUTF.cpp:353-364 | the encoding of any character is legal and decodes to it |
| `ConvertText.FittingIsGreatest` | libtorrent-rasterbar-0.16.9/src/ConvertUTF.cpp:264-268 | the characters that fit are as many as fit |
| `ConvertText.RunEncoded` | libtorrent-rasterbar-0.16.9/src/ConvertUTF.cpp:61-106 | for legal text in any form, into any form and any room, a call consumes the encoding of as many whole characters as fit, writes exactly their encoding, and reports a full target if and only if some are left |
| `ConvertText.Converts` | libtorrent-rasterbar-0.16.9/src/ConvertUTF.cpp:336-405 | with enough room the encoding in one form becomes the encoding in the other, for all six pairs |
| `ConvertText.RoundTrip` | libtorrent-rasterbar-0.16.9/src/ConvertUTF.cpp:409-520 | for every sequence of characters and any two forms, strict conversion there and back is the identity |
| `ConvertText.ThroughThird` | libtorrent-rasterbar-0.16.9/src/ConvertUTF.cpp:214-280 | converting directly and converting through a third form write the same |
| `ConvertText.ResumeWhole` | libtorrent-rasterbar-0.16.9/src/ConvertUTF.cpp:264-279 | calls resumed where the last one stopped, with any rooms that fit one character each, together write what one call with a large buffer writes |
| `ConvertText.SuccessIsRead` | libtorrent-rasterbar-0.16.9/src/ConvertUTF.cpp:61-106 | a strict call that reports success has read a source made of encodings of characters and, in UTF-8, of sequences of that family, and has written the encoding of the characters these stand for |
| `ConvertText.SuccessIff` | libtorrent-rasterbar-0.16.9/src/ConvertUTF.cpp:61-106 | strict conversion with ample room reports success exactly for such sources, of any form and into any form |
| `ConvertText.SuccessOnIllegalIff` | libtorrent-rasterbar-0.16.9/src/ConvertUTF.cpp:409-520 | it reports success on text that is not legal exactly when the source can be read with a sequence of that family in it |
| `ConvertText.LegalHasNone` | libtorrent-rasterbar-0.16.9/src/ConvertUTF.cpp:336-405 | legal text can be read in one way only, so no part of it is of that family |
| `ConvertText.IllegalConverts` | libtorrent-rasterbar-0.16.9/src/ConvertUTF.cpp:336-405 | the text ED 20 80 is not legal, and converts to the one character U+B800 |
| `ConvertStops.TrailingIs` | libtorrent-rasterbar-0.16.9/src/ConvertUTF.cpp:174-183 | a byte is followed by at least n others exactly if it begins with more than n one bits |
| `ConvertStops.StepStops` | libtorrent-rasterbar-0.16.9/src/ConvertUTF.cpp:342-352 | a step reports an exhausted source exactly if fewer units are left than the first one calls for, and an illegal source exactly if enough are left and no character begins there, or, when strict, a surrogate without its partner |
| `ConvertStops.RunDescribed` | libtorrent-rasterbar-0.16.9/src/ConvertUTF.cpp:61-106 | every call, strict or lenient and of any source: the parts it read, what each became (lone surrogates and code points above 0x10FFFF included), and why it ended where it did: the end, a cut or malformed source, or no room for the next part |
| `ConvertUTF.GetUtf8` | libtorrent-rasterbar-0.16.9/src/ConvertUTF.cpp:342-364 | a character is read by adding up shifted bytes, or the call stops, as the specification of a step says |
| `ConvertUTF.PutUtf8` | libtorrent-rasterbar-0.16.9/src/ConvertUTF.cpp:255-275 | the bytes written from the last to the first are the encoding of the character, and nothing else is touched |
| `ConvertUTF.GetUtf16` | libtorrent-rasterbar-0.16.9/src/ConvertUTF.cpp:117-147 | a character is read from one or two units, or the call stops at an unpaired surrogate or at the end |
| `ConvertUTF.PutUtf16` | libtorrent-rasterbar-0.16.9/src/ConvertUTF.cpp:73-100 | one unit or a surrogate pair is written, or nothing if it does not fit |
| `ConvertUTF.UTF32toUTF16Char` | libtorrent-rasterbar-0.16.9/src/ConvertUTF.cpp:67-102 | one turn of the loop does one step of the specification |
| `ConvertUTF.UTF16toUTF32Char` | libtorrent-rasterbar-0.16.9/src/ConvertUTF.cpp:117-153 | likewise |
| `ConvertUTF.UTF16toUTF8Char` | libtorrent-rasterbar-0.16.9/src/ConvertUTF.cpp:220-276 | likewise |
| `ConvertUTF.UTF8toUTF16Char` | libtorrent-rasterbar-0.16.9/src/ConvertUTF.cpp:342-401 | likewise |
| `ConvertUTF.UTF32toUTF8Char` | libtorrent-rasterbar-0.16.9/src/ConvertUTF.cpp:415-454 | likewise |
| `ConvertUTF.UTF8toUTF32Char` | libtorrent-rasterbar-0.16.9/src/ConvertUTF.cpp:468-516 | likewise |
| `ConvertUTF.Convert` | libtorrent-rasterbar-0.16.9/src/ConvertUTF.cpp:61-106 | a whole call has the result, the positions in source and target and the written units of the functional specification, strict or lenient; nothing beyond what it wrote is touched |
| `LazyBdecode.ParseInt` | libtorrent-rasterbar-0.16.9/src/lazy_bdecode.cpp:66-76 | the number, accumulated with the wrap of 64 bits at every operation, and the position of the delimiter, or the first character that is no digit |
| `LazyBdecode.FindChar` | libtorrent-rasterbar-0.16.9/src/lazy_bdecode.cpp:78-82 | the first position of the delimiter, or the end |
| `LazyTree.LazyDecode` | libtorrent-rasterbar-0.16.9/src/lazy_bdecode.cpp:95-201 | the loop with its stack of pointers into arrays that grow computes the decoding of every input, well-formed or not, with the error and its position, or -1 where the code sets none; every pointer it follows is valid |
| `LazyTree.LinkedFollows` | libtorrent-rasterbar-0.16.9/src/lazy_bdecode.cpp:104-153 | every pointer on the stack, not only the top one, leads through arrays that have not been replaced |
| `LazyTree.AppendedHolds` | libtorrent-rasterbar-0.16.9/src/lazy_bdecode.cpp:214-241 | one more entry in a list or dictionary, with a larger array if it was full, keeps all entries there were, and the new one is at the end |
| `LazyTree.RoomIff` | libtorrent-rasterbar-0.16.9/src/lazy_bdecode.cpp:214-241 | there is a place for one more entry, or the size of a larger array can be computed in 32 bits, if and only if the list or dictionary has fewer than 20767725 entries |
| `LazyTree.SpineUp` | libtorrent-rasterbar-0.16.9/src/lazy_bdecode.cpp:361-386 | what a pointer leads to is the last entry of the list or dictionary one level up, whose other entries are those decoded before |
| `LazyTree.ResultIs` | libtorrent-rasterbar-0.16.9/src/lazy_bdecode.cpp:192-201 | when the buffer ends, the entries in memory stand for what was decoded, with the lists and dictionaries that are still open |
| `LazyBdecode.StringEqual` | libtorrent-rasterbar-0.16.9/src/lazy_bdecode.cpp:278-289 | a null-terminated name equals a key of given length exactly if they are the same characters |
| `LazyBdecode.DictFind` | libtorrent-rasterbar-0.16.9/src/lazy_bdecode.cpp:349-359 | the first pair whose key, taken as the bytes between the name pointer and the beginning of the value, is the name; or none |
| `LazyBdecodeProof.DecodesEncoding` | libtorrent-rasterbar-0.16.9/src/lazy_bdecode.cpp:95-201 | decoding the canonical encoding of any value, whatever follows it, gives its entries if it is within the depth and item limits and no list is longer than the largest array; otherwise the first of its values that is one too many for the item limit, or opens one level too many, is reported as that error, just after its first character |
| `LazyBdecodeProof.FineWithin` | libtorrent-rasterbar-0.16.9/src/lazy_bdecode.cpp:109-160 | no value makes such trouble exactly if the value has fewer values than the limit, no more levels than the limit, and no list that is too long |
| `LazyErrors.Reaches` | libtorrent-rasterbar-0.16.9/src/lazy_bdecode.cpp:104-192 | with any lists and dictionaries open, and any values complete in them, the decoder stands at the place after these with the stack that they make |
| `LazyErrors.EndsBetween` | libtorrent-rasterbar-0.16.9/src/lazy_bdecode.cpp:104-201 | text that ends after a complete value decodes well, to what is complete, with the lists and dictionaries that are open |
| `LazyErrors.ValueRefused` | libtorrent-rasterbar-0.16.9/src/lazy_bdecode.cpp:159-196 | at any such place where a value is expected: a character that begins none, a number without an end, and a length with another character, without a colon, or greater than what is left are reported each with its error and position |
| `LazyErrors.KeyRefused` | libtorrent-rasterbar-0.16.9/src/lazy_bdecode.cpp:119-141 | likewise where a key is expected, which must be followed by two more characters |
| `LazyErrors.OneLeft` | libtorrent-rasterbar-0.16.9/src/lazy_bdecode.cpp:111-115 | a single character that closes nothing is an unexpected end |
| `LazyErrors.MalformedNumber` | libtorrent-rasterbar-0.16.9/src/lazy_bdecode.cpp:203-212 | a number with a character that is no digit counts as far as its digits go |
| `LazyBdecodeProof.BeginIsStart` | libtorrent-rasterbar-0.16.9/src/lazy_bdecode.cpp:264-272 | the beginning of an entry computed back from its data is where its encoding starts, also through the number of digits of a length; for a string of 2 GiB or more it is later |
| `LazyBdecodeProof.ReadsBack` | libtorrent-rasterbar-0.16.9/src/lazy_bdecode.cpp:203-212 | reading the entries of an encoded value gives the value, every number, string and key, if and only if its numbers are in the range of 64 bits, its strings shorter than 4 GiB, and those in dictionaries than 2 GiB |
| `LazyBdecodeProof.RoundTrip` | libtorrent-rasterbar-0.16.9/src/lazy_bdecode.cpp:292-298 | decoding the canonical encoding of a value within the limits, with no list longer than the largest array, and reading the entries gives the value back, if and only if it fits in that way |
| `LazyBdecodeProof.NumberWraps` | libtorrent-rasterbar-0.16.9/src/lazy_bdecode.cpp:203-212 | any number that is decoded comes back modulo 2^64, in the range of 64 bits |
| `LazyBdecodeProof.NumberLost` | libtorrent-rasterbar-0.16.9/src/lazy_bdecode.cpp:203-212 | the number 2^64 comes back as 0 |
| `EntryInteger.IntegerToStr` | libtorrent-rasterbar-0.16.9/src/entry.cpp:64-81 | the buffer holds the printed number, filled from its end, in 64-bit arithmetic with truncating division |
| `EntryInteger.PrintsInFull` | libtorrent-rasterbar-0.16.9/src/entry.cpp:64-81 | every 64-bit number but the smallest is printed as its decimal digits with a sign |
| `EntryInteger.PrintThenRead` | libtorrent-rasterbar-0.16.9/src/lazy_bdecode.cpp:203-212 | printing and reading gives every 64-bit number back except the smallest, which is read as zero: it is its own negative, so its digits come out as characters below 0 |
| `HexNumber.ReadsBack` | libtorrent-rasterbar-0.16.9/src/http_parser.cpp:361-364 | reading hexadecimal digits gives their value, whatever follows that is no digit |
| `HexNumber.HexValueOfHex` | libtorrent-rasterbar-0.16.9/src/http_parser.cpp:361-364 | every number has hexadecimal digits with that value |
| `HttpResume.StatusContinues` | libtorrent-rasterbar-0.16.9/src/http_parser.cpp:101-245 | reading of status line and headers of a prefix, incomplete lines and 100-Continue restarts included, is a stage of reading any longer message |
| `HttpResume.SteadyIff` | libtorrent-rasterbar-0.16.9/src/http_parser.cpp:340-423 | a chunk header is read the same in every part of the message in which it is complete if and only if there is something on its size line, or the number found on later lines is zero, or it is a single digit on the very next line |
| `HttpResume.UnsteadyExample` | libtorrent-rasterbar-0.16.9/src/http_parser.cpp:361-364 | a size line of one blank, then an empty line and a 5: cut before the 5 it is the last chunk, uncut it has five bytes |
| `HttpResume.UnsteadyDiffers` | libtorrent-rasterbar-0.16.9/src/http_parser.cpp:251-314 | a message with an unsteady header of a chunk with data can be cut so that the parser ends with other ranges than if it is fed at once |
| `HttpResume.SteadyMessageIff` | libtorrent-rasterbar-0.16.9/src/http_parser.cpp:82-338 | any message may be cut anywhere, with the parser ending up in the same state, if every chunk header that is reached is steady; when no chunk size is negative, if and only if |
| `HttpDetour.UnsteadyYetSame` | libtorrent-rasterbar-0.16.9/src/http_parser.cpp:82-338 | with negative sizes steadiness is not needed: a message with an unsteady header ends in the same state wherever it is cut |
| `HttpResume.ResumedIs` | libtorrent-rasterbar-0.16.9/src/http_parser.cpp:82-338 | handed a longer buffer, the parser of a prefix becomes the parser of that buffer, if every chunk header in it is steady |
| `HttpResume.FedIs` | libtorrent-rasterbar-0.16.9/src/http_parser.cpp:82-338 | fed a steady message in any parts, a parser ends up as if it were fed all at once |
| `HttpResume.ChunksContinue` | libtorrent-rasterbar-0.16.9/src/http_parser.cpp:251-314 | the chunks found in a prefix are a stage of those found in any longer message with steady headers, split chunk headers included |
| `HttpParser.HttpParser.constructor` | libtorrent-rasterbar-0.16.9/src/http_parser.cpp:65-80 | a new parser is the parser of the empty message |
| `HttpParser.HttpParser.Reset` | libtorrent-rasterbar-0.16.9/src/http_parser.cpp:438-457 | the parser is that of the empty message again, but for path, protocol and message text, which the code does not clear |
| `HttpHead.HeadRead` | libtorrent-rasterbar-0.16.9/src/http_parser.cpp:101-245 | a head as it is written, at any place of a buffer, is read as that: for a response its protocol, the number of its status and its message, for a request its method in lower case, path and protocol; for every name in lower case its values in order; the length, range and transfer encoding that the last such field gives; after a status of 100 another head is read |
| `HttpHead.HasField` | libtorrent-rasterbar-0.16.9/src/http_parser.cpp:169-200 | every line with a colon is such a field |
| `HttpHead.HeadPart` | libtorrent-rasterbar-0.16.9/src/http_parser.cpp:101-245 | of a part of a head the end is not found, and no error either |
| `HttpHead.MessageRead` | libtorrent-rasterbar-0.16.9/src/http_parser.cpp:315-335 | with a body after the head and no chunks to be read, the message is finished exactly if the head gives a length and the body is that long; the body is payload and the head is not |
| `HttpHead.MessagePart` | libtorrent-rasterbar-0.16.9/src/http_parser.cpp:315-335 | a body of the given length is finished at its last byte and not before |
| `HttpHead.HeadRefused` | libtorrent-rasterbar-0.16.9/src/http_parser.cpp:206-235 | a range without a number, without a dash, or that ends before it begins is an error, whatever follows |
| `HttpHead.EmptyRefused` | libtorrent-rasterbar-0.16.9/src/http_parser.cpp:106-119 | a first line that is nothing but a line feed is an error |
| `HttpHead.LowerIs` | libtorrent-rasterbar-0.16.9/src/http_parser.cpp:192-193 | names are compared with capital letters as small ones, and nothing else changed |
| `HttpParser.HttpParser.Lines` | libtorrent-rasterbar-0.16.9/src/http_parser.cpp:101-245 | status line and headers are read as far as they have come |
| `HttpParser.HttpParser.ChunkedBody` | libtorrent-rasterbar-0.16.9/src/http_parser.cpp:251-314 | ranges, header bytes and the partial chunk header are those of all bytes received, and the new bytes are payload or protocol |
| `HttpParser.HttpParser.PlainBody` | libtorrent-rasterbar-0.16.9/src/http_parser.cpp:315-335 | a body without chunks is received up to its length |
| `HttpParser.HttpParser.Incoming` | libtorrent-rasterbar-0.16.9/src/http_parser.cpp:82-338 | from any reachable state and for every buffer the new state is that of the reference, steady or not and with chunk sizes of either sign, and the counts returned are the differences of the payload and protocol totals; the state stays a reachable one exactly if no negative size leads to before the buffer |
| `HttpParser.FeedAll` | libtorrent-rasterbar-0.16.9/src/http_parser.cpp:82-338 | any series of growing prefixes of a message leaves the parser in the state the reference gives for these cuts; if every chunk header of the message is steady it is the state of the whole message fed at once, with the same summed counts |
| `HttpChunks.CollapseChunkHeaders` | libtorrent-rasterbar-0.16.9/src/http_parser.cpp:459-484 | moving the chunks together in place leaves the bytes of the ranges one after the other; reading never falls behind writing, and nothing after the result is touched |
| `HttpChunks.CollapsedIsPayload` | libtorrent-rasterbar-0.16.9/src/http_parser.cpp:425-436 | the body that is handed out fits the collapsing, and leaves as many bytes as were counted as payload, plus any bytes after the last chunk, which the parser counts as well; for chunk sizes that are not negative |
| `HttpChunks.PayloadIff` | libtorrent-rasterbar-0.16.9/src/http_parser.cpp:251-314 | for chunk sizes of either sign, as much is counted as payload as the ranges hold, and the bytes after the last chunk, if and only if no header of a chunk or an end with bytes after it is before the position received |
| `HttpChunks.NegativeExample` | libtorrent-rasterbar-0.16.9/src/http_parser.cpp:251-314 | with a negative chunk size three bytes are in the ranges and one is counted |
| `HttpChunks.HasLine` | libtorrent-rasterbar-0.16.9/src/http_parser.cpp:340-364 | any data of a length below 2^63 has a size line in hexadecimal digits, with or without an extension |
| `HttpChunks.ScanEncoded` | libtorrent-rasterbar-0.16.9/src/http_parser.cpp:340-423 | every list of non-empty chunks coded as in section 4.1 of RFC 7230, with hexadecimal sizes, extensions and trailers, is read to its end and the new ranges hold its data |
| `HttpChunks.PayloadArrives` | libtorrent-rasterbar-0.16.9/src/http_parser.cpp:251-314 | a response that announces chunks, followed by any such list and then by anything, arrives: the message is steady, the parser finishes, the data of the chunks is what moving them together leaves, as much as was counted as payload but for what follows, and for every name the first value after the last chunk is added to those of the head |
| `HttpChunks.TailRead` | libtorrent-rasterbar-0.16.9/src/http_parser.cpp:373-423 | the lines after the last chunk are taken as header fields, the first of each name |
| `HttpChunks.ChunkedRead` | libtorrent-rasterbar-0.16.9/src/http_parser.cpp:82-338 | from a head and chunks as they are written to the fields, the data and the trailers that the parser ends with, finished at the last byte and on no proper prefix |
| `FileLayout.ArrangeLaid` | libtorrent-rasterbar-0.16.9/src/file_storage.cpp:571-661 | the arranged files lie one after the other from offset zero |
| `FileLayout.ArrangeAligned` | libtorrent-rasterbar-0.16.9/src/file_storage.cpp:571-661 | with padding on, every file above the raised limit that is no padding starts on a 16 KiB boundary |
| `FileLayout.ArrangeKeeps` | libtorrent-rasterbar-0.16.9/src/file_storage.cpp:571-661 | the arranged files are those there were, each with its own time and hash, and numbered padding files smaller than 16 KiB: at most one for each file above the limit and none for a negative limit; the size grows by the padding alone |
| `FileOrder.ArrangeOrder` | libtorrent-rasterbar-0.16.9/src/file_storage.cpp:571-661 | the arranged list is an order of all files with padding before some of them, and at every place the file is the one that the rules want: at an aligned offset the largest that is left, the first of these; elsewhere the first that is left if it is not above the limit, or else the largest other that fits in the gap, or else that file after padding when none fits |
| `FileSlices.TilesRead` | libtorrent-rasterbar-0.16.9/src/file_storage.cpp:218-257 | reading slices that tile a range reads the bytes of that range of the concatenated files |
| `FileSlices.TilesUnique` | libtorrent-rasterbar-0.16.9/src/file_storage.cpp:218-257 | there is only one tiling of a range by non-empty slices in file order |
| `FileStorage.ReorderBeside` | libtorrent-rasterbar-0.16.9/src/file_storage.cpp:521-543 | a list of times or hashes that may be too short has, after a move, for every file what it had for that file |
| `FileStorage.FileStorage.ReorderFile` | libtorrent-rasterbar-0.16.9/src/file_storage.cpp:512-556 | moving a file to the front moves its time and hash with it and keeps all others |
| `FileStorage.FileStorage.InsertPadding` | libtorrent-rasterbar-0.16.9/src/file_storage.cpp:631-656 | a padding file without time and hash is put in, and every file keeps its own |
| `FileStorage.FileStorage.MaxElement` | libtorrent-rasterbar-0.16.9/src/file_storage.cpp:578-580 | the first of the largest files that are left |
| `FileStorage.FileStorage.FindFit` | libtorrent-rasterbar-0.16.9/src/file_storage.cpp:600-607 | the first of the largest files after the current one that fit in the gap, or none |
| `FileStorage.FileStorage.ArrangeNext` | libtorrent-rasterbar-0.16.9/src/file_storage.cpp:571-660 | one turn of the loop puts the file in place that the arrangement puts there, with padding where it has padding |
| `FileStorage.FileStorage.Optimize` | libtorrent-rasterbar-0.16.9/src/file_storage.cpp:558-662 | the loop over the vectors it changes ends, with the arrangement of the files; offsets are contiguous and the total size is their sum |
| `FileStorage.FileStorage.AddFile` | libtorrent-rasterbar-0.16.9/src/file_storage.cpp:315-399 | a file is added at the old total size, with its time and hash; a negative size counts as zero |
| `FileStorage.FileStorage.FileAtOffset` | libtorrent-rasterbar-0.16.9/src/file_storage.cpp:203-216 | the file found holds the byte at the position, also among empty files at the same offset |
| `FileStorage.FileStorage.MapBlock` | libtorrent-rasterbar-0.16.9/src/file_storage.cpp:218-257 | the slices are non-empty, in file order, within their files and tile exactly the requested range |
| `FileStorage.FileStorage.MapFile` | libtorrent-rasterbar-0.16.9/src/file_storage.cpp:281-313 | the piece and the start stand for the same position of the torrent, also for one before its first byte, where both are negative or zero; the length is cut at the end; outside of it the request is empty |
| `FileStorage.FileStorage.MapFileAndBack` | libtorrent-rasterbar-0.16.9/src/file_storage.cpp:281-313 | mapping any part of a file to a piece and back gives that part of that file |
| `FileStorage.FileStorage.PiecesHoldAll` | libtorrent-rasterbar-0.16.9/src/file_storage.cpp:56-70 | with as many pieces as it takes, every piece has more than zero and at most the piece length of bytes, and they add up to the total size |
| `PacketBuffer.LessWrapIff` | libtorrent-rasterbar-0.16.9/src/utp_stream.cpp:119-130 | one number comes before another in the wrapping comparison exactly if it is less than half the range up to it |
| `PacketBuffer.RingFrom` | libtorrent-rasterbar-0.16.9/src/packet_buffer.cpp:150-171 | a ring that holds a map from one first number on holds it from any other from which all numbers in use are still reached |
| `PacketBuffer.PacketBuffer.Reserve` | libtorrent-rasterbar-0.16.9/src/packet_buffer.cpp:150-171 | growing keeps the map and makes room for the given number of places |
| `PacketBuffer.PacketBuffer.FreeSpace` | libtorrent-rasterbar-0.16.9/src/packet_buffer.cpp:86-94 | the number of free places before the first, counted around the ring |
| `PacketBuffer.PacketBuffer.Insert` | libtorrent-rasterbar-0.16.9/src/packet_buffer.cpp:68-133 | for any number the map is updated at that number; all is well, with nothing else changed, the old packet returned and first, last and size those of the map, if and only if with it the numbers in use stay within half the range and it is not a number past the wrap while the places do not reach the wrap; if all is well the storage grows to less than twice the span |
| `PacketBuffer.TooFarApart` | libtorrent-rasterbar-0.16.9/src/packet_buffer.cpp:78-122 | after packets with the numbers 0, 2 and 0x8001, the one with the number 2 is found no more |
| `PacketBuffer.PacketBuffer.AtFinds` | libtorrent-rasterbar-0.16.9/src/packet_buffer.cpp:135-148 | looking up any number gives what the map has for it, if and only if it is not a number past the wrap and beyond the places, or no number in use shares its place |
| `PacketBuffer.BeyondLookup` | libtorrent-rasterbar-0.16.9/src/packet_buffer.cpp:135-148 | a packet with the number 0x8010 is found under 0x10, and removed with it |
| `PacketBuffer.WrapOverwrites` | libtorrent-rasterbar-0.16.9/src/packet_buffer.cpp:103-110 | a packet with the number 0 takes the place of the one with the number 0xFFE0, which is then found no more |
| `PacketBuffer.PacketBuffer.Remove` | libtorrent-rasterbar-0.16.9/src/packet_buffer.cpp:173-212 | for any number: the map loses it, and first and last move to the least and greatest numbers left; for a number beyond the places the packet that shares its place is lost, and the buffer stays in order exactly if that was the only one or neither the first nor the last |
| `BandwidthChannel.Channel.UpdateQuota` | libtorrent-rasterbar-0.16.9/src/bandwidth_limit.cpp:60-69 | the quota is refilled for the time, up to three times the limit, and all of it that is not a debt is to be distributed |
| `BandwidthChannel.SpentInProportion` | libtorrent-rasterbar-0.16.9/src/bandwidth_queue_entry.cpp:52-72 | what any set of requests takes from a channel, times the sum of all priorities, is at most the quota times the sum of theirs |
| `BandwidthChannel.SpentWithin` | libtorrent-rasterbar-0.16.9/src/bandwidth_queue_entry.cpp:52-72 | when the priorities add up to the sum, all requests together take no more from a channel than it has to distribute, also if a request lists a channel twice |
| `BandwidthChannel.RefillNearest` | libtorrent-rasterbar-0.16.9/src/bandwidth_limit.cpp:60-69 | what a channel is refilled by is its limit times the time, to the nearest byte, up to three times its limit in all |
| `BandwidthChannel.GrantGreatest` | libtorrent-rasterbar-0.16.9/src/bandwidth_queue_entry.cpp:52-72 | what a request is granted is the greatest amount that is no more than it wants and that every channel with a limit allows for its priority |
| `BandwidthManager.AssignBandwidth` | libtorrent-rasterbar-0.16.9/src/bandwidth_queue_entry.cpp:52-72 | a request gets the greatest amount that is no more than it still wants and than its part of what every channel of it with a limit has, and each of these loses as much; a round of its patience is used up |
| `BandwidthManager.Manager.RequestBandwidth` | libtorrent-rasterbar-0.16.9/src/bandwidth_manager.cpp:87-121 | without a channel that has a limit all is granted at once; otherwise the request waits with exactly the channels that have one, and the count of queued bytes is kept |
| `BandwidthManager.Manager.DropGone` | libtorrent-rasterbar-0.16.9/src/bandwidth_manager.cpp:150-174 | requests of disconnecting peers leave the queue, each of their channels gets back what they were given, and the count is kept |
| `BandwidthManager.Manager.Weigh` | libtorrent-rasterbar-0.16.9/src/bandwidth_manager.cpp:176-186 | every channel has the sum of the priorities of its requests and is listed exactly once |
| `BandwidthManager.Manager.AssignAll` | libtorrent-rasterbar-0.16.9/src/bandwidth_manager.cpp:194-213 | every request gets its part; those that are finished leave the queue, and the count of queued bytes stays that of the queue |
| `BandwidthManager.Manager.UpdateQuotas` | libtorrent-rasterbar-0.16.9/src/bandwidth_manager.cpp:136-221 | a whole round: who is dropped, who is told what, who still waits with how much, and what every channel has left: what it was refilled to less what was taken, no more was taken than it had, and at most three times its limit is left; a channel all of whose requests were dropped has what they gave back |
| `BandwidthRun.HeldServed` | libtorrent-rasterbar-0.16.9/src/bandwidth_queue_entry.cpp:52-72 | what is taken from a channel in a round is what the requests have got more, those that wait and those that have finished |
| `BandwidthRun.HeldReturned` | libtorrent-rasterbar-0.16.9/src/bandwidth_manager.cpp:150-174 | what goes back to a channel is what the dropped requests had |
| `BandwidthRun.RoundWithin` | libtorrent-rasterbar-0.16.9/src/bandwidth_manager.cpp:176-213 | in a round no more is taken from a channel with a limit than it has to give |
| `BandwidthRun.RanAccount` | libtorrent-rasterbar-0.16.9/src/bandwidth_manager.cpp:55-221 | over any run: what the peers were told they got through a channel that is limited all the time, with what the waiting requests have got through it and what is left, is covered by what it and the waiting requests had before and what its limits allowed for the time of the rounds |
| `BandwidthRun.RanIds` | libtorrent-rasterbar-0.16.9/src/bandwidth_manager.cpp:87-213 | over any run: the requests that wait and those that were finished, each with the channels that count against it, are among those that waited before and those asked for since, none twice, with exactly the channels that had a limit when they were asked for; who is told gets something, and no more than was asked |
| `BandwidthRun.LimitingIs` | libtorrent-rasterbar-0.16.9/src/bandwidth_manager.cpp:103-109 | a request is for exactly those of its channels that have a limit, in their order |
| `BandwidthFair.RoundFates` | libtorrent-rasterbar-0.16.9/src/bandwidth_manager.cpp:136-221 | in a round every request whose peer has not gone gets the greatest amount its channels allow after a refill to the nearest byte; it is done if it has all it asked for, or something after twenty rounds, and otherwise waits on; nobody else does |
| `BandwidthFair.RanPatient` | libtorrent-rasterbar-0.16.9/src/bandwidth_manager.cpp:87-213 | over any run: every request that waits or is done was made in some step, with the channels that had a limit then, and has used up one round of its patience in every round since |
| `BandwidthFair.RanDone` | libtorrent-rasterbar-0.16.9/src/bandwidth_manager.cpp:194-213 | over any run: every peer is told only when its request has all it asked for, or has got something and waited twenty rounds |
| `BandwidthFair.RanAll` | libtorrent-rasterbar-0.16.9/src/bandwidth_manager.cpp:87-213 | over any run without a close and with no peer gone: no request is lost |
| `BandwidthRun.Run` | libtorrent-rasterbar-0.16.9/src/bandwidth_manager.cpp:55-221 | after any requests, rounds, changed limits, returned quota and closing in any order: the queue, all quotas and limits and the calls made are those of the run of values; the queued bytes are those the queue owes, and no channel is in debt |
| `BandwidthManager.Manager.Close` | libtorrent-rasterbar-0.16.9/src/bandwidth_manager.cpp:55-60 | the queue is empty and its count is zero |
| `DiskBlocks.WriteRun` | libtorrent-rasterbar-0.16.9/src/disk_io_thread.cpp:596-649 | one write of a run of cached blocks leaves the disk as writing each block at its own offset does, with a short last block |
| `DiskBlocks.FlushKeepsView` | libtorrent-rasterbar-0.16.9/src/disk_io_thread.cpp:570-691 | flushing any range of blocks does not change what the piece holds seen through the cache |
| `DiskBlocks.CacheChangesView` | libtorrent-rasterbar-0.16.9/src/disk_io_thread.cpp:2099-2105 | putting a block in the cache changes what the piece holds in that block and nowhere else |
| `DiskBlocks.LonelyBlock` | libtorrent-rasterbar-0.16.9/src/disk_io_thread.cpp:2090-2098 | a block without cached neighbours does not make the longest run longer, if any block was cached: the reason why it is not recomputed |
| `DiskCache.WriteRuns` | libtorrent-rasterbar-0.16.9/src/disk_io_thread.cpp:577-649 | for every pattern of cached blocks and every range, gathered as a list of buffers or copied into one, the disk is as if every cached block in the range were written by itself; the writes are as many as there are runs |
| `DiskCache.CallBack` | libtorrent-rasterbar-0.16.9/src/disk_io_thread.cpp:653-674 | every cached block in the range is called back once, with its offset and size, its buffer is freed once, and it is empty then |
| `DiskCache.ContiguousBlocks` | libtorrent-rasterbar-0.16.9/src/disk_io_thread.cpp:409-425 | the length of the longest run of cached blocks |
| `DiskCache.FindRun` | libtorrent-rasterbar-0.16.9/src/disk_io_thread.cpp:430-466 | the first of the longest runs |
| `DiskCache.WriteCache.FlushRange` | libtorrent-rasterbar-0.16.9/src/disk_io_thread.cpp:570-691 | the whole new state: disk, blocks, calls, freed buffers, statistics; the counts of the piece and of the cache stay recounts, and the content of every piece is as before |
| `DiskCache.WriteCache.FlushContiguousBlocks` | libtorrent-rasterbar-0.16.9/src/disk_io_thread.cpp:427-470 | the first of the longest runs, or the one next to be hashed, is flushed in one write if it is long enough, with its calls and counts; the content of every piece is as before |
| `DiskCache.WriteCache.CacheBlock` | libtorrent-rasterbar-0.16.9/src/disk_io_thread.cpp:694-728 | a piece of more than one block gets an entry with its first block |
| `DiskCache.WriteCache.PutBlock` | libtorrent-rasterbar-0.16.9/src/disk_io_thread.cpp:2080-2109 | the block is in the cache, a buffer it replaces is freed and the handler of that goes to the job, and the counts are recounts although the longest run is looked for only when it may have changed |
| `DiskCache.WriteCache.Erase` | libtorrent-rasterbar-0.16.9/src/disk_io_thread.cpp:2121-2121 | forgetting a piece without cached blocks changes the content of no piece |
| `DiskCache.WriteCache.Write` | libtorrent-rasterbar-0.16.9/src/disk_io_thread.cpp:2073-2152 | after any write of a block, cached, flushed or direct, the piece holds the block there and all else is as before in every piece; which entries, calls, freed buffers and flushed run that leaves: a direct write calls its own handler and frees its buffer, a block that replaces one calls the handler of that; all counts are recounts |
| `DiskOrder.FlushIff` | libtorrent-rasterbar-0.16.9/src/disk_io_thread.cpp:427-470 | a write flushes something exactly if there is a run of cached blocks as long as the line size, or, when readback is to be avoided, one where hashing goes on |
| `DiskOrder.WroteShort` | libtorrent-rasterbar-0.16.9/src/disk_io_thread.cpp:2080-2119 | a write leaves no run of cached blocks as long as the line size in any piece, if there was none |
| `DiskOrder.WroteReady` | libtorrent-rasterbar-0.16.9/src/disk_io_thread.cpp:2080-2119 | when readback is to be avoided, a write leaves no such run where hashing goes on |
| `DiskOrder.NextToHashIs` | libtorrent-rasterbar-0.16.9/src/disk_io_thread.cpp:648-648 | a flush moves the next block to be hashed past the cached blocks from there on, as far as the range goes, and not otherwise |
| `DiskOrder.WroteNext` | libtorrent-rasterbar-0.16.9/src/disk_io_thread.cpp:2119-2121 | a write never takes the next block to be hashed back, not even when the piece is forgotten, and past blocks only that were cached or just written |
| `DiskRun.WroteMoves` | libtorrent-rasterbar-0.16.9/src/disk_io_thread.cpp:2073-2152 | a write job adds its call, with its handler, its offset and its size, and its buffer, to the cache or to those made and freed, and loses none |
| `DiskRun.FlushMoves` | libtorrent-rasterbar-0.16.9/src/disk_io_thread.cpp:653-674 | a flush moves calls and buffers out of the cache to those made and freed |
| `DiskRun.Run` | libtorrent-rasterbar-0.16.9/src/disk_io_thread.cpp:570-691 | after any writes and flushes in any order every piece holds what was written to it, in that order; every write was answered once, with its handler, its offset and its size, or its block is in the cache; every buffer was freed once or is there; under one setting no run is left that should have been flushed; and hashing is not taken back |
| `ConnectionQueue.StartedWho` | libtorrent-rasterbar-0.16.9/src/connection_queue.cpp:212-247 | the tickets started are of waiting entries, none twice |
| `ConnectionQueue.StartedCount` | libtorrent-rasterbar-0.16.9/src/connection_queue.cpp:198-247 | the limit is not exceeded, and all slots are used if an entry still waits |
| `ConnectionQueue.FrontFirst` | libtorrent-rasterbar-0.16.9/src/connection_queue.cpp:212-247 | no entry that still waits stands before one that was started |
| `ConnectionQueue.Queue.Enqueue` | libtorrent-rasterbar-0.16.9/src/connection_queue.cpp:70-105 | the entry is at the back, or in front if it has priority, with a new ticket |
| `ConnectionQueue.Queue.Done` | libtorrent-rasterbar-0.16.9/src/connection_queue.cpp:107-127 | the entry with the ticket is gone, and no other; an unknown ticket changes nothing |
| `ConnectionQueue.Queue.TryConnect` | libtorrent-rasterbar-0.16.9/src/connection_queue.cpp:188-260 | waiting entries are started from the front while there are slots; if none was connecting, the timer is set for the time of the first one started |
| `ConnectionQueue.Queue.OnTryConnect` | libtorrent-rasterbar-0.16.9/src/connection_queue.cpp:341-345 | a posted call starts waiting entries, sets the timer in the same way, and leaves none waiting beside a free slot |
| `ConnectionQueue.Queue.OnTimeoutBegins` | libtorrent-rasterbar-0.16.9/src/connection_queue.cpp:272-314 | connecting entries past their time leave the queue and are called; a cancelled timer goes on if it is the only one left while something connects; the earliest time of those left is kept for later |
| `ConnectionQueue.Queue.OnTimeoutEnds` | libtorrent-rasterbar-0.16.9/src/connection_queue.cpp:326-339 | the timer is set for the earliest time of the entries that were left, waiting entries are started, and if none was connecting the timer is set for the first of them instead |
| `ConnectionQueue.Queue.CloseBegins` | libtorrent-rasterbar-0.16.9/src/connection_queue.cpp:129-141 | the timer is cancelled if nothing connects, and all entries leave the queue at once |
| `ConnectionQueue.Queue.CloseNext` | libtorrent-rasterbar-0.16.9/src/connection_queue.cpp:143-161 | the next of them is put back if it is urgent; otherwise its owner is called, timed out if it was connecting and refused if not |
| `ConnectionQueue.Queue.TimerFires` | libtorrent-rasterbar-0.16.9/src/connection_queue.cpp:222-229 | when the time that the timer is set for has come, its handler becomes due |
| `ConnectionRun.RanOk` | libtorrent-rasterbar-0.16.9/src/connection_queue.cpp:70-345 | over any run, with threads inside closing and inside the timeout handler at the same time: no ticket is connected twice or times out twice, none times out that was not connected, and every entry is in one place |
| `ConnectionRun.StepCalm` | libtorrent-rasterbar-0.16.9/src/connection_queue.cpp:70-345 | a step that does not race with a closing thread that holds an urgent entry keeps: the limit; a live timer while anything connects; a posted call or a handler under way for an entry beside a free slot, unless closed; and someone or a timer for it, if and only if the step is not a close that forgets it, which takes an earlier close |
| `ConnectionRun.RanCalm` | libtorrent-rasterbar-0.16.9/src/connection_queue.cpp:70-345 | the same over any run without such a race, in which an entry is forgotten only if the queue was closed twice |
| `ConnectionTimes.RanTimely` | libtorrent-rasterbar-0.16.9/src/connection_queue.cpp:70-345 | over any run: every entry is as it was asked for, and a connecting one was started at some step, its time being up one timeout later |
| `ConnectionTimes.HandlerTakes` | libtorrent-rasterbar-0.16.9/src/connection_queue.cpp:272-314 | the timeout handler takes out exactly the connecting entries whose time is up with a tenth of a second to spare, keeps the others in their order, and remembers the earliest of their times |
| `ConnectionTimes.TimedOutLate` | libtorrent-rasterbar-0.16.9/src/connection_queue.cpp:272-314 | over any run: who is told of a timeout was started a whole timeout before that, less a tenth of a second |
| `ConnectionTimes.ClosedCalls` | libtorrent-rasterbar-0.16.9/src/connection_queue.cpp:143-161 | over any run: who is called when closing is not urgent, and is told of a timeout if it was connecting and refused if it was not |
| `ConnectionTimes.LookFills` | libtorrent-rasterbar-0.16.9/src/connection_queue.cpp:198-247 | looking for connections to start fills all slots, or starts all that wait |
| `ConnectionTimes.LookWaits` | libtorrent-rasterbar-0.16.9/src/connection_queue.cpp:222-229 | when something was started and nothing was connecting before, the timer is set for the first started, one timeout later, and otherwise left as it is |
| `ConnectionTimes.EndsWaits` | libtorrent-rasterbar-0.16.9/src/connection_queue.cpp:326-339 | the same after the timeout handler, which sets the timer for the earliest time that it remembered |
| `ConnectionTimes.DoneTakes` | libtorrent-rasterbar-0.16.9/src/connection_queue.cpp:107-127 | a connection that is done leaves the queue, and no other |
| `ConnectionTimes.RanLined` | libtorrent-rasterbar-0.16.9/src/connection_queue.cpp:70-105 | over any run without a close: entries with priority stand before the others, the latest first, and the others in the order in which they were asked for |
| `ConnectionRun.Run` | libtorrent-rasterbar-0.16.9/src/connection_queue.cpp:70-345 | the queue after any steps in any order is that of the run of values, with the same calls; no ticket was connected twice or timed out twice, and none timed out that was not connected; without races the limit is kept, a timer is live while anything connects, and an entry beside a free slot is seen to, unless it was forgotten |
| `ConnectionRun.LimitExceeded` | libtorrent-rasterbar-0.16.9/src/connection_queue.cpp:129-161 | with a race: a connection is started while an urgent one is held, and the limit of one is exceeded when that is put back |
| `ConnectionRun.NeverTimesOut` | libtorrent-rasterbar-0.16.9/src/connection_queue.cpp:129-161 | with a race: a second close cancels the timer of an urgent connection that is held, and no timer is left for it |
| `ConnectionRun.CloseOnce` | libtorrent-rasterbar-0.16.9/src/connection_queue.cpp:129-161 | closing while something connects leaves an urgent entry beside a free slot, with the timer still pending |
| `ConnectionRun.TimerStartsUrgent` | libtorrent-rasterbar-0.16.9/src/connection_queue.cpp:272-339 | when that timer runs out, its handler starts the entry and sets the timer for it |
| `ConnectionRun.SecondCloseForgets` | libtorrent-rasterbar-0.16.9/src/connection_queue.cpp:129-161 | closing once more cancels it, and nothing is left that would start the entry |

## Left out

- gzip headers, the other users of inflate, sockets, name resolution, trackers, DHT, peers, sessions and the user interface: not modelled; the model is of nine components with the most state and arithmetic.
- 32-bit wrap of byte and bit counters in the inflater, for buffers near 4 GiB; the model counts without bound.
- Puff.DynamicBlock: an empty code-length code with enough input gives the result UNDEFINED, because the code goes on with a failed symbol as an index there; what it then does is not modelled.
- Puff.FixedBlock: builds the fixed tables at every use; the source keeps them between calls.
- The long jump out of the inflater at the end of input is a returned result.
- ConvertUTF.Convert: one loop for the six converters, each with its own body; round trips are claimed for strict conversion of text only.
- LazyTree.LazyDecode: allocation never fails, and the entries left after an error are left out. A length that has wrapped around and leads out of the buffer, and a list too long for the size of a larger array to be computed, give the result Undefined. Signed overflow wraps around elsewhere, as compilers make it do.
- LazyBdecodeProof.DecodesEncoding: for buffers of less than 2^63 bytes, which is all that memory can hold. It and LazyErrors speak of canonical encodings up to the first flaw; what is made of lengths with leading zeros or past the range of 64 bits is defined by the model but nothing is claimed about it.
- HttpParser.HttpParser.Incoming: atoi and strtoll in base 10 are any functions of the text; base 16 is modelled. The byte after those received ends a number, positions are not cut to 64 bits, and a negative chunk size that leads to before the buffer ends the model there.
- HttpResume.SteadyMessageIff: is exact for messages in which no chunk size is negative; with such sizes the condition is sufficient for a message, exact for a single header (HttpResume.SteadyIff) and not needed for a message (HttpDetour.UnsteadyYetSame): two sizes may lead to the same chunks in the end.
- HttpChunks.CollapseChunkHeaders: takes the ranges, the start of the body and the encoding as parameters, where the source reads its own fields; memmove is a loop.
- FileStorage.FileStorage.Optimize: file bases are zero and left out, names are opaque, and sizes and offsets are not cut to 48 bits.
- BandwidthManager.Manager.UpdateQuotas: time does not run backwards, integers do not overflow, and the calls to peers come after the round as a list, so that they may make new requests.
- BandwidthRun.Run: charges made to a channel by others than the manager, which may put it into debt, are not among the steps.
- DiskCache.WriteCache.FlushRange: writes succeed, and no other thread changes the piece while the lock is given up for a write; blocks are of 16 KiB.
- DiskCache.WriteCache.Write: a buffer is as long as the block; making room in a full cache, expiry, the elevator, hashing and reading are left out, and the result codes passed to handlers too.
- ConnectionRun.Run: the limit is fixed, the clock is read once in a step, and tickets do not overflow; calls outside the lock are logged when the lock is given up.
