# Nacre: the hand-written codecs and the two queues, in Dafny

Nacre's service layer rests on a handful of codecs and two small concurrent mechanisms that use no library. This
project models them and proves what they are for. `dafny verify dfyconfig.toml` checks all of it.

| part | files | main result |
|---|---|---|
| QR encoder (ISO/IEC 18004:2015, byte mode, level M, versions 1 to 40) | `gf256`, `bits`, `reed_solomon`, `qr_*` | for every payload, the grid the encoder returns, in the smallest version by the standard's capacities, reads back as exactly the payload with a decoder written from the standard's side, its tables, masks and walk as `qr_standard` has them, and still does after damage to at most three modules of the first format copy and, in each block, to at most half as many codewords as it has error correction (`QrEncoder.QrMatrix`) |
| skill archives (PKWARE APPNOTE 4.3.7, 4.3.12, 4.3.16) | `buffers`, `zip_*` | which byte strings the reader accepts, and as which files, for every byte string (`ZipAccepted.AcceptedWhen`); what reading a folder's archive gives, stored and deflated members mixed (`ZipRoundTrip.PackedRoundTrip`), and exactly when a written one gives the folder back (`ZipRoundTrip.RoundTripExact`) |
| CBOR subset (RFC 8949 section 3) and authenticator data | `cbor`, `cbor_codec`, `cbor_inputs`, `cbor_canonical`, `authenticator` | decoding undoes a reference encoder exactly when no map repeats a key and no text begins with a byte order mark (`CborCodec.DecodeEncode`); encoding undoes decoding exactly on the inputs whose every head is in shortest form and whose texts carry no mark (`CborCanonical.CanonicalWhen`); accepted inputs are prefix-free and in bounds (`CborInputs`) |
| RESP2 client | `resp`, `resp_wire`, `redis_client`, `redis_run` | in every run of a connection, under any chunking and any timeouts, the i-th reply a server prints settles the i-th command with its meaning (`RedisRun.ServedInOrder`) |
| multipart parser (RFC 2046 section 5.1.1, RFC 7578 section 4) | `multipart`, `multipart_headers`, `multipart_roundtrip` | parsing undoes a reference printer, with the exact answer for every number of parts (`MultipartRoundTrip.ParsePrint`), and which bodies give which parts, for every body (`MultipartRoundTrip.AcceptedWhen`) |
| hashing gate | `hashing_gate` | order, bounds and draining in every interleaving (`HashingGate.Reachable`, `HashingGate.DrainsToZero`) |
| base32 (RFC 4648 section 6) | `bits`, `base32`, `base32_vectors` | decoding undoes encoding after any retyping, over an accumulator that wraps at 32 bits (`Base32.DecodeRetyped`) |
| IPv6 classification (RFC 4291 section 2.2) | `egress`, `egress_spelling`, `egress_ranges` | a text reads as eight words without a glued quad exactly when it is a spelling of them (`EgressSpelling.ReadsOnlySpellings`); every spelling gets one verdict, and an embedded IPv4 address gets its own (`EgressRanges.EmbeddedVerdict`) |

Two small files, `options` and `sets`, hold what the others share. `qr_standard` is what ISO/IEC 18004:2015 prints, as
literals: the blocks and capacities of every version, the alignment centres, the finder and alignment patterns, the eight
masks as tiles, the format and version information and where they stand, and the walk from module to module. The encoder
computes all of these in its own ways, and that it computes the same is proved.

The code that works in place is modelled in place: grids are `array2<bool>`, the generator polynomial and the zip
records are arrays, the CBOR reader, the Redis client and the gate are classes with the fields the source updates, and
loops are loops with invariants. Each such method is tied by its `ensures` to a function or predicate, and what the
source promises is proved about that.

What the code takes from its runtime is a parameter wherever it matters: `crc32`, `inflateRawSync` and UTF-8 validity
(`ZipFormat.Library`), strict UTF-8 decoding (`isUtf8`, with a text kept as its bytes), upper-casing outside ASCII
(`upper`), `isIP` and the prefix matcher's reading of an address (`Egress.Net`).

## Where the code does not do what one would expect

Each of these is a property that fails of the code: first the lemma at a concrete input, then the one with the exact
condition under which it holds.

* A skill folder does not come back from its own archive when the base name of a file is `.DS_Store`, when a text begins
  with a byte order mark, when a file is named `__proto__`, or when the folder is called `__MACOSX`. The first two pass
  `checkSkill`: `ZipRoundTrip.LitterLost` is SKILL.md beside `x/.DS_Store`, `ZipRoundTrip.MarkLost` a SKILL.md that begins
  with a mark. The last two do not, since a skill's name is lower-case and `checkSkill` loses a `__proto__` key by its own
  assignment (packages/core/skill.ts:166), so `ZipRoundTrip.ProtoFileLost` is about writer and reader alone. Exactly
  when a folder comes back: `ZipRoundTrip.RoundTripExact`.
* A CBOR text that begins with a byte order mark comes back without it: `CborCodec.MarkedText`. Two keys that differ only
  by one collide: `CborCodec.CollidingKeys`. Exactly when an encoding decodes to its value: `CborCodec.DecodeEncode`.
* A CBOR value has more than one accepted encoding: `CborInputs.TwoEncodings`. Exactly when an accepted input is the
  reference encoding of its value: `CborCanonical.CanonicalWhen`.
* Bytes after authenticator data are accepted: `Authenticator.TrailingZero`. Exactly when they are refused:
  `Authenticator.TrailingBytes`.
* A Redis reply that comes when no command is waiting shifts the numbering of those after it: `RedisRun.UnsolicitedReply`.
  The next reply is its own command's exactly when none did: `RedisRun.NextIsItsOwn`.
* A multipart filename that is empty reads as none: `MultipartRoundTrip.EmptyFilename`. Exactly when the parts come back:
  `MultipartRoundTrip.ParsePrintExact`.
* Base32 texts with bits left over decode all the same: `Base32.LeftoverBits`. Exactly when encoding gives the text back:
  `Base32.EncodeDecode`.
* A dotted quad is rewritten even where it continues a group, so the helper `ipv6Words` reads some texts that are no
  address: `EgressSpelling.GluedQuad`. Exactly when what it reads is a spelling: `EgressSpelling.DottedSpelling` and
  `EgressSpelling.ReadsOnlySpellings`. The helper alone is at fault: `isGlobalAddress` asks `isIP` first, which refuses
  such a text.

## Model

| member | source | states |
|---|---|---|
| GaloisField.GfMul | packages/admin/src/qr.ts:121-128 | the Russian-peasant loop, with its accumulator in 32 bits, computes the product of GF(256) modulo 0x11D |
| QrExamples.DoublesModulo11D | packages/admin/src/qr.ts:121-128 | 2 times 0x80 is 0x1d, so the polynomial is that one |
| GaloisField.MulCommutes | packages/admin/src/qr.ts:121-128 | the product is commutative |
| GaloisField.MulAssociates | packages/admin/src/qr.ts:121-128 | and associative |
| GaloisField.MulAddRight | packages/admin/src/qr.ts:121-128 | and distributes over addition |
| GaloisField.NoZeroDivisors | packages/admin/src/qr.ts:121-128 | a product is zero only when a factor is |
| GaloisField.OrderOfTwo | packages/admin/src/qr.ts:134-141 | 2^k is 1 only at multiples of 255, so the generator's roots do not repeat |
| GaloisField.TwoPowersDistinct | packages/admin/src/qr.ts:134-141 | the first 255 powers of 2 are distinct |
| ReedSolomon.Generator | packages/admin/src/qr.ts:131-143 | the in-place loops leave the product of (x - 2^k) without its leading 1, for every degree |
| ReedSolomon.GeneratorRoots | packages/admin/src/qr.ts:131-143 | that polynomial is zero at 2^0 to 2^(d-1) |
| ReedSolomon.Remainder | packages/admin/src/qr.ts:146-156 | the shifting loop computes the remainder of synthetic division |
| ReedSolomon.EccRoot | packages/admin/src/qr.ts:146-156 | data followed by its remainder is zero wherever the divisor is, for data of any length |
| ReedSolomon.CodewordRoots | packages/admin/src/qr.ts:131-156 | data followed by its error correction is zero at each of the d roots |
| ReedSolomon.Vandermonde | packages/admin/src/qr.ts:131-156 | power sums over distinct bases vanish together only when every coefficient does |
| ReedSolomon.MinimumDistance | packages/admin/src/qr.ts:131-156 | two codewords of different data, up to 255 long, differ in at least d + 1 places |
| ReedSolomon.UniqueCorrection | packages/admin/src/qr.ts:131-156 | so a damaged word is near enough to one codeword at most |
| QrVersion.VersionFacts | packages/admin/src/qr.ts:54-101 | in all 40 versions the arrays and the closed form give the standard's codewords, blocks, block lengths, count width and byte capacity; blocks have data and under 255 codewords, and the count field is wide enough |
| QrVersion.FitsIs | packages/admin/src/qr.ts:104-110 | a payload fits a version exactly when its bytes are at most the standard's capacity |
| QrVersion.VersionFor | packages/admin/src/qr.ts:104-110 | the smallest version whose byte capacity in the standard's table is enough, and none exactly above 2331 bytes |
| QrData.EncodeData | packages/admin/src/qr.ts:166-193 | the data codewords hold mode, length, payload, terminator, zero bits and alternating padding, and fill the version |
| QrData.PackAll | packages/admin/src/qr.ts:182-187 | bits packed eight by eight, most significant first |
| QrData.StreamOfBytes | packages/admin/src/qr.ts:182-187 | the bits of packed bits are those bits |
| QrData.ParseHeld | packages/admin/src/qr.ts:166-193 | reading mode and length back from the codewords gives exactly the payload |
| QrExamples.LetterHeld | packages/admin/src/qr.ts:166-193 | the sixteen codewords of the letter A in version 1 |
| QrBlocks.WithErrorCorrection | packages/admin/src/qr.ts:202-232 | for any number of blocks, error correction length and total: the codewords are the blocks interleaved column by column, no placeholder among them |
| QrBlocks.Plan.Totals | packages/admin/src/qr.ts:205-214 | the blocks use up the data and the columns make up the total |
| QrOrder.BlocksAreListed | packages/admin/src/qr.ts:205-214 | a version's blocks are the standard's, so many short ones and then so many longer by one |
| QrOrder.PlacesOrdered | packages/admin/src/qr.ts:225-231 | of two codewords the one whose turn is earlier stands first: data before error correction, number by number, block by block |
| QrBlocks.BlocksRecovered | packages/admin/src/qr.ts:202-232 | de-interleaving gives back every block with its own error correction |
| QrBlocks.DataRecovered | packages/admin/src/qr.ts:202-232 | and the data, whole and in order |
| QrBurst.PlacesSpread | packages/admin/src/qr.ts:198-200 | codewords of one block that are k apart in it stand at least k - 1 rounds of all the blocks apart in the symbol |
| QrBurst.BurstCorrectable | packages/admin/src/qr.ts:198-200 | a burst of t rounds of the blocks is corrected in every block whenever 2(t + 1) is at most the error correction length |
| QrLayout.AlignmentPositions | packages/admin/src/qr.ts:241-250 | the splice loop gives 6 and the evenly spaced positions up to the far edge, lowest first |
| QrLayout.PositionsSpaced | packages/admin/src/qr.ts:241-250 | the positions are even, at least twelve apart, and end seven from the edge, version 32 included |
| QrPicture.PositionsAreListed | packages/admin/src/qr.ts:241-250 | and they are the standard's table, for all versions |
| QrPattern.FunctionPatterns | packages/admin/src/qr.ts:260-333 | the drawing loops leave, cell by cell, the last pattern drawn there, and reserve exactly the cells drawn |
| QrPattern.FormatPositions | packages/admin/src/qr.ts:381-392 | the two copies of the fifteen format places |
| QrCapacity.FreeCount | packages/admin/src/qr.ts:79-87 | the closed form is the number of cells the drawn symbol leaves free, in every version |
| QrLandmarks.FindersIntact | packages/admin/src/qr.ts:276-288 | each finder stands complete, with its separator, whatever is drawn later |
| QrPicture.FinderPicture | packages/admin/src/qr.ts:276-288 | and is the standard's drawing, module by module |
| QrPicture.AlignmentPicture | packages/admin/src/qr.ts:290-308 | so is the pattern at every crossing of the standard's positions but the three finders', those on the timing lines included |
| QrPicture.DarkModule | packages/admin/src/qr.ts:329-330 | the dark module is dark |
| QrLandmarks.TimingAlternates | packages/admin/src/qr.ts:270-274 | the timing lines alternate between the finders, through the alignment patterns on them |
| QrWalk.WalkIsStandard | packages/admin/src/qr.ts:336-347 | the strips, one after the other, are the standard's walk: up from the lower right corner, right column and left column in turn, and the other way in the next two columns, over column 6 |
| QrWalk.WalkIsExact | packages/admin/src/qr.ts:336-357 | on any grid of side 4v + 17 whose column 6 is reserved that walk visits every free cell once and no other |
| QrPlace.PlaceCodewords | packages/admin/src/qr.ts:336-357 | the loops write the codewords' bits along that walk and leave every other cell as it was |
| QrPlace.WalkReadsBack | packages/admin/src/qr.ts:336-357 | walking again reads all the bits in order and then light cells |
| QrMaskTable.MaskIsStandard | packages/admin/src/qr.ts:360-369 | each of the eight tests is the standard's mask, a repeated tile, at every module |
| QrMask.ApplyMask | packages/admin/src/qr.ts:411-418 | flips exactly the free cells where the standard's mask is dark |
| QrFormat.PlaceFormat | packages/admin/src/qr.ts:395-408 | writes the mask's format bits on both copies of the strip and nothing else |
| QrBch.FormatTable | packages/admin/src/qr.ts:395-401 | the format words are those of the standard's table |
| QrBch.FormatWordsFarApart | packages/admin/src/qr.ts:395-401 | two masks' format words differ in at least seven bits |
| QrInformation.VersionTable | packages/admin/src/qr.ts:310-315 | the version words are those of the standard's table |
| QrVersionWords.VersionWordsFarApart | packages/admin/src/qr.ts:310-322 | two versions' words differ in at least eight of their eighteen bits |
| QrPenalty.RunsExpand | packages/admin/src/qr.ts:458-477 | a line is its runs, each nonempty but the first |
| QrPenalty.ScanLine | packages/admin/src/qr.ts:458-477 | the seven-run history scores a line as its runs do: lengths from five, and every finder-like sequence with the quiet zone counted |
| QrPenalty.PenaltyOf | packages/admin/src/qr.ts:428-494 | the loops compute the four rules' total |
| QrScores.FinderAmid | packages/admin/src/qr.ts:432-439 | a finder of any scale within a line scores forty for each side with four modules' worth of light, when the other has one |
| QrScores.FinderAtEdge | packages/admin/src/qr.ts:440-456 | and at the edge the quiet zone counts as light |
| QrScores.BlocksCounted | packages/admin/src/qr.ts:480-487 | rule two counts every block of four alike once |
| QrScores.DarkCounted | packages/admin/src/qr.ts:489-490 | rule four counts every dark module once |
| QrScores.ImbalanceWhen | packages/admin/src/qr.ts:491-492 | and measures how far their share is from half, in steps of five per cent |
| QrScores.PlainPenalty | packages/admin/src/qr.ts:428-494 | the score of a grid all of one colour, in closed form |
| QrSymbol.SpotsCount | packages/admin/src/qr.ts:71-87 | the walk over a version's own grid has as many cells as the closed form says |
| QrSymbol.ShowsUnique | packages/admin/src/qr.ts:502-529 | a symbol is determined by its version, codewords and mask |
| QrSymbol.TryMask | packages/admin/src/qr.ts:515-523 | a trial applies, scores and undoes: the free cells are as before |
| QrSymbol.ChooseMask | packages/admin/src/qr.ts:513-524 | after eight trials the first of the masks whose symbols score lowest is known |
| QrSymbol.DrawSymbol | packages/admin/src/qr.ts:507-528 | the grid is the symbol of the codewords under that mask |
| QrScan.StripShown | packages/admin/src/qr.ts:381-408 | on every symbol both strips, at the standard's places, are the standard's format information |
| QrScan.VersionShown | packages/admin/src/qr.ts:310-322 | and both version blocks the standard's version information |
| QrScan.VersionScans | packages/admin/src/qr.ts:310-322 | either block gives the version, with up to three modules of it wrong |
| QrScan.SymbolScans | packages/admin/src/qr.ts:502-529 | every symbol of a payload scans as the payload |
| QrScan.DamagedSymbolScans | packages/admin/src/qr.ts:502-529 | and so does any grid with at most three bits of the first format copy and, in each block, at most half the error correction length wrong |
| QrEncoder.QrMatrix | packages/admin/src/qr.ts:502-529 | none exactly above 2331 bytes; otherwise a grid that scans as the payload, also with the damage just said, in the smallest version by the standard's capacities, under the first best mask |
| Buffers.WriteUInt16LE | packages/core/skill.ts:230-239 | writes two bytes of a number, little-endian, in place |
| Buffers.WriteUInt32LE | packages/core/skill.ts:229-237 | writes four |
| ZipFormat.WriteSkillZip | packages/core/skill.ts:216-269 | the archive of the folder, its records byte by byte as the format lays them out, or the error a field too small for its number gives |
| ZipRoundTrip.HeadersAgree | packages/core/skill.ts:224-254 | every directory entry names its file's local header; the two agree in version, flags, method, time, date, checksum, sizes and lengths; both sizes are the content's; name and content follow |
| ZipRoundTrip.EndCounts | packages/core/skill.ts:259-267 | the end record has the number of files twice and the directory's size and place |
| ZipRoundTrip.WritableWhen | packages/core/skill.ts:234-254 | an accepted folder is written exactly when its names fit their length fields |
| ZipReader.FindEnd | packages/core/skill.ts:284-291 | the backwards scan finds the last end signature within its window |
| ZipReader.Overlapping | packages/core/skill.ts:358-365 | the check against the ranges used so far |
| ZipReader.ReadDirectory | packages/core/skill.ts:299-389 | the loop with its sums and ranges takes the entries the specification takes, and fails where it does |
| ZipReader.EntriesSound | packages/core/skill.ts:321-390 | on every input the entries taken lie inside the archive, do not overlap, hold the bytes they declare, and stay within both limits in all |
| ZipReader.Unwrap | packages/core/skill.ts:391-400 | one top folder is taken off exactly when all files lie in it and none is SKILL.md |
| ZipReader.NotWrapped | packages/core/skill.ts:391-394 | and none when a name has no folder or two names have different ones |
| ZipReader.ReadSkillZip | packages/core/skill.ts:279-401 | the reader computes its specification on every input |
| ZipAccepted.AcceptedWhen | packages/core/skill.ts:279-401 | any byte string gives these files exactly when its last end record announces a directory of at most 256 entries, each passed over or described truly (not encrypted, stored or inflating within one byte more than its size, size, checksum, text, 256 KiB), no byte in two of them, 1 MiB in all both ways |
| ZipAccepted.CollectedWhen | packages/core/skill.ts:384-386 | of several entries of one name the last counts, and none named `__proto__` |
| ZipPack.PackRead | packages/core/skill.ts:279-401 | an archive of stored and deflated members, with any extra fields, comments, data descriptors and other header contents, reads as its members |
| ZipRoundTrip.ArchiveRead | packages/core/skill.ts:216-390 | in a written archive the end is found, every offset agrees, and no limit or overlap check fires |
| ZipRoundTrip.PackedRoundTrip | packages/core/skill.ts:279-401 | however a folder's files are packed, stored or deflated, reading gives its surviving files |
| ZipRoundTrip.DeflatedRead | packages/core/skill.ts:366-379 | a single deflated SKILL.md comes back whenever inflating within one byte more than its size gives it |
| ZipRoundTrip.RoundTrip | packages/core/skill.ts:216-401 | reading a written archive gives the folder's surviving files, for every accepted folder |
| ZipRoundTrip.RoundTripExact | packages/core/skill.ts:216-401 | and exactly the folder if and only if every file is safe |
| ZipRoundTrip.LitterLost | packages/core/skill.ts:338 | SKILL.md beside `x/.DS_Store` comes back as SKILL.md alone |
| ZipRoundTrip.MarkLost | packages/core/skill.ts:384-388 | a SKILL.md that begins with a byte order mark comes back without it |
| ZipRoundTrip.ProtoFileLost | packages/core/skill.ts:382-397 | what is written of a file named `__proto__` reads as no file at all |
| Cbor.Reader.ReadHead | packages/core/webauthn.ts:94-126 | an item's major type and argument, by the cursor |
| CborInputs.HeadWhen | packages/core/webauthn.ts:94-126 | a head is read exactly where one of its four forms stands, shortest or not |
| Cbor.Reader.ReadItem | packages/core/webauthn.ts:128-183 | the recursive reader computes its specification, with every bound a refusal |
| Cbor.Reader.ReadItems | packages/core/webauthn.ts:152-157 | the array loop |
| Cbor.Reader.ReadEntries | packages/core/webauthn.ts:158-172 | the map loop, refusing other keys and repeated ones |
| Cbor.DecodeCbor | packages/core/webauthn.ts:192-199 | one item and nothing after it |
| CborCodec.ItemDecodes | packages/core/webauthn.ts:128-183 | an encoded value anywhere in any input is read back, byte order marks dropped, and the cursor stops after it |
| CborCodec.DecodeEncode | packages/core/webauthn.ts:192-199 | decoding undoes encoding for every value in bounds exactly when no map repeats a key and no text begins with a byte order mark |
| CborCodec.MarkedText | packages/core/webauthn.ts:145-151 | the text that is a byte order mark alone decodes to the empty text |
| CborCodec.CollidingKeys | packages/core/webauthn.ts:158-172 | a map with distinct keys whose encoding is refused for a repeated one |
| CborInputs.ItemLocal | packages/core/webauthn.ts:128-183 | a decoded item depends on the bytes it consumed only, not even on where they are |
| CborInputs.PrefixFree | packages/core/webauthn.ts:185-199 | no accepted input is a proper prefix of another |
| CborInputs.AcceptedIsInBounds | packages/core/webauthn.ts:128-199 | an accepted value is in bounds, has distinct keys and no more items than bytes, and its reference encoding is no longer than the input and, when no text of it begins with a byte order mark, decodes to it |
| CborInputs.TwoEncodings | packages/core/webauthn.ts:102-107 | one number in three encodings, all accepted (`CborCanonical.CanonicalWhen` says which is the reference encoding) |
| CborCanonical.CanonicalWhen | packages/core/webauthn.ts:94-199 | an accepted input is the reference encoding of its value exactly when every head in it is in shortest form and no text in it begins with a byte order mark |
| CborCanonical.CanonicalIsUnique | packages/core/webauthn.ts:94-199 | two such inputs with one value are equal |
| CborCanonical.CanonicalIsShortest | packages/core/webauthn.ts:94-199 | and every other input with that value is longer |
| Authenticator.ParseAuthenticatorData | packages/core/webauthn.ts:234-268 | the straight-line checks in their order |
| Authenticator.CredentialReads | packages/core/webauthn.ts:234-268 | printed data with a credential parses to exactly its fields |
| Authenticator.FixedReads | packages/core/webauthn.ts:234-247 | printed data without one does |
| Authenticator.FlagsRead | packages/core/webauthn.ts:238-244 | each flag is read from its own bit, whatever the reserved bits are |
| Authenticator.AcceptedWhen | packages/core/webauthn.ts:234-268 | with a credential, bytes parse to this data exactly when they are laid out as it, the key being one CBOR map, and bytes follow it only with the extension flag |
| Authenticator.TrailingBytes | packages/core/webauthn.ts:247-265 | added bytes are refused exactly when there is a credential and no extension flag, and otherwise change nothing |
| Authenticator.TrailingZero | packages/core/webauthn.ts:247-265 | 37 zero bytes parse, and one more changes nothing |
| Resp.EncodeCommand | packages/core/redis.ts:34-38 | a command as its parts with their lengths |
| Resp.ParseReply | packages/core/redis.ts:238-280 | the recursive parser computes its specification and ends |
| Resp.ParseStable | packages/core/redis.ts:238-280 | a complete answer never changes when more bytes arrive |
| RespWire.ParsePrint | packages/core/redis.ts:238-280 | a well-formed reply anywhere in a buffer parses to its meaning and to its last byte |
| RespWire.OtherReads | packages/core/redis.ts:277-279 | a line of an unknown kind is answered with an error, and the next reply begins after it |
| RespWire.ParseEncode | packages/core/redis.ts:34-38 | parsing undoes encoding for all arguments, CRLF, $ and * in them included, and leaves what follows |
| RespWire.CommandByExample | packages/core/redis.ts:34-38 | a command of two words, byte by byte |
| RespWire.DrainChunks | packages/core/redis.ts:82-85 | where a stream is cut makes no difference |
| RespWire.DrainPrinted | packages/core/redis.ts:134-145 | a stream of well-formed replies drains to their meanings in order |
| RedisClient.Redis.Send | packages/core/redis.ts:147-168 | a command's waiter is queued and its bytes are written, or it fails at once without a connection |
| RedisClient.Redis.Pipeline | packages/core/redis.ts:188-215 | several commands' waiters in order and their bytes joined |
| RedisClient.Redis.OnData | packages/core/redis.ts:82-85 | a chunk is appended and the buffer drained |
| RedisClient.Redis.DrainBuffer | packages/core/redis.ts:134-145 | complete replies go to waiters in order, and nowhere when there is none |
| RedisClient.Redis.OnTimeout | packages/core/redis.ts:152-154 | a timeout settles the promise and leaves the waiter |
| RedisClient.Redis.Fail | packages/core/redis.ts:87-95 | every waiter is settled as closed and the stream forgotten |
| RedisRun.RunReaches | packages/core/redis.ts:82-215 | after any run the state is the one the matching of replies to commands says |
| RedisRun.IthReplySettlesIthCommand | packages/core/redis.ts:129-145 | with solicited replies the i-th settles the i-th command, timed out or not, under any chunking, and the rest wait in order |
| RedisRun.ServedInOrder | packages/core/redis.ts:129-145 | when what arrived is any part from the start of what a server prints, the i-th printed reply settles the i-th command with its meaning, unless that timed out; the rest wait in order and the buffer holds an unfinished reply or nothing |
| RedisRun.NextIsItsOwn | packages/core/redis.ts:140-141 | the next reply is its own command's exactly when none was unsolicited |
| RedisRun.UnsolicitedReply | packages/core/redis.ts:140-141 | a run in which the first command is answered with the second reply |
| RedisRun.RepliesAreThePrinted | packages/core/redis.ts:134-145 | the replies are those the server printed, in order |
| RedisRun.CommandsArrive | packages/core/redis.ts:166-212 | the bytes written parse to exactly the commands issued, in order |
| RedisRun.FailSettlesAll | packages/core/redis.ts:87-95 | losing the connection settles all that was in flight and leaves a fresh start |
| RedisRun.OutcomesStay | packages/core/redis.ts:147-168 | a settled promise keeps its outcome through every later reply, timeout and loss |
| Multipart.ParseMultipart | packages/core/multipart.ts:97-176 | the cursor loop computes its specification on every body |
| Multipart.ReadHeaders | packages/core/multipart.ts:136-151 | the header loop, the last of each kind counting |
| MultipartHeaders.LinesWhen | packages/core/multipart.ts:138 | lines are what, with a CRLF between each two, is the block, and hold none |
| MultipartHeaders.HeadersWhen | packages/core/multipart.ts:136-151 | headers are accepted exactly when no transfer encoding but binary is among them, and give the last disposition and type, names in any case, white space around names and values taken off |
| MultipartHeaders.FirstParameterWhen | packages/core/multipart.ts:90-95 | a parameter is the first spelled at the start or after a semicolon: blanks, name in any case, blanks, equals sign, blanks, a quoted value or all up to a semicolon |
| MultipartHeaders.DescribesWhen | packages/core/multipart.ts:136-166 | a part's headers give a name, file name and type exactly when the block describes them so |
| MultipartRoundTrip.NameReads | packages/core/multipart.ts:90-95 | the name is the first parameter of that key |
| MultipartRoundTrip.FilenameReads | packages/core/multipart.ts:90-95 | and the filename is found after it, or not at all |
| MultipartRoundTrip.DelimiterFound | packages/core/multipart.ts:129-134 | the first delimiter after a content is its own, and the CRLF before that is not content |
| MultipartRoundTrip.ParsePrint | packages/core/multipart.ts:97-176 | parsing a printed body gives its parts when there are one to sixteen, and the error for none or more otherwise, with any contents short of the delimiter, preamble and epilogue |
| MultipartRoundTrip.ParsePrintExact | packages/core/multipart.ts:97-176 | exactly the parts if and only if there are one to sixteen and no filename is empty |
| MultipartRoundTrip.EmptyFilename | packages/core/multipart.ts:159-165 | a printed part with an empty filename comes back with none |
| MultipartRoundTrip.AcceptedWhen | packages/core/multipart.ts:97-176 | a body gives these parts exactly when there are one to sixteen and they are framed one after another: each between two delimiters, its headers, which describe it, up to the blank line, its content from there up to the next delimiter or the CRLF before that |
| MultipartRoundTrip.AcceptedIsSound | packages/core/multipart.ts:97-176 | any accepted body gives one to sixteen named parts at places where each content fills what lies between its blank line and the next delimiter, and holds no delimiter |
| HashingGate.Gate.constructor | packages/core/passwords.ts:117-118 | the gate starts with no permit held and nobody waiting |
| HashingGate.Gate.Enter | packages/core/passwords.ts:120-140 | a caller runs, waits or is refused |
| HashingGate.Gate.Leave | packages/core/passwords.ts:142-153 | the permit goes to the first that waits, and the count is unchanged by that |
| HashingGate.Reachable | packages/core/passwords.ts:117-154 | in every interleaving those granted and then those waiting are those accepted in order; permits held are `active` and within the limit; the queue is nonempty only at capacity and never over 64 |
| HashingGate.RefusedWhenFull | packages/core/passwords.ts:121-122 | a caller is refused exactly when every permit is held and the queue is full |
| HashingGate.RunDrains | packages/core/passwords.ts:142-153 | every step but an arrival takes one off what remains |
| HashingGate.DrainsToZero | packages/core/passwords.ts:142-153 | without arrivals every schedule ends with all accepted callers granted in order and finished and every permit free, and until then some step can be taken |
| Base32.PushKeeps | packages/core/totp.ts:53-54 | shifting into a 32-bit word keeps the bits not yet taken, though higher ones are lost |
| Base32.TakeReads | packages/core/totp.ts:55-58 | the unsigned shift and mask read the first of them |
| Base32.Base32Encode | packages/core/totp.ts:48-62 | five bits to a letter, the last padded with zeros |
| Base32.Base32Decode | packages/core/totp.ts:64-84 | eight bits to a byte, the rest dropped, and an error on any other character |
| Base32.DecodeEncode | packages/core/totp.ts:48-84 | decoding undoes encoding for every byte sequence |
| Base32.DecodeRetyped | packages/core/totp.ts:64-69 | also after any sequence of lower-casing, inserted whitespace and appended padding |
| Base32.SpaceInserted | packages/core/totp.ts:65-69 | whitespace anywhere in any text makes no difference |
| Base32Vectors.TypedSpaces | packages/core/totp.ts:65-69 | blanks, tabs and line ends are whitespace; letters, digits and = are not |
| Base32Vectors.AlphabetIs | packages/core/totp.ts:46-62 | the letters are A to Z and then 2 to 7 |
| Base32Vectors.VectorFo | packages/core/totp.ts:48-62 | a vector of section 10 of RFC 4648 |
| Base32.EncodeDecode | packages/core/totp.ts:70-83 | encoding undoes decoding exactly when fewer than five bits are left over, all zero |
| Base32.LeftoverBits | packages/core/totp.ts:70-83 | `AB` decodes to a zero byte, whose encoding is another text |
| EgressSpelling.SpellingReads | packages/core/egress.ts:179-200 | every spelling of eight words, in any case, with leading zeros, one gap or a dotted tail, reads as those words |
| EgressSpelling.ReadsOnlySpellings | packages/core/egress.ts:179-200 | any text reads as eight words with no quad glued to a group exactly when it is a spelling of those words |
| EgressSpelling.DottedSpelling | packages/core/egress.ts:183-189 | a text with a quad that is read is a spelling of what it reads as exactly when a colon stands before the quad |
| EgressSpelling.GluedQuad | packages/core/egress.ts:183-189 | `::a1.2.3.4` is read and no spelling renders it |
| EgressRanges.TableV4 | packages/core/egress.ts:135-156 | the IPv4 table refuses exactly the special-purpose addresses, octet by octet |
| EgressRanges.TableV6 | packages/core/egress.ts:158-176 | the IPv6 table, word by word |
| EgressRanges.FirstRowsReached | packages/core/egress.ts:161-162 | of the table's first two rows only the unspecified address and loopback are ever reached |
| EgressRanges.VerdictOfWords | packages/core/egress.ts:115-130 | every spelling of an address gets the verdict of its words |
| EgressRanges.EmbeddedVerdict | packages/core/egress.ts:203-215 | every spelling of a mapped, compatible, NAT64 or 6to4 address gets exactly the verdict of the IPv4 address in it |

## Left out

- The text of a payload is its UTF-8 bytes (`TextEncoder` is not part of this model); `qrSvg` only draws.
- Some loops of `encodeData`, `placeFormat`, `penalty`, `parse` and `parseMultipart` are methods of their own; nothing is left out by that.
- ZipFormat.WriteSkillZip: takes the files in an order already chosen, because the sort of paths before it is left out; `ZipRoundTrip.RoundTrip` holds for every order.
- ZipRoundTrip.ProtoFileLost: is about writer and reader alone, because `checkSkill` drops such a key before a folder is written.
- A file's path and content are their UTF-8 bytes, so a path's length is not counted in UTF-16 units. Of `checkSkill` the path rules and the size limits are modelled; the need for a SKILL.md, its frontmatter and the refusal of NUL are left out, and so is its own loss of a `__proto__` key, so the results about folders range over more folders than it passes.
- Writing a number too large for its field is an error of the writer, not a particular exception; errors of the reader do not carry their text.
- CRC-32, inflation and UTF-8 validity are parameters of the archive's reader and writer, about which nothing is assumed.
- COSE keys as JWKs, client data and signature checks are library calls over what is decoded here.
- Resp.ParseReply: a bulk length or array count is digits (or nothing, which is 0) or -1, because what `Number` makes of other texts is left out; the parse is then `Malformed`.
- RedisClient.Redis.DrainBuffer: stops at such a length, where the loop of the code goes on (and a negative length may move its position back, so that it need not end); `RedisRun.ServedInOrder` has no such length in it, because a server prints none (`RedisRun.NeverMalformed`).
- The value of an integer reply is its digits, and replies are bytes: `Number` and lossy UTF-8 decoding are not applied.
- RedisClient.Redis.OnData: one socket's events; late events of a socket already replaced, the connect deadline, AUTH, SELECT and the single retry of `command` are left out.
- Header text is its bytes: JavaScript's `trim`, `\s` and case folding outside ASCII are left out, and so is the reading of the boundary from the content type.
- The gate's limit is a parameter of at least one; where it comes from in the environment is left out, and so is the hashing itself.
- Base32.Base32Decode: upper-casing outside ASCII is a parameter, taken character by character.
- The prefix matcher is modelled on words; that the runtime reads the same words from a text is a hypothesis of the verdicts. The endpoint check around them, with its DNS lookups, is left out.
- Postgres, Qdrant, object storage, permissions, search, HTTP, TOTP codes and the console are left out.
