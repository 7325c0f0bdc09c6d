# Verified models of five components

This project models, in Dafny, the parts of the repository that carry state or encode data, and proves what they are
for:

* the QR encoder with its GIF, LZW, base64 and UTF-8 back ends (`ui/qrcode-generator.js`);
* the append-only star ledger (`bridge/src/star_ledger.rs`);
* the auto-ban ledger (`bridge/src/genital_ban.rs`);
* partner selection of the match protocol (`ui/protocol.js`);
* the sliding-window client limiter (`bridge/src/limits.rs`).

`dafny verify dfyconfig.toml` checks everything.

## How it is organised

Objects that the source updates in place are classes with the same fields, loops are loops, and every method is proved
against a function on values. The main results are about those functions, over all inputs or all runs.

**QR encoder.** `Bits`, `BitBuffer`, `Segments` and `CodewordStream` cover the bit stream up to the padding (ISO/IEC
18004:2015, section 7.4). `Gf256`, `QrMath`, `Polynomial`, `RsGenerator`, `ReedSolomon` and `RsDivision` cover error
correction (section 7.5.2): the field with its log tables, the generator and why none of its coefficients is zero up to
degree 254, and the error correction bytes as the only ones that make a block a multiple of the generator. `RsDistance`
shows what they are for: any errors in up to half as many bytes leave only one choice of data. `Interleave` covers
section 7.6, `Matrix` and `QrMatrix` placement and masking (sections 7.7 and 7.8), `Bch` the format and version words
(sections 7.9 and 7.10). What a reader that shares nothing with the encoder finds is stated apart: `StreamFormat` says
bit by bit what the stream holds, `Masks` what each mask flips, `Patterns` what a scanner sees in every finished symbol,
and `GifFormat` what a GIF reader finds in a file and what colour every pixel has. `QrCode` defines a reader of whole
symbols; `QrEncoder` is the encoder object. `LsbBits`, `Lzw`, `LzwEnd`, `LzwEncoder` and `Gif` cover the raster data and
its file, `Base64` and `Utf8` the two codecs, `DataUrl` and `SymbolUrl` put everything together. `Capacity` counts the
modules that function patterns leave free, and `RsTable` holds the block table; `Standard` shows that every row of the
table fits its symbol. `Standard.Encode` is the end: whatever the encoder accepts, at any version and level, a reader
which decodes base64, reads the GIF, decompresses LZW, looks at one pixel of every module, reads the format bits,
unmasks along the zig-zag, de-interleaves and parses gets back exactly the segments that went in.

**Star ledger.** `StarEvents` is an event, its payload, its effect, and the replay of a log; `StarChain` the hash chain;
`StarSpec` the operations on values; `StarLedger` the object. `StarRuns` keeps one invariant over all runs of mints,
adjustments, spends, clawbacks and reloads, and `StarTheorems` reads the guarantees off it. `StarTransfers` says whom
each operation pays, charges or refuses. `Text` and `Order` are the string operations and the string order that the
ledgers use.

**Ban ledger and limiter.** `SlidingWindow` is the shared queue idea, once with a strict and once with a non-strict
boundary. `BanSpec` and `BanLedger` are the ledger on values and in place; `BanRuns` carries the history of accepted
hits beside the state, `BanTheorems` has the quotas, `BanEvidence` what a ban rests on, `BanDecisions` when exactly a
hit bans over all runs, `BanBook` what the book stands for, `BanRestarts` what a restart does to the quotas, `BanLadder`
the escalation, and `BanPeople` whom a level takes. `Limits` is the client limiter.

**Partner selection.** `Selection` treats one snapshot of the lobby: mutual choices form a matching, and one exists.
`Sessions` says which claims share a session id.

## Where the code and its promises part

* A log line that fails verification ends the replay, but later events are still appended behind it. They are lost on
  the next load: `StarTheorems.AppendSurvivesReloadIffIntact`.
* The hash payload joins fields with `|` and does not escape it. An event is fixed by its hash exactly when its text
  fields are free of `|` (`StarChain.HashDeterminesIffBarFree`), and an intact log is the only one with its tip exactly
  when all its events are (`StarChain.TipDeterminesIffBarFree`).
* The header of the ledger says that trust comes from rate gifts only. The code also raises it for reasons that start
  with `admin:trust` or `gift:` (`StarTransfers.TrustReasonIff`).
* The parts of a session id are hashed without a separator. Ids and seeds of one length each, as `randomId` and
  `randomSeed` make them, make that safe (`Sessions.JoinedSessionsDiffer`), ids of different lengths do not
  (`Sessions.LengthsMatter`).
* The hourly rate and the daily ban caps live in memory only, so they hold within one boot of the hub. When a hit is
  refused or capped is stated exactly, over all runs, in `BanTheorems.RefusedIff` and `BanTheorems.CappedIff`: only the
  history of the current boot counts. `BanRestarts` has the runs that break both: with a restart in between, eleven hits
  of one reporter are accepted at one instant (`RestartBreaksRate`), and one reporter is behind four session-path bans
  at one instant (`RestartBreaksCap`). The offense book, and with it the ladder, survives restarts.
* `record` compares the time stamps inside hits with the current time, not with each other. That a session-path ban
  rests on two hits stamped two seconds apart is kept, over all runs, exactly for hits that are not stamped back, or
  that are stamped back so far that no fresh hit is close to them (`BanEvidence.RunsKeepGapIff`; for the session
  condition alone, `BanEvidence.GapIsKeptIff`): two hits one millisecond apart, recorded at the same instant, can ban
  (`BanEvidence.MillisecondApartBans`). The hub's one call (`bridge/src/simple.rs:8715-8725`) stamps hits with the
  current time, where the gap holds. The earlier hit is always unspent, fresh and of the same reporter in the same
  session (`BanEvidence.SessionBanRestsOnTwoHits`), but nothing checks the age of the hit that bans: both are under 30
  minutes old exactly when its own stamp is (`BanEvidence.RunsKeepFreshIff`).
* The header says that one person can never push anyone past 24 hours. One cluster cannot
  (`BanLadder.LevelNeedsClusters`), and a level takes as many people as long as no reporter of the target changes
  clusters (`BanPeople.LevelNeedsPeople`). The cluster key follows the current address
  (`bridge/src/simple.rs:3591-3605`), and one person seen from three networks bans a target permanently within ten
  seconds (`BanPeople.OnePersonClimbs`).
* `toUTF8Array` joins any surrogate with the unit after it. Its output is always well formed, and it decodes to the
  input exactly when the surrogates of the input are properly paired: `Utf8.RoundTripIffWellPaired`.
* The LZW end code is one bit narrower than a decoder expects when the table has just filled its code width. Zero
  padding hides this at every size of the table but one: the end code is lost exactly after eleven data codes
  (`LzwEnd.EndIsLostIff`), which cover at most 66 pixels (`LzwEnd.LostIsSmall`, and 66 is reached:
  `LzwEnd.MostLostIsLost`). Pictures of symbols are larger, so none of them loses its end code
  (`SymbolUrl.PictureRoundTrip`); the pixels are decoded in every case (`Lzw.RasterRoundTrip`).
* `addData` takes the low byte of every code unit, so the bytes of a symbol hold the text exactly when it has no code
  unit beyond the first 256: `QrEncoder.LowBytesHoldTextIff`. The UTF-8 encoder in the same file is not the default.
* Generator polynomials of degree 255 have a zero coefficient (`RsGenerator.GeneratorBoundIsSharp`), so the log tables
  support all degrees up to n exactly when n is at most 254: `ReedSolomon.LogsExistIff`.

## Model

| member | source | states |
|---|---|---|
| `Gf256.EveryNonzeroIsExp` | ui/qrcode-generator.js:1132-1176 | every nonzero field element is a power of x below the 255th, so every one has a logarithm |
| `Gf256.ExpIsOneOnlyAtPeriod` | ui/qrcode-generator.js:1132-1176 | the order of x is exactly 255 |
| `Gf256.ExpInjective` | ui/qrcode-generator.js:1147-1149 | powers below the 255th are distinct, so no entry of the log table is overwritten |
| `Gf256.MulAssoc` | ui/qrcode-generator.js:1210-1221 | multiplication by adding logarithms is associative |
| `Gf256.MulPlus` | ui/qrcode-generator.js:1210-1221 | and distributes over exclusive or: the tables really compute in a field |
| `Gf256.MulIsZeroIff` | ui/qrcode-generator.js:1210-1221 | and has no zero divisors |
| `QrMath.ExpRecurrence` | ui/qrcode-generator.js:1141-1146 | the four-term recurrence that fills the antilog table is multiplication by x in the field |
| `QrMath.FillExp` | ui/qrcode-generator.js:1138-1146 | after the two loops, entry i of the antilog table is the i-th power of x |
| `QrMath.FillLog` | ui/qrcode-generator.js:1147-1149 | the log table is the inverse of the antilog table |
| `QrMath.QRMath.constructor` | ui/qrcode-generator.js:1132-1149 | the object starts with both tables right |
| `QrMath.QRMath.Glog` | ui/qrcode-generator.js:1153-1160 | the exponent of a nonzero element |
| `QrMath.QRMath.Gexp` | ui/qrcode-generator.js:1162-1173 | for any integer exponent, negative ones included, the power with the exponent taken modulo 255 |
| `Polynomial.EvalProduct` | ui/qrcode-generator.js:1210-1221 | polynomial multiplication as the code does it multiplies values at every point |
| `RsGenerator.GeneratorRoots` | ui/qrcode-generator.js:966-972 | the generator of degree n vanishes at the first n powers of x |
| `RsGenerator.NeighbourRatio` | ui/qrcode-generator.js:966-972 | neighbouring generator coefficients stand in a fixed ratio of Gaussian type, for every degree |
| `RsGenerator.GeneratorNonzero` | ui/qrcode-generator.js:1223-1241 | no coefficient of a generator of degree up to 254 is zero, so no division step asks for the logarithm of zero |
| `RsGenerator.GeneratorBoundIsSharp` | ui/qrcode-generator.js:1153-1160 | at degree 255 a coefficient is zero and the logarithm would throw |
| `ReedSolomon.QrPolynomial` | ui/qrcode-generator.js:1182-1200 | leading zeros dropped, trailing zeros (array holes) added |
| `ReedSolomon.Multiply` | ui/qrcode-generator.js:1210-1221 | the loop over logarithms computes the polynomial product |
| `ReedSolomon.Mod` | ui/qrcode-generator.js:1223-1241 | the recursive division terminates and computes the remainder, for any divisor without zero coefficients |
| `ReedSolomon.GetErrorCorrectPolynomial` | ui/qrcode-generator.js:966-972 | the loop computes the generator of every degree up to 255 |
| `ReedSolomon.LogsExistIff` | ui/qrcode-generator.js:966-972 | all generators up to a degree have logarithms for all coefficients exactly when that degree is at most 254 |
| `ReedSolomon.ErrorCorrection` | ui/qrcode-generator.js:292-300 | the error correction bytes of a block, remainder padded on the left to full length |
| `ReedSolomon.RemainderKeepsRoots` | ui/qrcode-generator.js:1223-1241 | division is shorter than the divisor and keeps the value at every root of the divisor |
| `ReedSolomon.BlockVanishes` | ui/qrcode-generator.js:267-301 | every block followed by its error correction bytes vanishes at every root of the generator |
| `ReedSolomon.FactorTheorem` | ui/qrcode-generator.js:1182-1245 | dividing a polynomial by a linear factor leaves its value at the root |
| `ReedSolomon.OnlyZeroVanishes` | ui/qrcode-generator.js:1182-1245 | a polynomial with n coefficients that vanishes at n powers of x is zero |
| `ReedSolomon.EcBytesUnique` | ui/qrcode-generator.js:267-301 | no other bytes make the block vanish at all the roots |
| `RsDivision.DividedTimesGenerator` | ui/qrcode-generator.js:267-301 | whatever vanishes at the roots is a multiple of the generator, at every point |
| `RsDivision.BlockIsMultiple` | ui/qrcode-generator.js:267-301 | a block with its error correction bytes is the product of the generator and a quotient |
| `RsDistance.LightVanishingIsZero` | ui/qrcode-generator.js:267-301 | a polynomial with at most as many nonzero coefficients as roots among the first powers of x is zero |
| `RsDistance.BlocksAreFarApart` | ui/qrcode-generator.js:267-301 | blocks with different data differ in more bytes than there are error correction bytes |
| `RsDistance.ErrorsAreCorrectable` | ui/qrcode-generator.js:267-301 | up to half as many errors as error correction bytes, anywhere in a block, leave one choice of data |
| `BitBuffer.QrBitBuffer.constructor` | ui/qrcode-generator.js:1560-1569 | an empty buffer |
| `BitBuffer.QrBitBuffer.GetAt` | ui/qrcode-generator.js:1571-1574 | reads back the bit that was put at that position |
| `BitBuffer.QrBitBuffer.PutBit` | ui/qrcode-generator.js:1586-1598 | appends one bit and keeps the unused low bits zero |
| `BitBuffer.QrBitBuffer.Put` | ui/qrcode-generator.js:1576-1580 | appends a number most significant bit first |
| `Bits.BytesToBitsInjective` | ui/qrcode-generator.js:1560-1601 | different buffers hold different bits |
| `Bits.PackRoundTrip` | ui/qrcode-generator.js:1560-1601 | whole bytes of bits packed and unpacked again |
| `Segments.ToNumber` | ui/qrcode-generator.js:1642-1657 | the value of a digit string; fails exactly on a non-digit |
| `Segments.WriteNumber` | ui/qrcode-generator.js:1622-1640 | appends the groups of three digits and the tail; fails exactly on a non-digit |
| `Segments.WriteAlphaNum` | ui/qrcode-generator.js:1679-1719 | appends the pairs and the tail; fails exactly on a character outside the set of 45 |
| `Segments.WriteBytes` | ui/qrcode-generator.js:1743-1747 | appends the bytes |
| `CodewordStream.WriteBody` | ui/qrcode-generator.js:342 | appends the body of a segment of any kind; fails exactly on an illegal one |
| `Segments.NumericRoundTrip` | ui/qrcode-generator.js:1607-1658 | digits are decoded from their bits and their count, leading zeros and short tails included |
| `Segments.AlphaRoundTrip` | ui/qrcode-generator.js:1664-1721 | so are alphanumeric strings |
| `Segments.ByteRoundTrip` | ui/qrcode-generator.js:1727-1750 | and bytes |
| `Segments.NumericLength` | ui/qrcode-generator.js:1622-1640 | the number of bits depends on the count of digits alone, as section 7.4.3 says |
| `Segments.AlphaLength` | ui/qrcode-generator.js:1679-1695 | the number of bits depends on the count of characters alone, as section 7.4.4 says |
| `Segments.SegmentRoundTrip` | ui/qrcode-generator.js:332-343 | mode, count and body of any legal segment whose count fits its field are read back, whatever follows |
| `StreamFormat.SegmentLength` | ui/qrcode-generator.js:332-343 | the length of a whole segment in closed form, for every mode and class of versions: mode, count and body |
| `StreamFormat.ModeIndicator` | ui/qrcode-generator.js:340 | a segment starts with 0001, 0010 or 0100 for digits, alphanumeric characters or bytes |
| `StreamFormat.CountField` | ui/qrcode-generator.js:341 | the field behind the mode holds the count of characters or bytes, as wide as the version asks |
| `StreamFormat.NumericGroup` | ui/qrcode-generator.js:1622-1640 | the k-th ten bits of digits are the number of the k-th three digits |
| `StreamFormat.NumericTail` | ui/qrcode-generator.js:1622-1640 | one digit left over takes four bits, two take seven |
| `StreamFormat.CodesOfAlphabet` | ui/qrcode-generator.js:1697-1719 | the code of a character is its place in the table of 45, and others have none |
| `StreamFormat.AlphaPair` | ui/qrcode-generator.js:1679-1695 | the k-th eleven bits are 45 times the code of a character and the code of the next |
| `StreamFormat.AlphaTail` | ui/qrcode-generator.js:1679-1695 | one character left over takes six bits |
| `StreamFormat.ByteAt` | ui/qrcode-generator.js:1743-1747 | the k-th eight bits are the k-th byte |
| `CodewordStream.WriteSegments` | ui/qrcode-generator.js:338-343 | the bits of all segments in order; fails exactly when a segment has an illegal character |
| `CodewordStream.PadToBoundary` | ui/qrcode-generator.js:364-367 | zero bits up to the byte boundary and no more |
| `CodewordStream.PadWithBytes` | ui/qrcode-generator.js:369-381 | alternating pad bytes, starting with EC, up to exactly the capacity |
| `CodewordStream.WritePadding` | ui/qrcode-generator.js:359-381 | terminator if it fits, boundary, pad bytes: the buffer ends at exactly eight bits per data codeword |
| `CodewordStream.FillBuffer` | ui/qrcode-generator.js:332-381 | the stream of the standard, or the overflow error exactly when the segments do not fit |
| `CodewordStream.StreamRoundTrip` | ui/qrcode-generator.js:332-384 | parsing the whole stream gives exactly the segments: terminator and padding are never taken for one |
| `StreamFormat.StreamLayout` | ui/qrcode-generator.js:359-381 | behind the segments come zero bits up to a byte boundary, four at least when there is room |
| `StreamFormat.PadCodeword` | ui/qrcode-generator.js:369-381 | and then EC and 11 in turn, up to the capacity |
| `Interleave.OffsetInjective` | ui/qrcode-generator.js:308-325 | no two bytes of any mix of blocks go to the same place |
| `Interleave.DeinterleaveInverts` | ui/qrcode-generator.js:308-325 | the blocks are recovered from the interleaved codewords, whatever follows |
| `Interleave.InterleavedLength` | ui/qrcode-generator.js:303-325 | every byte of every block is placed, and nothing else |
| `Interleave.CodewordsRoundTrip` | ui/qrcode-generator.js:267-330 | the data is recovered from the codewords of a symbol |
| `Interleave.OffsetOrder` | ui/qrcode-generator.js:308-325 | bytes with a lower index come first, and among those with one index the byte of the earlier block |
| `Interleave.CodewordsAt` | ui/qrcode-generator.js:267-330 | where every data byte and every error correction byte of every block stands in the symbol: data first |
| `Interleave.WriteRow` | ui/qrcode-generator.js:311-316 | the inner loop writes the bytes with one index, skipping blocks that are too short |
| `Interleave.WriteInterleaved` | ui/qrcode-generator.js:310-326 | the nested loops fill the next part of the array with the interleaved blocks and touch nothing before it |
| `Interleave.SplitBlocks` | ui/qrcode-generator.js:276-301 | consecutive slices of the buffer and the error correction of each |
| `Interleave.CreateBytes` | ui/qrcode-generator.js:267-330 | interleaved data followed by interleaved error correction, for every list of blocks |
| `Bch.GetBchDigit` | ui/qrcode-generator.js:911-918 | one more than the degree of the polynomial |
| `Bch.GetBchTypeInfo` | ui/qrcode-generator.js:920-926 | the loop terminates; unmasked, the word starts with the data and is a multiple of the generator |
| `Bch.GetBchTypeNumber` | ui/qrcode-generator.js:928-934 | the same for the version word |
| `Bch.WordsAreUnique` | ui/qrcode-generator.js:920-934 | the data leaves no choice of word |
| `Bch.FormatReads` | ui/qrcode-generator.js:179-214 | the bits of a masked format word show a reader the data the word was made for |
| `Bch.FormatParts` | ui/qrcode-generator.js:181 | and that data is the level and the mask |
| `Bch.NumberReads` | ui/qrcode-generator.js:164-177 | the bits of a version word show a reader the version |
| `Bch.FormatWordsAreFarApart` | ui/qrcode-generator.js:920-926 | masked format words of different data differ in at least seven bits |
| `Bch.VersionWordsAreFarApart` | ui/qrcode-generator.js:928-934 | version words of different versions differ in at least eight bits |
| `Bch.FormatExample` | ui/qrcode-generator.js:920-926 | the one word of level M and mask 5 is the one the standard prints (Annex C) |
| `Bch.FormatBitsExample` | ui/qrcode-generator.js:188 | the bits of that word in the order in which they are placed |
| `Bch.VersionExample` | ui/qrcode-generator.js:928-934 | the one word of version 7 is the one the standard prints (Annex D) |
| `Matrix.PathVisitsAll` | ui/qrcode-generator.js:216-265 | the zig-zag visits every module outside column 6 exactly once |
| `Matrix.PlaceSets` | ui/qrcode-generator.js:216-265 | placement changes no set module, sets every other one on the path, and the j-th of them holds the j-th masked bit, zero past the data |
| `Matrix.MappedReads` | ui/qrcode-generator.js:216-265 | unmasking along the path gives the data bits followed by zeros |
| `Matrix.ColumnSixIsFull` | ui/qrcode-generator.js:75-131 | column 6, which the zig-zag skips, is full before data is placed, for every version |
| `Matrix.NothingLeftUnset` | ui/qrcode-generator.js:43-73 | a finished symbol has no module left null |
| `Matrix.FunctionCellsAreFixed` | ui/qrcode-generator.js:75-214 | which modules are function modules depends on the version alone, not on format bits or the test flag |
| `Matrix.TypeBitsStay` | ui/qrcode-generator.js:179-214 | neither copy of the format bits is overwritten by anything set up later, and the copies agree |
| `Matrix.NumberBitsStay` | ui/qrcode-generator.js:164-177 | both copies of the version bits are there and agree, from version 7 on |
| `Masks.Mask0` | ui/qrcode-generator.js:943-944 | mask 0 flips a checkerboard, its corner included |
| `Masks.Mask1` | ui/qrcode-generator.js:945-946 | mask 1 flips every second row |
| `Masks.Mask2` | ui/qrcode-generator.js:947-948 | mask 2 flips every third column |
| `Masks.Mask3` | ui/qrcode-generator.js:949-950 | mask 3 flips every third antidiagonal |
| `Masks.Mask4` | ui/qrcode-generator.js:951-952 | mask 4 flips a checkerboard of blocks of two rows and three columns |
| `Masks.Mask5` | ui/qrcode-generator.js:953-954 | mask 5 flips where 6 divides the product of row and column |
| `Masks.Mask6` | ui/qrcode-generator.js:955-956 | mask 6 flips where that product is 0, 1 or 2 modulo 6 |
| `Masks.Mask7` | ui/qrcode-generator.js:957-958 | mask 7 flips where the product is 1 modulo 3 exactly when row and column differ in parity |
| `Masks.FlippedExactlyThere` | ui/qrcode-generator.js:234-247 | a data module differs from its data bit exactly where the mask flips |
| `Patterns.FinderIsDrawn` | ui/qrcode-generator.js:70-94 | in every finished symbol the three finder patterns are whole: dark square, light ring, dark ring, light separator |
| `Patterns.AlignmentIsDrawn` | ui/qrcode-generator.js:133-162 | so are the alignment patterns, at every pair of positions that no finder pattern covers |
| `Patterns.TimingIsDrawn` | ui/qrcode-generator.js:116-131 | both timing lines are dark and light in turn without a break, also under alignment patterns |
| `Patterns.DarkModule` | ui/qrcode-generator.js:212-213 | the fixed module of every finished symbol is dark |
| `Patterns.TableIsWide` | ui/qrcode-generator.js:863-904 | the number of positions of every version, all even, with equal gaps after the first |
| `Patterns.FormatColumnIs` | ui/qrcode-generator.js:184-196 | the first copy of the format bits runs down column 8, past the timing line, and on at the bottom |
| `Patterns.FormatLineIs` | ui/qrcode-generator.js:198-210 | the second copy runs along row 8 from right to left, past the timing line |
| `Patterns.VersionBlockIs` | ui/qrcode-generator.js:164-177 | the version bits fill a block row by row and its mirror image column by column |
| `Patterns.PathGoesUpAndDown` | ui/qrcode-generator.js:216-265 | where the zig-zag is at every step: up and down in turn, right module first, past column 6 |
| `QrMatrix.EmptyModules` | ui/qrcode-generator.js:46-55 | a matrix of nulls |
| `QrMatrix.TablePositions` | ui/qrcode-generator.js:863-904 | every alignment pattern of the table lies inside its symbol |
| `QrMatrix.QrModules.SetupPositionProbePattern` | ui/qrcode-generator.js:75-94 | adds a probe with its separator, clipped at the edges |
| `QrMatrix.QrModules.SetupPositionAdjustPattern` | ui/qrcode-generator.js:133-162 | adds the alignment patterns in order, skipping those whose centre is set |
| `QrMatrix.QrModules.SetupOneAdjustPattern` | ui/qrcode-generator.js:141-159 | adds one alignment pattern, unless its centre is set |
| `QrMatrix.QrModules.SetupTimingPattern` | ui/qrcode-generator.js:116-131 | adds the dashed lines and keeps what is set |
| `QrMatrix.QrModules.SetupTypeNumber` | ui/qrcode-generator.js:164-177 | adds both copies of the version bits |
| `QrMatrix.QrModules.SetupTypeInfo` | ui/qrcode-generator.js:179-214 | adds both copies of the format bits and the fixed module |
| `QrMatrix.BitOfData` | ui/qrcode-generator.js:234-238 | the next data bit by byte and bit index, false past the end |
| `QrMatrix.QrModules.MapModule` | ui/qrcode-generator.js:232-253 | a set module stays and the bit waits; an unset one gets the next masked bit, and the position moves on |
| `QrMatrix.QrModules.MapRow` | ui/qrcode-generator.js:230-254 | the two modules of a row of a column pair hold the next masked bits, right one first, and as many bits are used as were unset |
| `QrMatrix.QrModules.MapData` | ui/qrcode-generator.js:216-265 | the loops terminate and place the data along the zig-zag, for every odd size from 21 up |
| `QrCode.SymbolRoundTrip` | ui/qrcode-generator.js:43-73 | for every version, level and mask, a reader gets exactly the segments out of the symbol, reading level and mask from the format bits |
| `QrCode.FormatIsRead` | ui/qrcode-generator.js:179-214 | both copies of the format bits of a finished symbol are the ones that were put in |
| `QrCode.VersionIsRead` | ui/qrcode-generator.js:164-177 | both copies of the version bits of a finished symbol are the ones that were put in |
| `QrCode.SymbolNamesVersion` | ui/qrcode-generator.js:43-73 | every finished symbol names its version, by its size and, from version 7 on, by its version bits |
| `QrEncoder.CreateData` | ui/qrcode-generator.js:332-384 | the codewords of the segments; each of the two errors exactly in its case |
| `QrEncoder.FirstVersion` | ui/qrcode-generator.js:424-451 | the chosen version holds the data unless it is 40, and no smaller one does |
| `QrEncoder.SetupProbes` | ui/qrcode-generator.js:57-59 | three probes on an empty matrix |
| `QrEncoder.FormatWord` | ui/qrcode-generator.js:181-182 | the format word of a level and a mask |
| `QrEncoder.VersionWord` | ui/qrcode-generator.js:166 | the version word |
| `QrEncoder.FunctionModules` | ui/qrcode-generator.js:43-67 | the function patterns of a symbol, with the format and version words the standard fixes |
| `QrEncoder.Qrcode.AddData` | ui/qrcode-generator.js:386-412 | appends the segment of the mode; throws exactly on a mode that has none, Kanji included, and then adds nothing |
| `QrEncoder.ModesMake` | ui/qrcode-generator.js:386-407 | which mode makes which segment: the characters of the string, or the low bytes of its code units |
| `QrEncoder.Qrcode.AddSegment` | ui/qrcode-generator.js:409-410 | appends a segment and drops the cached codewords |
| `QrEncoder.StringToBytes` | ui/qrcode-generator.js:737-748 | the low byte of every code unit |
| `QrEncoder.LowBytesHoldTextIff` | ui/qrcode-generator.js:737-748 | the bytes hold the text exactly when no code unit is beyond the first 256 |
| `QrEncoder.Qrcode.MakeImpl` | ui/qrcode-generator.js:43-73 | the symbol of the current data; a cached result is always the right one |
| `QrEncoder.Qrcode.GetBestMaskPattern` | ui/qrcode-generator.js:96-114 | the mask with the least penalty among the eight test symbols, the first on a tie |
| `QrEncoder.Qrcode.ChooseVersion` | ui/qrcode-generator.js:424-451 | the smallest version that holds the data, or 40 |
| `QrEncoder.Qrcode.Make` | ui/qrcode-generator.js:424-455 | either the error that applies, or a full symbol from which exactly the added data is read back |
| `LsbBits.BitOutputStream.Write` | ui/qrcode-generator.js:2100-2116 | appends a number least significant bit first; throws exactly when it is too wide |
| `LsbBits.BitOutputStream.Flush` | ui/qrcode-generator.js:2118-2122 | writes the rest, filled with zero bits to a byte |
| `LsbBits.ByteBitAt` | ui/qrcode-generator.js:2092-2125 | the first of eight written bits is the lowest of its byte, the last the highest |
| `Lzw.CodeIsData` | ui/qrcode-generator.js:2127-2187 | every code fits the current width and is neither the clear nor the end code |
| `Lzw.MeaningIsEntry` | ui/qrcode-generator.js:2153-2179 | a decoder one entry behind understands every code, also one used right after it was added |
| `Lzw.WidthsAgree` | ui/qrcode-generator.js:2166-2175 | encoder and decoder change width together, also once the table stops growing |
| `Lzw.EncodedIsRead` | ui/qrcode-generator.js:2127-2187 | from any synchronised state the decoder recovers the rest of the pixels |
| `Lzw.RasterRoundTrip` | ui/qrcode-generator.js:2127-2187 | every nonempty image is decoded to its pixels, and to its end unless the end code is lost |
| `LzwEnd.EndIsLostIff` | ui/qrcode-generator.js:2127-2187 | the end code is lost exactly after eleven data codes, at sixteen table entries |
| `LzwEnd.LostIsSmall` | ui/qrcode-generator.js:2127-2187 | an image that loses its end code has at most 66 pixels |
| `LzwEnd.LargeRasterRoundTrip` | ui/qrcode-generator.js:2127-2187 | every image of more than 66 pixels is decoded to its pixels and its end |
| `LzwEnd.MostLostIsLost` | ui/qrcode-generator.js:2181-2186 | 66 pixels of one colour lose their end code, so the bound is the best one |
| `LzwEncoder.LzwTable.Add` | ui/qrcode-generator.js:2196-2202 | the next code for a new string; throws exactly on a known one |
| `LzwEncoder.LzwTable.Size` | ui/qrcode-generator.js:2204-2206 | how many strings have a code |
| `LzwEncoder.LzwTable.Contains` | ui/qrcode-generator.js:2212-2214 | whether a string has a code |
| `LzwEncoder.LzwTable.CodeOf` | ui/qrcode-generator.js:2208-2210 | its code |
| `LzwEncoder.SetupTable` | ui/qrcode-generator.js:2133-2141 | the six initial entries, added without a duplicate |
| `LzwEncoder.GetLzwRaster` | ui/qrcode-generator.js:2127-2187 | the packed bytes of the codes; neither of the two exceptions can happen |
| `Gif.BlocksAreRead` | ui/qrcode-generator.js:2070-2086 | the blocks are read back to the raster, at every length |
| `Gif.ByteArrayOutputStream.WriteByte` | ui/qrcode-generator.js:1832-1834 | appends the low eight bits |
| `Gif.ByteArrayOutputStream.WriteShort` | ui/qrcode-generator.js:1836-1839 | appends two bytes, low one first |
| `Gif.ByteArrayOutputStream.WriteBytes` | ui/qrcode-generator.js:1841-1847 | appends a slice of bytes unchanged; length 0 stands for the length of the array, and 0 is read past its end |
| `Gif.ByteArrayOutputStream.WriteString` | ui/qrcode-generator.js:1849-1853 | appends character codes |
| `Gif.WriteHeader` | ui/qrcode-generator.js:2026-2063 | everything before the raster |
| `Gif.WriteBlocks` | ui/qrcode-generator.js:2075-2084 | the loop cuts the raster into blocks of at most 255 bytes and never writes an empty one |
| `Gif.WriteGif` | ui/qrcode-generator.js:2024-2090 | a whole GIF file of the image |
| `Gif.GifRoundTrip` | ui/qrcode-generator.js:2024-2090 | size and pixels are read back from the file; a strict reader, which wants the end code, takes it exactly when that is not lost |
| `GifFormat.FileSays` | ui/qrcode-generator.js:2024-2090 | every field a GIF reader finds: signature, size, black and white as colours 0 and 1, one plain image, code size 2, trailer |
| `GifFormat.CodesOfSize` | ui/qrcode-generator.js:2127-2151 | the clear code, the end code, the first entries and the first width are those of code size 2 |
| `GifFormat.WidthsAreTight` | ui/qrcode-generator.js:2162-2179 | codes are read, and so written, in the least width that holds the next entry, up to twelve bits |
| `Base64.Base64EncodeOutputStream.WriteByte` | ui/qrcode-generator.js:1909-1919 | one more byte of input, whatever stale bits the buffer keeps |
| `Base64.Base64EncodeOutputStream.Flush` | ui/qrcode-generator.js:1921-1938 | the output is the encoding of RFC 4648, section 4, of all bytes written |
| `Base64.Base64DecodeInputStream.ReadNext` | ui/qrcode-generator.js:1958-1987 | one read: a byte, the end, or the exception |
| `Base64.RoundTrip` | ui/qrcode-generator.js:1949-2006 | reading encoded text gives exactly the bytes and then the end, from any stale buffer |
| `Base64.EncodeAll` | ui/qrcode-generator.js:2233-2238 | writing every byte and flushing gives the encoding of the sequence |
| `Base64.DecodeAll` | ui/qrcode-generator.js:1958-1987 | reading until the end of stream |
| `Base64.EncodeThenDecode` | ui/qrcode-generator.js:1879-2006 | the two streams together are the identity and never throw |
| `Base64.Vectors` | ui/qrcode-generator.js:1879-1940 | the test vectors of RFC 4648, section 10, and the last two characters of the alphabet |
| `DataUrl.DrawImage` | ui/qrcode-generator.js:2222-2228 | every pixel of the image is set, row by row |
| `DataUrl.SetPixel` | ui/qrcode-generator.js:2020-2022 | changes the one element of the pixel and stays in bounds |
| `DataUrl.EncodeBytes` | ui/qrcode-generator.js:2233-2238 | the base64 text of a file |
| `DataUrl.CreateDataUrl` | ui/qrcode-generator.js:2222-2241 | the prefix and the base64 text of the GIF of the image |
| `DataUrl.UrlRoundTrip` | ui/qrcode-generator.js:2222-2241 | decoding the text gives the image, exactly when its end code is not lost |
| `GifFormat.PrefixStarts` | ui/qrcode-generator.js:2240 | the text starts with data:image/ |
| `GifFormat.PrefixEnds` | ui/qrcode-generator.js:2240 | and goes on with gif;base64, |
| `SymbolUrl.PictureIsRead` | ui/qrcode-generator.js:557-575 | one pixel of every module gives the symbol back, for every cell size and margin |
| `GifFormat.ModuleIsShown` | ui/qrcode-generator.js:557-575 | every pixel of the square of a module is black for a dark module and white for a light one |
| `GifFormat.MarginIsWhite` | ui/qrcode-generator.js:557-575 | every pixel of the margin is white |
| `SymbolUrl.PictureRoundTrip` | ui/qrcode-generator.js:557-575 | the picture of every symbol is decoded to its pixels and its end, for every cell size and margin |
| `SymbolUrl.CreateSymbolUrl` | ui/qrcode-generator.js:557-575 | the data URL of the picture of a symbol, with the defaults for cell size and margin |
| `SymbolUrl.UrlShowsSymbol` | ui/qrcode-generator.js:557-575 | reading the data URL of a full symbol is reading the symbol |
| `SymbolUrl.EncodeToUrl` | ui/qrcode-generator.js:424-575 | from added data to text: the text holds exactly the data, or the error that applies |
| `Capacity.FreeAtLeast` | ui/qrcode-generator.js:216-265 | the zig-zag finds all modules free that are neither in column 6 nor function modules |
| `Capacity.AdjustSize` | ui/qrcode-generator.js:133-162 | how many modules outside column 6 the alignment patterns take at most, none of them at the three corners |
| `Capacity.FirstRowCovers` | ui/qrcode-generator.js:116-162 | the alignment patterns on row 6 are placed before the timing line and cover part of it |
| `Capacity.FunctionSize` | ui/qrcode-generator.js:75-214 | how many modules outside column 6 all function patterns take at most |
| `Capacity.TotalWeight` | ui/qrcode-generator.js:133-162 | the alignment patterns' share in closed form |
| `Capacity.TableIsSpread` | ui/qrcode-generator.js:863-904 | the positions of every version: from 6 to the far probe, apart from the probes and from each other |
| `RsTable.RowsFit` | ui/qrcode-generator.js:1253-1499 | every row of the block table is sound, and all levels of a version have the same number of codewords |
| `RsTable.CodewordsFit` | ui/qrcode-generator.js:1253-1499 | the codewords of a version fit its free modules |
| `RsTable.BlocksFit` | ui/qrcode-generator.js:1510-1551 | so do the blocks made from it, at every version and level |
| `RsTable.LevelsHoldLess` | ui/qrcode-generator.js:1253-1499 | at every version L holds more than M, M more than Q, Q more than H, and all use every codeword there is room for |
| `RsTable.BlocksAreEven` | ui/qrcode-generator.js:1253-1499 | all blocks of a symbol have equally much error correction; later ones hold as much data or one byte more |
| `RsTable.GetRsBlocks` | ui/qrcode-generator.js:1526-1551 | the nested loops expand the triples of a row in order |
| `Standard.EnoughRoom` | ui/qrcode-generator.js:216-265 | the number of free modules of every version, from below |
| `Standard.TableIsRoomy` | ui/qrcode-generator.js:216-265 | every version has a free module for every bit of its codewords, at every level |
| `Standard.CountsFit` | ui/qrcode-generator.js:974-1018 | whatever fits a symbol has counts that fit their fields |
| `Standard.EverySymbolIsRead` | ui/qrcode-generator.js:43-73 | whatever createData accepts is read back from its symbol, at every version, level and mask, by a reader given the modules alone, with no assumption on tables |
| `Standard.Encode` | ui/qrcode-generator.js:386-575 | from segments to text and back; the encoder refuses illegal characters and data that is too long, and nothing else |
| `Standard.MakeQr` | ui/qr.js:6-14 | for any text of UTF-16 code units: too long, or a symbol from which exactly its bytes are read |
| `Utf8.EncodeIsWellFormed` | ui/qrcode-generator.js:2252-2285 | the bytes are well-formed UTF-8 (RFC 3629, section 3) for every input, and decode to the repaired input |
| `Utf8.RoundTripIffWellPaired` | ui/qrcode-generator.js:2252-2285 | they decode to the input exactly when its surrogates are properly paired |
| `Utf8.ToUtf8Array` | ui/qrcode-generator.js:2252-2285 | the loop computes that encoding, across all four length classes |
| `Utf8.Examples` | ui/qrcode-generator.js:2252-2285 | the examples of RFC 3629, section 7 |
| `Text.DecRoundTrip` | bridge/src/star_ledger.rs:39-49 | a number printed in decimal is parsed back |
| `Text.JoinDetermines` | bridge/src/star_ledger.rs:706-725 | bar-free fields are fixed by the joined string, even against fields that hold bars |
| `StarEvents.TrustBurnRoundTrip` | bridge/src/star_ledger.rs:39-49 | the session field a clawback writes is parsed back to the trust it burns |
| `StarEvents.ReplayIsFoldOfIntactPrefix` | bridge/src/star_ledger.rs:359-439 | on any log, replay is the plain fold over the longest prefix that verifies |
| `StarEvents.ReplayAppend` | bridge/src/star_ledger.rs:359-439 | replaying one more line continues from the state of an intact log |
| `StarEvents.ReplayIgnoresAfterBreak` | bridge/src/star_ledger.rs:374-431 | nothing behind a broken line is ever read |
| `StarChain.PayloadDetermines` | bridge/src/star_ledger.rs:706-725 | the payload string fixes an event with bar-free fields |
| `StarChain.PayloadIs` | bridge/src/star_ledger.rs:706-725 | the order of the eleven fields in the string that is hashed |
| `StarChain.HashDeterminesIffBarFree` | bridge/src/star_ledger.rs:706-725 | under a collision-free hash, an event is the only one with its hash exactly when its fields are bar-free |
| `StarChain.IntactIsChain` | bridge/src/star_ledger.rs:359-439 | a log accepted in full is a chain of numbered, linked, hashed events ending in the tip |
| `StarChain.TipDeterminesLog` | bridge/src/star_ledger.rs:374-431 | two logs accepted in full with the same tip hold the same events |
| `StarChain.TipDeterminesIffBarFree` | bridge/src/star_ledger.rs:374-431 | an intact log is the only one with its tip exactly when all its events have bar-free fields |
| `StarLedger.ApplyEventToBalances` | bridge/src/star_ledger.rs:619-649 | the update in place matches the value model for every kind of event |
| `StarLedger.ApplyEventToTrust` | bridge/src/star_ledger.rs:651-704 | likewise for trust scores, edges and time stamps |
| `StarLedger.Ledger.LoadOrMigrate` | bridge/src/star_ledger.rs:283-357 | replay, then seeding from the legacy counts when nothing was replayed |
| `StarLedger.Ledger.ReplayFile` | bridge/src/star_ledger.rs:359-439 | the loop with its early stops is the verified replay |
| `StarLedger.Ledger.AppendEvent` | bridge/src/star_ledger.rs:558-616 | the event goes to the end of the file and into every cache |
| `StarLedger.Ledger.MintFrom` | bridge/src/star_ledger.rs:453-491 | new state and result, with the calls that record nothing |
| `StarLedger.Ledger.Adjust` | bridge/src/star_ledger.rs:494-514 | new state and result |
| `StarLedger.Ledger.Spend` | bridge/src/star_ledger.rs:517-555 | new state and result, with the duplicate and the error cases |
| `StarLedger.Ledger.Clawback` | bridge/src/star_ledger.rs:237-279 | new state and result, with the duplicate and the error cases |
| `StarTransfers.MintPays` | bridge/src/star_ledger.rs:453-491 | from any state: the receiver gains the amount and nobody else changes; trust rises by it exactly for gift reasons; a gift of another adds the edge from giver to receiver; one event is appended |
| `StarTransfers.AdjustPays` | bridge/src/star_ledger.rs:494-514 | likewise for an adjustment, which names no giver |
| `StarTransfers.SpendCharges` | bridge/src/star_ledger.rs:517-555 | a spend goes through exactly when payer, amount, operation id and balance allow it; then the payer loses the amount and nobody else changes; each refusal in its case changes nothing |
| `StarTransfers.ClawbackCharges` | bridge/src/star_ledger.rs:237-279 | when a clawback goes through, and that only its user loses balance and trust, as far as they are there |
| `StarTransfers.TrustReasonIff` | bridge/src/star_ledger.rs:26-36 | exactly which reasons raise trust, white space around them aside |
| `StarRuns.StepKeepsGood` | bridge/src/star_ledger.rs:237-616 | every operation keeps the cache equal to the replay, the accounts balanced and the operation ids single |
| `StarRuns.RunIsGood` | bridge/src/star_ledger.rs:237-616 | so does every run, reloads included |
| `StarTheorems.ReplayRefinesMemory` | bridge/src/star_ledger.rs:359-439 | after every run the log is intact and replaying it gives exactly the memory |
| `StarTheorems.StarsAreConserved` | bridge/src/star_ledger.rs:619-649 | every balance, and the sum of all, is credits minus debits of the log |
| `StarTheorems.DebitsAreCovered` | bridge/src/star_ledger.rs:619-649 | no debit of a run exceeds the balance at its point of the log, so the saturating subtraction never saturates |
| `StarTheorems.OperationIdsAreUsedOnce` | bridge/src/star_ledger.rs:517-555 | no two spends or clawbacks of a run share a nonempty operation id |
| `StarTheorems.RetryChangesNothing` | bridge/src/star_ledger.rs:517-555 | once a spend or a clawback is recorded, any later one with its operation id changes nothing |
| `StarTheorems.OperationIdsAreTrimmed` | bridge/src/star_ledger.rs:237-555 | over every run, operation ids are kept without surrounding white space |
| `StarTheorems.SpendKeepsTrust` | bridge/src/star_ledger.rs:517-555 | spending never touches trust |
| `StarTheorems.ClawbackBurns` | bridge/src/star_ledger.rs:237-279 | a clawback takes the smaller of what was asked and what is there, from one account only |
| `StarTheorems.ReloadIsIdentity` | bridge/src/star_ledger.rs:283-357 | with anything in the log, reloading changes nothing, whatever the legacy counts say |
| `StarTheorems.LegacyMattersIffNothingReplayed` | bridge/src/star_ledger.rs:283-357 | on any log, the legacy counts can matter exactly when no event replays |
| `StarTheorems.GenesisSeedsLegacyCounts` | bridge/src/star_ledger.rs:283-357 | seeding an empty ledger gives each legacy user its count and no one else anything |
| `StarTheorems.AppendSurvivesReloadIffIntact` | bridge/src/star_ledger.rs:558-616 | an appended event is there after a reload exactly when the log before it was intact |
| `SlidingWindow.Prune` | bridge/src/genital_ban.rs:157-161 | drops expired entries from the front |
| `SlidingWindow.PrunedTracks` | bridge/src/genital_ban.rs:157-161 | pruning loses only times that are out of the window for good, and leaves only live ones |
| `SlidingWindow.FullIff` | bridge/src/genital_ban.rs:157-161 | after pruning, k entries are left exactly when the k-th last push is still inside the window |
| `BanLedger.GenitalLedger.WithBook` | bridge/src/genital_ban.rs:164-166 | only the book of offenses survives a restart |
| `BanLedger.GenitalLedger.ReporterOverturnedNow` | bridge/src/genital_ban.rs:169-175 | whether an overturned offense lists the reporter |
| `BanLedger.GenitalLedger.CapReached` | bridge/src/genital_ban.rs:184-192 | whether reporter or cluster used up their daily bans |
| `BanLedger.GenitalLedger.Admit` | bridge/src/genital_ban.rs:195-205 | the rate check: an admitted hit is charged to its reporter, a refused one only prunes |
| `BanLedger.GenitalLedger.RetainFresh` | bridge/src/genital_ban.rs:207-209 | hits under 30 minutes old, in order |
| `BanLedger.GenitalLedger.CheckSession` | bridge/src/genital_ban.rs:211-226 | the session condition |
| `BanLedger.GenitalLedger.CheckCross` | bridge/src/genital_ban.rs:226-237 | the clusters with a voice, and the cross condition |
| `BanLedger.GenitalLedger.CollectUids` | bridge/src/genital_ban.rs:258-268 | the reporters behind a ban, sorted and distinct |
| `BanLedger.GenitalLedger.PushEach` | bridge/src/genital_ban.rs:273-279 | the time of the ban is pushed once for each reporter or cluster |
| `BanLedger.GenitalLedger.Punish` | bridge/src/genital_ban.rs:256-292 | books the offense, spends the evidence and returns the ban |
| `BanLedger.GenitalLedger.NextLevelFor` | bridge/src/genital_ban.rs:295-317 | level, duration and permanence of the next ban |
| `BanLedger.GenitalLedger.RecordHit` | bridge/src/genital_ban.rs:195-292 | new state and decision for every hit |
| `BanLedger.GenitalLedger.Overturn` | bridge/src/genital_ban.rs:321-334 | marks the running offenses and counts them |
| `BanLedger.GenitalLedger.CollectGarbage` | bridge/src/genital_ban.rs:341-346 | drops expired offenses and empty entries |
| `BanRuns.RunIsOk` | bridge/src/genital_ban.rs:157-292 | over every run with a clock that does not go back, the queues track the history and every quota holds |
| `BanTheorems.HitsAreRateLimited` | bridge/src/genital_ban.rs:195-205 | any 11 accepted hits of one reporter within one boot span at least an hour |
| `BanTheorems.SoloBansAreCappedByUid` | bridge/src/genital_ban.rs:184-192 | any 4 session-path bans by one reporter within one boot span at least a day |
| `BanTheorems.SoloBansAreCappedByCluster` | bridge/src/genital_ban.rs:184-192 | any 7 by one cluster within one boot span at least a day |
| `BanTheorems.RefusedIff` | bridge/src/genital_ban.rs:195-205 | over every run, a hit is refused exactly when its reporter had ten accepted hits in the last hour of this boot |
| `BanTheorems.CappedIff` | bridge/src/genital_ban.rs:184-192 | over every run, the session path is capped exactly when reporter or cluster used up their bans of the last day of this boot |
| `BanRestarts.RestartBreaksRate` | bridge/src/genital_ban.rs:164-205 | ten equal hits, a restart and an eleventh are all accepted at one instant; without the restart the eleventh is refused |
| `BanRestarts.RestartBreaksCap` | bridge/src/genital_ban.rs:164-192 | with a restart after three bans, one reporter is behind four session-path bans at one instant; without it the reporter is capped |
| `BanEvidence.EvidenceIsSpentOnce` | bridge/src/genital_ban.rs:207-292 | for each target, twice the bans plus the pending hits never exceed the accepted hits |
| `BanEvidence.SessionReadyIff` | bridge/src/genital_ban.rs:211-226 | the session condition in terms of the hits themselves, both ways |
| `BanEvidence.GapIsKeptIff` | bridge/src/genital_ban.rs:211-226 | the session condition alone guarantees an earlier hit of the session stamped at least 2 s from the new one exactly for hits that are not stamped back |
| `BanEvidence.RunsKeepGapIff` | bridge/src/genital_ban.rs:9-14 | over all runs, every session-path ban on a hit rests on an earlier one at least 2 s from it exactly when the hit is not stamped back, or too far back for a fresh one to be close |
| `BanEvidence.MillisecondApartBans` | bridge/src/genital_ban.rs:211-226 | two hits stamped one millisecond apart and recorded at the same instant ban |
| `BanEvidence.RunsKeepFreshIff` | bridge/src/genital_ban.rs:207-226 | over all runs, the hit that bans is under 30 minutes old exactly when its stamp says so: nothing else checks it |
| `BanEvidence.PairBansIff` | bridge/src/genital_ban.rs:195-292 | of two hits recorded at one instant, alike but for their stamps, when the second bans |
| `BanEvidence.SessionBanRestsOnTwoHits` | bridge/src/genital_ban.rs:9-20 | every session-path ban rests on an earlier detector hit of the same reporter and session, unspent and under 30 minutes old; one of them is stamped 2 s before a new hit stamped with the current time |
| `BanEvidence.BackdatedHitsBanAtOnce` | bridge/src/genital_ban.rs:211-226 | the same hit twice at one instant bans exactly when it is a detector hit stamped from 2 s to 30 minutes back and the target is not guarded |
| `BanEvidence.CrossReadyIff` | bridge/src/genital_ban.rs:226-237 | the cross condition in terms of the hits themselves, both ways |
| `BanEvidence.CrossBanRestsOnTwoClusters` | bridge/src/genital_ban.rs:16-18 | a cross-path ban rests on two hits with a voice from different clusters, one from the detector, each the new one or unspent and under 30 minutes old |
| `BanDecisions.RunKeepsUnspent` | bridge/src/genital_ban.rs:207-209 | over every run, every unspent fresh hit of this boot is still pending |
| `BanDecisions.DecisionIs` | bridge/src/genital_ban.rs:195-292 | over every run, exactly when a hit is refused, bans on the cross path, bans on the session path or only counts, in terms of the history of hits |
| `BanDecisions.HintIs` | bridge/src/genital_ban.rs:242-255 | what a hit that only counts is told |
| `BanDecisions.CrossBanNames` | bridge/src/genital_ban.rs:258-292 | a cross-path offense names every reporter whose hit counts, and the clusters of those that may be heard |
| `BanDecisions.SoloBanNames` | bridge/src/genital_ban.rs:264-271 | a session-path offense names the reporter of the hit alone |
| `BanLadder.LevelIsLadder` | bridge/src/genital_ban.rs:295-317 | a level is the least of three, the live offenses with this one, and the distinct clusters behind them |
| `BanLadder.RunIsBacked` | bridge/src/genital_ban.rs:9-20 | every cluster in the book comes from an accepted hit on that target |
| `BanLadder.LevelNeedsClusters` | bridge/src/genital_ban.rs:9-20 | a ban of level n needs accepted hits from n clusters, over restarts too: one cluster never gets past level 1 |
| `BanPeople.LevelNeedsPeople` | bridge/src/genital_ban.rs:18-20 | when no reporter of the target changes clusters, a ban of level n needs accepted hits from n people |
| `BanPeople.OnePersonClimbs` | bridge/src/genital_ban.rs:18-20 | one person seen from three clusters bans a target permanently, with six confirmations 2 s apart |
| `BanLadder.LevelsNeverFall` | bridge/src/genital_ban.rs:295-317 | without an unban or an expiry of the target's offenses, levels never fall |
| `BanBook.BookIsHistory` | bridge/src/genital_ban.rs:280-346 | over every run, the live offenses in the book are the bans of the history that no unban pardoned and that are less than 180 days old |
| `BanBook.LevelIsHistory` | bridge/src/genital_ban.rs:295-317 | so the level of a ban is the least of three, those bans with this one, and the distinct clusters they name |
| `BanBook.UnbanStartsOver` | bridge/src/genital_ban.rs:319-334 | once an unban finds every ban that weighs on the target in force, the next ban has level 1 again |
| `BanBook.MarkedIs` | bridge/src/genital_ban.rs:319-334 | an unban answers how many offenses it marks |
| `Limits.Allow` | bridge/src/limits.rs:46-63 | prune, refuse when full, else record |
| `Limits.ClientLimiter.AllowMessage` | bridge/src/limits.rs:71-78 | only the message queue changes |
| `Limits.ClientLimiter.AllowChat` | bridge/src/limits.rs:80-82 | only the chat queue changes |
| `Limits.ClientLimiter.AllowMatchCmd` | bridge/src/limits.rs:84-92 | only the match command queue changes |
| `Limits.AcceptedAreSpaced` | bridge/src/limits.rs:46-92 | over every run, any max+1 accepted requests of one kind span more than the window |
| `Limits.RejectedIffFull` | bridge/src/limits.rs:46-92 | a request is refused exactly when the last max accepted ones all lie inside the window |
| `Limits.EachKindHasItsLimit` | bridge/src/limits.rs:65-92 | which setting limits which kind of request |
| `Selection.PairScoreSymmetric` | ui/protocol.js:142-145 | both peers compute the same score |
| `Selection.SessionIdSymmetric` | ui/protocol.js:167-178 | both peers derive the same session id |
| `Sessions.SessionIdsAgreeIff` | ui/protocol.js:167-178 | without collisions of the digest, two session ids are equal exactly when they are made of the same two peers with the same seeds |
| `Sessions.PairScoresAgreeIff` | ui/protocol.js:142-145 | likewise two scores, exactly for the same two peers in the same epoch |
| `Sessions.JoinedSessionsDiffer` | ui/protocol.js:167-178 | joining the parts without a separator adds no collision for ids of one length and seeds of one length |
| `Sessions.JoinedScoresDiffer` | ui/protocol.js:142-145 | nor for scores, with the epoch as eight bytes |
| `Sessions.LengthsMatter` | ui/protocol.js:167-178 | for ids of different lengths it does: two pairs that share no peer get one session id |
| `Selection.SelectPartner` | ui/protocol.js:147-165 | the loop picks the least (score, id) among the free others, whatever the order of the list |
| `Sessions.ChoiceIsFirst` | ui/protocol.js:147-165 | a peer chooses exactly the free other whose score, then whose id, comes first |
| `Sessions.LessIff` | ui/protocol.js:45-49 | what comes first: a proper prefix, or the smaller character where two strings first differ |
| `Selection.MutualIsMatching` | ui/protocol.js:251-264 | mutual choices pair peers up: no peer is in two pairs |
| `Selection.MutualPairExists` | ui/protocol.js:147-165 | among two or more free peers some two choose each other, also when scores tie |
| `Selection.FindSeed` | ui/protocol.js:257 | the seed the partner published |
| `Selection.TryClaim` | ui/protocol.js:256-271 | a claim is made exactly when the choice is mutual |
| `Selection.ClaimsAreMutual` | ui/protocol.js:251-276 | the other peer claims back, with the same session id |
| `Sessions.ClaimIdsAgreeIff` | ui/protocol.js:251-276 | claims on any two snapshots share a session id exactly when they join the same two peers under the same published seeds |
| `Sessions.SeedIsPublished` | ui/protocol.js:257 | the seed found for a peer is the one in its offer |
| `Selection.SomeClaimIsMade` | ui/protocol.js:251-276 | with two or more free peers somebody claims |

## Left out

- Hashes (SHA-256 of the ledger, match scores, session ids) are parameters; collision-freedom is an assumption only where stated.
- Clocks, uuids and the hub's lookups are inputs; disk errors and JSON text are not modelled, a log is a list of parsed lines.
- Star amounts are unbounded naturals; saturation of unsigned 64-bit sums is not modelled.
- The encoder object takes the block table as a parameter; `Standard` supplies the repository's. Images wider than 65535 pixels, whose size the GIF header cannot hold, are outside the reading theorems.
- The penalty of a mask is a parameter; its floating-point formula is not modelled.
- Kanji segments, for which the repository has no SJIS function, other settings of `qrcode.stringToBytes`, and the HTML, SVG, ASCII and canvas renderers.
- JavaScript arrays that only grow, `VecDeque` and `HashMap` fields are fields of type `seq` and `map`; aliasing between them is not modelled. Array holes count as 0.
- Numbers in the LZW packer are naturals with shifts defined bit by bit; codes have at most 24 bits, so 32-bit wrap-around does not arise.
- JavaScript's order of strings is the order of character codes.
- `score_reject` (floating point), `reported_back`, `latest_active` and the getters of the ledgers.
- `Peer.tick` beyond the claim, `cleanup`, and agreement between peers over time: claims of a peer that left are dropped, so both sides need not end up matched.
- Bodies of nested loops are set apart as methods of their own (`MapModule`, `SetupOneAdjustPattern`, `CheckSession` and others); the order of steps is the source's.
