# QR code encoder, modelled and verified in Dafny

This project models the encoding core of the Go package `coding/qr.go`. The package turns texts into the bitmap of a QR symbol (ISO/IEC 18004). The pipeline has four stages:

1. **Bit buffer and text encoders.** A bit buffer (`Bits`) takes the segments of the texts. Each text is numeric, alphanumeric, 8-bit or Kanji; a segment is a mode indicator, a character count and packed groups. The buffer is then padded with the terminator and the bytes 0xEC/0x11. The Reed–Solomon check bytes of each block follow.
2. **Plan.** A *plan* is built for a version (1–40), an error-correction level (L, M, Q, H) and a mask (0–7, or −1 for "choose").
   - `vplan` draws the fixed patterns: timing strips, position boxes, alignment boxes, version blocks, format placeholders and the lone dark pixel.
   - `lplan` splits the data and check bytes into blocks and interleaves them. It then sweeps the resulting bit stream into the free cells, two columns at a time, zig-zagging up and down.
   - `fplan` draws the BCH(15,5) format word.
   - `mplan` inverts the data cells under a mask.
3. **Encoding.** `Plan.Encode` XORs the codeword bits into the plan's grid. With mask −1 it scores the eight masked candidates with `Penalty` and keeps the first with the least penalty.

Each Go function is modelled in the form it has:
- Code that mutates buffers and grids becomes methods with loops over arrays, or methods of the classes `Bits`, `Code` and `Plan`. Each is proved against a specification function.
- Pure arithmetic becomes functions and lemmas.

Modules:

| module | what it models |
|---|---|
| `Tables` | The version table, `sizeClass` and `DataBytes`. |
| `BitWriter` | The bit buffer. |
| `Encodings`, `Texts` | The four text modes and the text loop. |
| `Pixels` | Pixel packing and the masks. |
| `Format` | The format word. |
| `Codes` | The `Code` class: `Black`, `set` and `Penalty`. |
| `Layout`, `Plans` | `vplan`, `posBox`, `alignBox`, `fplan` and `mplan`. |
| `Interleave`, `Sweep`, `Placement`, `Stream`, `LevelPlan` | `lplan`. |
| `Grids`, `Masking`, `Planner` | `NewPlan`. |
| `MaskChoice`, `Encoder` | `Plan.Encode`. |
| `Symbols` | Facts about the finished symbol. |
| `Capacity` | The free cells of a version-1 symbol, counted. |

The Reed–Solomon encoder is a foreign package. It is the function parameter `ecc(data, ncheck, j)`, which gives check byte `j` of a block.

## Model

| member | source | states |
|---|---|---|
| Tables.SizeClass | coding/qr.go:35-43 | The class is 0 exactly for versions up to 9 and 2 exactly for versions above 26; otherwise it is 1. |
| Tables.DataBytes | coding/qr.go:47-51 | For a version in 0..40, the indices of `vtab`, data bytes plus `nblock * check` check bytes make up all the symbol's bytes. Any other version is an index panic in the source, which is the precondition here. |
| Tables.Vtab | coding/qr.go:751-793 | The table is indexed 0..40, with the empty entry at 0; any other index panics in the source and is excluded by the precondition. Every entry for versions 1..40 is well formed: four levels, at least one block, fewer check bytes than bytes, and alignment coordinates that move forward. |
| Tables.BlocksTile | coding/qr.go:642-656 | The blocks of `AddCheckBytes` follow one another from 0, each of `nd / nblock` bytes, with the last `nd % nblock` blocks one byte longer. Together they cover the data exactly. |
| Tables.BlockWithin | coding/qr.go:642-656 | Every block lies inside the data bytes. |
| BitWriter.Bits.constructor | coding/qr.go:63-66 | The zero buffer is valid and holds no bits. |
| BitWriter.Bits.Reset | coding/qr.go:68-71 | After a reset the buffer holds no bytes and no bits. |
| BitWriter.Bits.Bytes | coding/qr.go:77-82 | On a byte boundary the bytes are returned, and their `8 * len` bits are exactly the bits written. Not on a boundary the source panics, which is the precondition here. |
| BitWriter.Bits.Append | coding/qr.go:84-90 | On a byte boundary the bytes are appended and the bit count grows by `8 * len(p)`. |
| BitWriter.Bits.Write | coding/qr.go:92-112 | The bit count grows by exactly `count`, or by 0 for a negative count. The full bytes written before are kept. The new bits are the low `count` bits of `v`, most significant first. When `v` fits `count` bits, the contents are the old contents followed by those bits. |
| BitWriter.Pass | coding/qr.go:93-110 | One pass of the loop of `Write` computes `Step`: a chunk of at most 8 bits, no more than the room left in the last byte, is OR-ed into place. |
| BitWriter.WrittenDone | coding/qr.go:92-112 | When the loop ends, the loop invariant gives `Write`'s promise: the length grew, earlier bits are kept, and the value's bits follow. |
| BitWriter.StepKeepsAll | coding/qr.go:106-109 | When the value fits its width, one pass keeps every bit written before it. |
| BitWriter.StepAppends | coding/qr.go:106-109 | The bits one pass places after the old end are the leading bits of what is left of the value. |
| BitWriter.ValueBitsLow | coding/qr.go:109 | `v -= v >> sh << sh` leaves the low `sh` bits, which are the tail of the value's bits. |
| BitWriter.Bits.Pad | coding/qr.go:611-631 | The contents become the old contents followed by `PadBits(nbit, n)`. That is `n` zero bits when `n <= 4`; otherwise a 4-bit terminator, zero fill to a byte boundary, and the bytes 0xEC, 0x11, … in alternation. A negative `n` panics in the source and is excluded by the precondition. |
| BitWriter.Bits.PadBytes | coding/qr.go:622-629 | The pad loop appends the first `pad` bytes of 0xEC, 0x11, 0xEC, … |
| BitWriter.PadExact | coding/qr.go:635-640 | Padding a buffer of `nbit <= 8 * nd` bits by `8 * nd - nbit` adds exactly that many bits. So `AddCheckBytes` never reaches its "too much data" panic. |
| BitWriter.BitsOfAppend | coding/qr.go:88-89 | On a byte boundary, appending bytes appends their bits. |
| BitWriter.Bits.AddCheckBytes | coding/qr.go:633-661 | The result has `vtab[v].bytes` bytes. The first `DataBytes` bytes hold the written bits and then the padding. The rest are the check bytes of each block in turn, each from `ecc` over that block's data, so the "internal error" panic cannot happen. |
| BitWriter.Bits.PadData | coding/qr.go:635-640 | The padding step of `AddCheckBytes` ends exactly on `8 * nd` bits. |
| BitWriter.Bits.AddBlocks | coding/qr.go:642-656 | The block loop appends `CheckBlocks`, giving `nd + nblock * check` bytes. |
| BitWriter.BlockCheck | coding/qr.go:653 | A block's check bytes are `check` values of `ecc` over that block. |
| BitWriter.CheckBlocksLen | coding/qr.go:648-656 | `i` blocks give `i * check` check bytes. |
| BitWriter.NextBlock | coding/qr.go:644-656 | The running `db` of the loop, with its increment at block `nblock - extra`, is the block length `BlockLen`, and `dat` advances to `BlockStart(i + 1)`. |
| Encodings.Uint64 | coding/qr.go:139 | Go's `uint(x)` is `x` itself for every `x` in 0..2^64. |
| Encodings.Segment | coding/qr.go:137-153 | A segment is the 4-bit mode indicator, then the count in `width` bits, then the payload. |
| Encodings.WriteHeader | coding/qr.go:138-139 | The header adds `4 + width` bits. A count that fits its width is written exactly after the mode. |
| Encodings.NumCheck | coding/qr.go:122-129 | The check passes exactly when every character is a digit. |
| Encodings.Digit | coding/qr.go:142 | For a digit, the wrapping `c - '0'` is its value, below 10. |
| Encodings.NumBits | coding/qr.go:133-135 | The estimate `4 + numLen + (10n + 2) / 3` is the length of the numeric segment. |
| Encodings.NumLen | coding/qr.go:134 | `10 * (n / 3)` plus 4 or 7 bits for the tail equals `(10n + 2) / 3`. |
| Encodings.TripleFits | coding/qr.go:142-143 | Three digits make a value below 1000, which fits 10 bits. |
| Encodings.NumEncode | coding/qr.go:137-153 | The buffer grows by exactly `NumBits`. For a valid text whose length fits the count field, the appended bits are the numeric segment. |
| Encodings.NumBody | coding/qr.go:140-152 | The groups of three digits and then the tail take `10 * (n / 3)` plus 4 or 7 bits. For digits they are exactly those groups. |
| Encodings.NumTailWrite | coding/qr.go:145-152 | One leftover digit is written in 4 bits, two in 7, none in 0. |
| Encodings.AlphaIndex | coding/qr.go:159 | Every character has a value in −1..44: digits 0–9, capitals 10–35, the nine symbols 36–44, and −1 otherwise. |
| Encodings.AlphabetValues | coding/qr.go:159 | Each character of the alphabet has its own position as its value. |
| Encodings.AlphaIndexIsIndexRune | coding/qr.go:185-191 | The value is what `strings.IndexRune(alphabet, c)` returns. |
| Encodings.IndexFromFirst | coding/qr.go:167 | The search finds the first position holding the character, and −1 exactly when no position does. |
| Encodings.AlphaIndexFound | coding/qr.go:167 | A character has a value exactly when the alphabet holds it. |
| Encodings.AlphaCheck | coding/qr.go:165-172 | The check passes exactly when every character is one of the 45. |
| Encodings.AlphaBits | coding/qr.go:176-178 | The estimate `4 + alphaLen + (11n + 1) / 2` is the length of the alphanumeric segment. |
| Encodings.AlphaLen | coding/qr.go:177 | `11 * (n / 2)` plus 6 bits for an odd tail equals `(11n + 1) / 2`. |
| Encodings.PairFits | coding/qr.go:185-187 | A pair of valid characters is `45 * i + j < 2025`, which fits 11 bits. |
| Encodings.TailFits | coding/qr.go:190-193 | The last character of an odd-length text is below 45, which fits 6 bits. |
| Encodings.AlphaEncode | coding/qr.go:180-194 | The buffer grows by exactly `AlphaBits`. For a valid text whose length fits, the appended bits are the alphanumeric segment. |
| Encodings.AlphaBody | coding/qr.go:183-193 | The pairs and the tail take `11 * (n / 2)` plus 6 bits for an odd length. For valid characters they are exactly those groups. |
| Encodings.PairWrite | coding/qr.go:185-187 | One pair is written in 11 bits. |
| Encodings.AlphaTailWrite | coding/qr.go:190-193 | The leftover character is written in 6 bits. |
| Encodings.StringCheck | coding/qr.go:203-205 | The 8-bit check never fails. |
| Encodings.StringBits | coding/qr.go:209-211 | The estimate `4 + stringLen + 8n` is the length of the byte segment. |
| Encodings.ByteGroupsAreBits | coding/qr.go:216-218 | The payload of the byte segment is the text's own bits, most significant first. |
| Encodings.StringEncode | coding/qr.go:213-219 | The buffer grows by exactly `StringBits`. When the length fits the count field, the appended bits are the byte segment. |
| Encodings.KanjiWordStandard | coding/qr.go:257 | For the Shift-JIS double-byte ranges of Kanji mode, `(hi &^ 0xc0) * 0xc0 + lo - 0x100` agrees with the subtract-then-repack rule of section 7.4.6 of ISO/IEC 18004. The result is below 2^13. |
| Encodings.KanjiGroupsNext | coding/qr.go:256-259 | Each further character adds its 13-bit word to the packed groups. |
| Encodings.KanjiGuardAsWritten | coding/qr.go:250-253 | The guard proceeds exactly when the conversion succeeded and the byte count is even. On a successful conversion with an odd count it calls a method on a nil error. |
| Encodings.KanjiGuardPanics | coding/qr.go:250-251 | A successful conversion of "A" gives the one byte 0x41, which reaches the nil-error call. |
| Encodings.KanjiEncode | coding/qr.go:248-260 | When the guard fails, nothing is written. Otherwise the buffer grows by the Kanji segment's length, and for valid characters whose count fits it gets exactly the segment. |
| Encodings.KanjiBody | coding/qr.go:256-259 | `n` characters take `13n` bits, which are the packed words. |
| Encodings.KanjiWrite | coding/qr.go:257-258 | One character is written in 13 bits. |
| Texts.Check | coding/qr.go:57-61 | A text passes its mode's check exactly when `Checks` holds: digits, the alphabet, anything, or a successful conversion. |
| Texts.TextBits | coding/qr.go:57-61 | The bits a text writes are the length of its segment. |
| Texts.EncodeText | coding/qr.go:57-61 | Encoding a text adds `TextBits` bits. When the text fits its count field, those bits are its segment. |
| Texts.FirstBad | coding/qr.go:664-670 | The index returned has passing texts before it and a failing text at it, or it is the number of texts. |
| Texts.WriteTexts | coding/qr.go:664-670 | The loop stops at the first text that fails its check. Otherwise the buffer holds `TotalBits` bits, which are the segments in order when every text fits. |
| Texts.PrefixNext | coding/qr.go:664-670 | One more text adds its bits and its segment to those of the texts before it. |
| Pixels.Offset | coding/qr.go:265-267 | The offset is the pixel shifted right by 4, below 2^28. |
| Pixels.Role | coding/qr.go:277-279 | The role is the low four bits. |
| Pixels.OffsetPixel | coding/qr.go:269-271 | A pixel made from an offset has role 0. |
| Pixels.RolePixel | coding/qr.go:273-275 | A role pixel has that role and offset 0. |
| Pixels.PackRoundTrip | coding/qr.go:263-279 | Unpacking `role OR OffsetPixel(o)` gives back the role, and the offset modulo 2^28 (the `uint32` truncation). |
| Pixels.PackExact | coding/qr.go:263-279 | Offsets below 2^28 come back exactly. |
| Pixels.PackIsOr | coding/qr.go:876 | `role OR OffsetPixel(o)` and `role + OffsetPixel(o)` are the same pixel. |
| Pixels.GoMod | coding/qr.go:494-503 | Go's `%` agrees with the mathematical remainder on non-negative operands. |
| Pixels.InvertIsStandard | coding/qr.go:494-510 | On the symbol's cells, each of the eight `mfunc` conditions is the corresponding mask condition of table 10 of ISO/IEC 18004. |
| Pixels.ProductMasks | coding/qr.go:499-501 | The product masks 5–7 agree with the standard despite Go's truncating remainder. |
| Format.Raw | coding/qr.go:906-907 | The five data bits sit above bit 9 and below bit 15. |
| Format.RemainderUnrolled | coding/qr.go:910-914 | The division loop is five conditional subtractions of the shifted generator. |
| Format.FormatCodeword | coding/qr.go:906-915 | The remainder is below 2^10. `raw OR rem` equals `raw ^ rem`, and it is the generator 0x537 times the quotient over GF(2). |
| Format.FormatLevelMMask0 | coding/qr.go:906-916 | Level M with mask 0 gives exactly 0x5412. |
| Format.FormatLevelLMask0 | coding/qr.go:906-916 | Level L with mask 0 gives 0x77c4, the first entry of the standard's table of format words. |
| Format.ComputeFormat | coding/qr.go:906-916 | The computed word is `FormatWord(l, m)`, the masked codeword. |
| Format.Reduce | coding/qr.go:909-914 | The loop leaves the remainder of `raw`. |
| Format.ClearBit | coding/qr.go:911-913 | One pass clears bit `i`. |
| Format.FormatIndex | coding/qr.go:875-894 | Each cell holds one format bit 0..14, or none. |
| Format.FormatPlaces | coding/qr.go:875-894 | In a symbol of side at least 21, the two placeholders of bit `i` are exactly the cells showing bit `i`. |
| Format.FormatInside | coding/qr.go:875-894 | Both placeholders of each bit lie inside the symbol. |
| Codes.Code.constructor | coding/qr.go:342-346 | A code holds the bitmap, size and stride it is given. |
| Codes.Code.Black | coding/qr.go:348-351 | A black pixel lies inside the grid; pixels outside are white. |
| Codes.Code.Set | coding/qr.go:353-355 | `set` turns on the one pixel `(y, x)` of the grid at `b[base:]`. Every other pixel of the grid, and every byte outside it, is kept. |
| Codes.SetLitEffect | coding/qr.go:353-355 | Setting a pixel makes that pixel lit and changes no other pixel. |
| Codes.SetByteEffect | coding/qr.go:354 | OR-ing bit `t` into byte `k` sets that bit and keeps every other bit of every byte. |
| Codes.CellUnique | coding/qr.go:354 | Two pixels with the same byte and bit are the same pixel. |
| Codes.CellInRange | coding/qr.go:354 | A pixel of the grid lies in its first `size * stride` bytes. |
| Codes.SetShows | coding/qr.go:353-355 | At the level of the grid: the set pixel shows, others are unchanged, and no byte outside is touched. |
| Codes.ShowsSame | coding/qr.go:688-690 | Two grids with the same bytes show the same pixels. This covers the copy of the plan's grid. |
| Codes.ShowsNothing | coding/qr.go:682 | A zeroed buffer shows no pixel. |
| Codes.XorByte | coding/qr.go:692-693 | `x ^= y` flips exactly the bits set in `y`. |
| Codes.FlipBit | coding/qr.go:692-693 | `b ^= 1 << t` flips bit `t` and keeps the others. |
| Codes.FlipShows | coding/qr.go:692-693 | Flipping a pixel flips it alone. |
| Codes.XorBytes | coding/qr.go:710-712 | XOR-ing buffers XORs them byte by byte. |
| Codes.XorShows | coding/qr.go:710-712 | XOR-ing two grids byte by byte XORs their pixels. |
| Codes.Code.Penalty | coding/qr.go:358-485 | The loops compute `PenaltyOf`: the row scans, then the balance score, then the column scans. |
| Codes.Code.ScanRows | coding/qr.go:390-435 | The row loop adds each row's score and counts the black pixels. |
| Codes.Code.ScanColumns | coding/qr.go:449-483 | The column loop adds each column's score. |
| Codes.Code.ScanLine | coding/qr.go:390-435 | One line adds its `LinePenalty`, the runs, boxes and finder patterns with the end-of-line cases. For a row it also adds its black pixels. |
| Codes.Code.Advance | coding/qr.go:400-419 | The loop body is one `ScanStep`: the run, box and pattern score for the next pixel. |
| Codes.StepBounds | coding/qr.go:400-419 | One step keeps the run between 1 and `i + 1`, keeps the pattern a `uint16` with its low four bits clear, and adds at most 44. |
| Codes.StepColour | coding/qr.go:401-416 | After a step the tracked colour is the pixel's, and the black count rises exactly for a black pixel. |
| Codes.LineInvariant | coding/qr.go:390-435 | After pixels 0..i the scan's bounds hold, and its black count is the number of black pixels seen. |
| Codes.LineBound | coding/qr.go:390-435 | A line scores between 0 and `44 * size + 37`. |
| Codes.LinesBound | coding/qr.go:390-483 | `n` lines score between 0 and `n` times that bound. |
| Codes.RowsBlackCounts | coding/qr.go:390-435 | The row scans count exactly the black pixels of the grid. |
| Codes.BalanceRange | coding/qr.go:442-446 | The balance term is `(9 - ⌊20 * min(b, N - b) / N⌋) * 10`, and for odd `N` it lies in 0..90. |
| Codes.PenaltyBound | coding/qr.go:358-485 | For every odd size up to 177, the penalty is in 0..2^24. That is far below the 2 << 30 the mask search starts from, as the source's comment claims. |
| Layout.StrideOf | coding/qr.go:814 | `(siz + 7) >> 3` bytes hold a row: `siz <= 8 * stride < siz + 8`. |
| Layout.PosDarkRings | coding/qr.go:1058-1068 | A position box is dark at Chebyshev distance 0, 1 and 3 from its centre and light at 2, the finder pattern of section 6.3.3 of ISO/IEC 18004. |
| Layout.AlignCountSpec | coding/qr.go:836-854 | The alignment loops visit exactly the coordinates 4, apos, apos + astride, … that satisfy `c + 5 < siz`. |
| Layout.AlignCoordMono | coding/qr.go:836-854 | Those coordinates increase strictly. |
| Layout.AlignDarkRings | coding/qr.go:1093-1104 | An alignment box is dark at distance 0 and 2 from its centre, as section 6.3.6 of ISO/IEC 18004 requires. |
| Layout.VersionMirror | coding/qr.go:857-872 | The two copies of a version bit are mirror images across the diagonal, for bit indices 0..17. |
| Layout.DarkModule | coding/qr.go:896-898 | The lone dark pixel is at row `4v + 9`, column 8, where section 7.9.1 of ISO/IEC 18004 puts the dark module. |
| Layout.FormatSlots | coding/qr.go:875-894 | Both placeholders of format bit `i` hold the pixel `Format` with offset `i` once vplan is done. |
| Layout.TimingColumnClaimed | coding/qr.go:817-827 | Every cell of column 6 has a role, so the sweep may skip it. |
| Layout.FreeIsLight | coding/qr.go:805-901 | A cell no pattern claims is left white. |
| Layout.AlignDarkCovered | coding/qr.go:1093-1104 | A box that darkens a cell also claims it. |
| Plans.Plan.constructor | coding/qr.go:806 | A new plan holds its version and zero level, mask and counts. |
| Plans.SetFirst | coding/qr.go:824 | `c.set(c.Bitmap, y, x)` on the first grid lights that one pixel, and the other grids are untouched. |
| Plans.Paint | coding/qr.go:1061-1067 | One cell gets its role, and its pixel when dark; nothing else changes. |
| Plans.PosBox | coding/qr.go:1058-1090 | The 7x7 square and its white border get the role `Position`. The ring and the 3x3 core turn dark. |
| Plans.PosSquare | coding/qr.go:1061-1068 | The square's cells get the role, and exactly the `PosDark` cells turn dark. |
| Plans.PosFrame | coding/qr.go:1070-1089 | The border cells inside the symbol get the role `Position` and stay white. |
| Plans.AlignBox | coding/qr.go:1093-1104 | The 5x5 box gets the role `Alignment`, with its outer ring and centre dark. |
| Plans.DrawTiming | coding/qr.go:817-827 | Row and column 6 get the role `Timing`, dark on even positions. |
| Plans.DrawAlignment | coding/qr.go:835-854 | A box is drawn at every visited pair of coordinates, except where it would meet a position box. |
| Plans.AlignAt | coding/qr.go:838-842 | One pass draws the box unless it meets a position box. |
| Plans.NextAlignCoord | coding/qr.go:843-853 | The coordinate step goes from 4 to apos, then by astride. |
| Plans.DrawVersion | coding/qr.go:857-872 | When the pattern is non-zero, bit `3x + y` goes to row `siz - 11 + y`, column `x` and to its mirror. Exactly the set bits turn dark. |
| Plans.VersionSlot | coding/qr.go:863-867 | Version bit `3x + y` shows in exactly those two cells. |
| Plans.DrawFormat | coding/qr.go:874-894 | Each placeholder cell gets the pixel `Format` with its bit index, and no other cell changes. |
| Plans.VPlan | coding/qr.go:805-901 | A plan exists exactly for versions 1..40. Its pixel map and first grid are exactly the fixed patterns. The bitmap holds `stride * siz * n` bytes, and the other fields are zero. |
| Plans.FPlan | coding/qr.go:904-940 | Exactly the cells showing a 1 bit of the format word of `(l, m)` are set in the grid at `b[base:]`, each bit in both places. No other byte changes. |
| Plans.FormatBitAt | coding/qr.go:920-936 | Setting a bit lights both of its places. |
| Plans.MPlan | coding/qr.go:1045-1055 | The plan records mask `m`. Exactly the data, check and extra cells that `m` inverts are set, and the roles are unchanged. |
| Plans.MaskRow | coding/qr.go:1047-1053 | One row of mplan. |
| Interleave.Short | coding/qr.go:969-982 | The number of short blocks is between 1 and `nblock`. |
| Interleave.StartOf | coding/qr.go:969-982 | Block `b` starts after the short blocks and the long ones before it. |
| Interleave.DataSplit | coding/qr.go:947-951 | The data bytes split as short blocks followed by long ones. |
| Interleave.DataOrderInverse | coding/qr.go:986-995 | Every stream position holds a data byte, and `DataPosition` finds the position again. |
| Interleave.DataPositionInverse | coding/qr.go:986-995 | Every data byte has a stream position, and `DataOrder` finds the byte again. |
| Interleave.CheckOrderInverse | coding/qr.go:996-1003 | The check interleave is undone by `CheckPosition`. |
| Interleave.CheckPositionInverse | coding/qr.go:996-1003 | `CheckPosition` is undone by the check interleave. |
| Interleave.OrderInverse | coding/qr.go:986-1006 | The interleave is a permutation of `nd + nblock * ne` bytes: `Position` undoes `Order`, and data positions come first. |
| Interleave.PositionInverse | coding/qr.go:986-1006 | `Order` undoes `Position`. |
| Interleave.OrderInjective | coding/qr.go:986-1006 | No byte appears at two positions. |
| Sweep.BaseNext | coding/qr.go:1017-1039 | Each column pair takes `2 * siz` sweep steps. |
| Sweep.PairOfBase | coding/qr.go:1017-1039 | The steps of pair `q` are the `2 * siz` steps from `Base(q)` on. |
| Sweep.CellOf | coding/qr.go:1017-1039 | Step `2r + side` of pair `q` visits row `Row(q, r)` of the right or left column of the pair. |
| Sweep.CellPos | coding/qr.go:1012-1040 | Every cell outside column 6 is visited by exactly one sweep step. |
| Sweep.PosUnique | coding/qr.go:1012-1040 | Different cells have different steps. |
| Sweep.CountMono | coding/qr.go:1018-1039 | The number of free cells seen never decreases along the sweep. |
| Sweep.CountStrict | coding/qr.go:1018-1039 | A free cell is counted before every later step. |
| Sweep.PairOfBounds | coding/qr.go:1017-1039 | Step `t` lies among the `2 * siz` steps of its pair. |
| Sweep.StepCell | coding/qr.go:1012-1040 | Every sweep step visits a cell of the symbol outside column 6, and `Pos` gives the step back. With `CellPos`, steps and cells outside column 6 correspond one to one. |
| Sweep.CountRun | coding/qr.go:1018-1039 | Over a run of steps that are all free, the count grows by the run's length; over a run that are all claimed, it stays the same. |
| Sweep.CountRank | coding/qr.go:1018-1039 | Every rank below the count at step `u` is the count at some free step before `u`: the sweep hands out source pixels with no gap. |
| Placement.PosAt | coding/qr.go:1017-1039 | The loops visit row `Row(q, r)`, column `PairCol(q) - side` at step `Base(q) + 2r + side`. |
| Placement.NextColumns | coding/qr.go:1027-1038 | From an even pair, `x -= 2` (and one more past column 6) lands on the next pair, and the second `x -= 2` lands on the pair after. |
| Placement.SweepStart | coding/qr.go:1012-1016 | Before the first step the map is unchanged and nothing is taken. |
| Placement.Place | coding/qr.go:1018-1023 | A free cell takes the next source pixel. Running out of pixels, an index panic in the source, is reported as failure only when the free cells outnumber the source. |
| Placement.SweepUp | coding/qr.go:1017-1024 | The upward half of a pass sweeps pair `q` from the bottom row up. |
| Placement.SweepDown | coding/qr.go:1029-1036 | The downward half sweeps pair `q + 1` from the top row down. |
| Placement.SweepPass | coding/qr.go:1016-1039 | One outer pass covers two pairs, `4 * siz` steps. |
| Placement.SweepColumns | coding/qr.go:1012-1040 | The sweep succeeds exactly when the free cells number at most the source pixels. Then every cell holds `Swept`: a free cell gets the source pixel of its rank along the sweep, and every other cell is kept. |
| Placement.SweptNoneFree | coding/qr.go:1012-1040 | Afterwards no cell has role 0. |
| Placement.Taken | coding/qr.go:1012-1040 | Every free cell outside column 6 is visited and counted. |
| Placement.SweptApart | coding/qr.go:1012-1040 | Different free cells take different source pixels. |
| Placement.SweptCovers | coding/qr.go:1012-1040 | Every source pixel whose rank is below the number of free cells lands in a free cell outside column 6. |
| Stream.MakePixels | coding/qr.go:959-966 | Pixel `i` is the role packed with offset `base + i`. |
| Stream.SplitBlocks | coding/qr.go:969-982 | Block `i` takes the next `8 * BlockLen(i)` data pixels and `8 * ne` check pixels, and both are used up, so "data/check math" cannot happen. |
| Stream.SplitStep | coding/qr.go:972-980 | The running block length is `BlockLen(i)`, and both cuts stay in bounds. |
| Stream.SplitEnd | coding/qr.go:983-985 | After the last block both cuts are at the end. |
| Stream.InterleaveBlocks | coding/qr.go:984-1006 | Every position of the bit sequence gets the pixel `StreamPixel`: byte by byte, data blocks round-robin and then check blocks. The whole sequence is filled, so "dst math" cannot happen. |
| Stream.DataRound | coding/qr.go:987-994 | One data round takes byte `i` of every block that has one. |
| Stream.CheckRound | coding/qr.go:996-1003 | One check round takes byte `i` of every block. |
| Stream.AppendByte | coding/qr.go:990-991 | The copy of eight pixels extends the filled prefix. |
| Stream.DataTake | coding/qr.go:987-994 | Byte `i` of data block `b` is data byte `BlockStart(b) + i`, at its stream position. |
| Stream.CheckTake | coding/qr.go:996-1003 | Byte `i` of check block `b` is at position `nd + i * nblock + b`. |
| Stream.Source | coding/qr.go:1014-1016 | The source is the bit stream followed by seven extra pixels. |
| Stream.SourcePixel | coding/qr.go:958-1016 | The first `8 * nd` pixels are data, the next `8 * nblock * ne` check, and the last seven extra. A stream pixel has offset `8 * Order(i / 8) + i % 8`. |
| Stream.SourceApart | coding/qr.go:958-1006 | Different data and check pixels carry different offsets. |
| LevelPlan.LaidGrid | coding/qr.go:1012 | The map vplan leaves, as rows, is square with the fixed pixels. |
| LevelPlan.LevelSource | coding/qr.go:1012-1016 | The swept pixels are `8 * bytes + 7` in number. |
| LevelPlan.EntrySizes | coding/qr.go:945-956 | `dataBits` and `checkBits` as lplan computes them are `8 * DataBytes` and `8 * CheckBytes`. |
| LevelPlan.LevelSizes | coding/qr.go:944-956 | The level's entry fits the byte count, and the side suits the sweep. |
| LevelPlan.LPlan | coding/qr.go:944-1042 | The plan records the level, `DataBytes`, `CheckBytes = nblock * check` and the block count. lplan succeeds exactly when the free cells fit (`Fits`). Then every cell holds `LevelPixel`, and nothing else changes. |
| LevelPlan.BuildSource | coding/qr.go:958-1016 | Building the source as lplan does gives `Source`. |
| LevelPlan.LevelNoneFree | coding/qr.go:1012-1040 | After lplan no cell is left without a role. |
| LevelPlan.FromStream | coding/qr.go:1012-1040 | A data or check cell was free after vplan and lies outside column 6. It holds the stream pixel of its rank. |
| LevelPlan.LevelOffsets | coding/qr.go:958-966 | Data cells carry offsets below the data bits, and check cells offsets from there to the end of the stream. |
| LevelPlan.LevelApart | coding/qr.go:944-1042 | No two cells carry the same data or check bit: each offset sits in at most one cell. |
| LevelPlan.LevelCovered | coding/qr.go:944-1042 | When the free cells number at least the data and check bits (`Covers`), every offset below `8 * bytes` sits in some cell: a data cell for the data bits and a check cell after them. With `LevelApart`, each offset sits in exactly one cell. |
| LevelPlan.LayerRole | coding/qr.go:805-901 | No pattern vplan draws has a data, check or extra role. |
| Grids.Repeat | coding/qr.go:552-555 | `c` copies of `s` have length `c * len(s)`. |
| Grids.RepeatAdd | coding/qr.go:552-555 | `a + b` copies are `a` copies followed by `b` copies. |
| Grids.DrawnCopy | coding/qr.go:552-560 | Where a copy of the first grid starts, the grid shows what the first one does. |
| Grids.DrawnNext | coding/qr.go:556-559 | Redrawing grid `m` keeps the grids before it and leaves the later ones copies of the first. |
| Masking.Replicate | coding/qr.go:552-555 | The doubling copy leaves the bitmap as eight copies of the first grid. |
| Masking.Doubled | coding/qr.go:553-554 | `c` copies followed by a copy of themselves are `2c` copies. |
| Masking.MaskGrid | coding/qr.go:548-550 | fplan and then mplan draw the format bits and mask `m` into the grid at `base`, record the mask and touch no other grid. |
| Masking.AllMasks | coding/qr.go:556-560 | Of eight copies, grid `k` gets mask `k`. |
| Masking.DrawMasks | coding/qr.go:547-562 | With one grid, mask `m` is drawn. With mask −1 the grid is copied and grid `k` gets mask `k`, and the plan's mask is −1. |
| Planner.NewPlan | coding/qr.go:530-563 | An invalid version, level or mask is rejected, in that order, and each error happens exactly in its case. Otherwise the plan holds the version and level, lplan's pixel map, and the grid of its mask, or one grid per mask for −1. |
| Planner.LaidOut | coding/qr.go:543-547 | vplan then lplan: the bare patterns with room for `n` grids. It succeeds exactly when the sweep fits. |
| Planner.DataShown | coding/qr.go:1045-1055 | In the plan of mask `m`, a data or check cell is dark exactly where `m` inverts it. |
| Planner.PatternShown | coding/qr.go:1045-1055 | A pattern cell shows only its pattern and format bit; the mask leaves it alone. |
| Planner.MasksOf | coding/qr.go:547-562 | What the mask step leaves is the plan of each mask. |
| Planner.PixelsOf | coding/qr.go:547 | The plan's pixel map is lplan's. |
| MaskChoice.Candidate | coding/qr.go:707-712 | A candidate has the layer's length. |
| MaskChoice.CandidateShows | coding/qr.go:707-712 | A candidate shows masked grid `k` XOR-ed with the codeword layer. |
| MaskChoice.FirstMin | coding/qr.go:704-717 | The index of the least penalty that no earlier penalty ties. |
| MaskChoice.BestNext | coding/qr.go:713-715 | Replacing the best only on a strictly smaller penalty keeps the first least. |
| MaskChoice.ChooseMask | coding/qr.go:700-718 | The code returned is candidate `k`, where `k` is the first of the eight with the least penalty. |
| MaskChoice.Round | coding/qr.go:706-716 | One round scores a candidate and swaps it in when it is strictly better. |
| MaskChoice.Score | coding/qr.go:707-713 | A candidate's penalty is below 2 << 30. |
| MaskChoice.Fill | coding/qr.go:707-712 | Copy and XOR give the candidate. |
| MaskChoice.XorInto | coding/qr.go:710-712 | `a[i] ^= d[i]` for every `i`. |
| Encoder.BytesFromBits | coding/qr.go:675-676 | Byte strings with the same bits are the same. |
| Encoder.AssembledUnique | coding/qr.go:675-676 | The segments determine the codewords. |
| Encoder.CodewordsUnique | coding/qr.go:663-676 | The texts determine their codewords. |
| Encoder.LayDataBits | coding/qr.go:686-696 | Exactly the data and check cells whose codeword bit is 1 are flipped. |
| Encoder.LayRow | coding/qr.go:687-695 | One row of the pixel loop. |
| Encoder.DataLayer | coding/qr.go:680-696 | With one mask, the layer is the plan's grid XOR the codeword cells. With eight, it is the codeword cells alone. |
| Encoder.Finish | coding/qr.go:675-676 | `AddCheckBytes` then `Bytes` gives the symbol's codewords. |
| Encoder.DataCodewords | coding/qr.go:663-676 | The first failing text is reported by its index. More bits than `8 * DataBytes` are reported with both counts. Otherwise the codewords come out. |
| Encoder.Draw | coding/qr.go:678-720 | The code has the plan's size, and each cell is the plan's grid XOR the codeword layer. With eight grids it is the first masked grid of least penalty. |
| Encoder.Encode | coding/qr.go:663-720 | The error cases are as in `DataCodewords`, in the source's order. On success the code is `Painted` from the plan and the codewords. When every text fits its count field, the codewords are those of the texts. |
| Symbols.PlanUsable | coding/qr.go:530-563 | A plan from NewPlan is one Encode can use. |
| Symbols.CellOffset | coding/qr.go:686-693 | A data or check cell names a bit of the codewords, so `bytes[o / 8]` is in range. |
| Symbols.DataWithin | coding/qr.go:47-51 | The data bytes are part of the symbol's bytes. |
| Symbols.GridInUse | coding/qr.go:704-719 | The grid the code was drawn from is the plan of the mask in use. |
| Symbols.DataCell | coding/qr.go:663-720 | In the finished code, each data or check cell shows its codeword bit, inverted where the mask in use inverts it. |
| Capacity.NoAlignOne | coding/qr.go:834-853 | Version 1 draws no alignment box: its one candidate, at (4, 4), overlaps the top-left box and is skipped. |
| Capacity.FreeCellsOne | coding/qr.go:805-901 | vplan leaves a cell of a version-1 symbol free exactly when `FreeOne` holds: columns 9 to 12 outside the timing row, rows 9 to 20 right of column 12, and rows 9 to 12 left of column 9 outside column 6. |
| Capacity.FreeStepsOne | coding/qr.go:1017-1039 | The sweep's free steps for version 1 are the steps whose cell `FreeOne` holds for. |
| Capacity.BaseOne | coding/qr.go:1017-1039 | Pair `q` of a version-1 symbol starts at step `42 q`. |
| Capacity.RunOne | coding/qr.go:1017-1039 | A run of rows of one pair that are all free, or all claimed, adds twice its length to the count, or nothing. |
| Capacity.RightUpOne | coding/qr.go:1017-1024 | Pairs 0 and 2 of a version-1 symbol hold 24 free cells each. |
| Capacity.RightDownOne | coding/qr.go:1029-1036 | Pairs 1 and 3 hold 24 free cells each. |
| Capacity.MiddlePairsOne | coding/qr.go:1017-1039 | Pairs 4 and 5, between the top boxes, hold 40 free cells each. |
| Capacity.LeftUpOne | coding/qr.go:1017-1024 | Pairs 6 and 8 hold 8 free cells each. |
| Capacity.LeftDownOne | coding/qr.go:1029-1036 | Pairs 7 and 9 hold 8 free cells each. |
| Capacity.CountOne | coding/qr.go:1012-1040 | The ten pairs together hold 208 free cells. |
| Capacity.FreeCountOne | coding/qr.go:1012-1040 | The sweep of a version-1 symbol visits exactly 208 free cells. |
| Capacity.FitsOne | coding/qr.go:944-1042 | For version 1, at every level, the free cells number exactly the `8 * 26` data and check bits. So `Fits` and `Covers` hold: lplan and NewPlan succeed, and every data and check bit sits in exactly one cell. |
| Symbols.PatternCell | coding/qr.go:805-940 | Each pattern cell of the finished code shows its pattern and the format bits of the mask in use, untouched by data and mask. |

## Left out

- The Reed–Solomon encoder and GF(256) (`gf256.NewField`, `NewRSEncoder`, `rs.ECC`) are a foreign package. They are the function parameter `ecc`; only the block loop around them is modelled.
- The Shift-JIS conversion in `Kanji.Check` and `Kanji.Encode` is a foreign codec. A Kanji text is given as the conversion's result: a success flag and the bytes. `Kanji.Bits`, which counts the UTF-8 text's runes, is not modelled. `Plan.Encode` never calls it.
- Go strings are byte strings. The rune loops of `Num.Check` and `Alpha.Check` are modelled on bytes. That is equivalent because every accepted character is ASCII, and any non-ASCII byte fails both ways.
- `autoPlan`, `makeAutoPlan`, `NewAutoPlan`, `AutoPlan.Encode` and the top-level `Encode` are not modelled. Their point is `sync.Once` memoisation.
- The `String` methods and the `fmt`, `strconv` and `println` calls are not modelled. They only format text.
- Errors are values rather than formatted strings. `Plan.Encode` reports `BadText(i)` for the first failing text and `TooLong(bits, capacity)`. `NewPlan` reports `InvalidVersion`, `InvalidLevel` or `InvalidMask`.
- `Bits.Bits()` is the function `BitLen`.
- The panics "fractional byte" and "invalid pad size" are preconditions, since they are caller errors.
- The panics "too much data", "data/check math", "dst math" and "qr: internal error" are proved unreachable.
- Planner.NewPlan: the source ignores lplan's error. A sweep that runs out of source pixels would be an index panic there; here it is the outcome `SweepOverrun`. That `Fits` holds is proved for version 1 at every level (`Capacity.FitsOne`), so version 1 never gives `SweepOverrun`. For versions 2 to 40 it is not proved: each would need its own count of free cells, as `Capacity` does for version 1.
- LevelPlan.LPlan: the sweep's failure is the `ok` flag, with `ok <==> Fits`, for the same reason. `ok` is proved to hold for version 1 only.
- LevelPlan.LevelCovered: that every data and check bit gets a cell needs `Covers`. It is proved for version 1 (`Capacity.FitsOne`) and not for versions 2 to 40, for the same reason. `LevelApart`, the other half, holds for every version where the sweep fits.
- Encoder.Encode: the codewords are pinned down only when every text fits its count field. A count too wide for its field is written by `Write` over earlier bits, and the model states only the bit count then.
- Encodings.NumEncode, Encodings.AlphaEncode, Encodings.StringEncode and Encodings.KanjiEncode state their exact contents only for valid texts whose length fits the count field, for the same reason. They always state the length.
- BitWriter.Bits.Write states that earlier full bytes are kept, and that the contents are the old contents plus the new bits only when `v` fits `count` bits. A wider `v` is OR-ed into the partly filled byte, as in the source.
- The `vtab` table is constant data. Each entry is checked for well-formedness, and no other property is proved about every entry.
- Go's fixed-width integers are modelled where they matter:
  - `uint` conversions are reduced modulo 2^64 (`Uint64`).
  - Pixel offsets are reduced modulo 2^28 by the `uint32` shift.
  - `uint16` pattern words are reduced modulo 2^16.
  - `uint8` bytes are reduced with `OrByte`.
- Encoder.Encode requires a plan that NewPlan can return (`Usable`, proved by `Symbols.PlanUsable`). A `Plan` assembled by hand is outside the model.
- Slices are arrays and sequences. Aliasing between `p.Code.Bitmap` sub-slices is modelled by a base offset into one array.

## Findings

| source | as written | input that shows it | evidently intended | confidence | as-written member | corrected member |
|---|---|---|---|---|---|---|
| coding/qr.go:250-251 | When the Shift-JIS conversion succeeds but gives an odd number of bytes, the guard calls `err.Error()` on a nil error, which panics. | `Kanji("A")` converts without error to the single byte 0x41 | Skip the segment and write nothing, as for a failed conversion | not executed | Encodings.KanjiGuardPanics | Encodings.KanjiEncode |
