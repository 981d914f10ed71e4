# rsync round-trip test fixtures, modelled in Dafny

kitty's rsync package is exercised by `TestRsyncRoundtrip` in
`tools/rsync/api_test.go`. The test builds a source buffer with
`generate_data`, copies it, damages the copy with `patch_data`, runs the
rsync engine on the pair twice, once on its in-memory operations and once
through the serialized signature and delta format, and after each run checks
two things. `test_equal` compares the engine's output with the expected bytes
and reports the first differing index. The efficiency check computes
`limit = 2 * BlockSize * num_of_patches`; when that limit is not negative the
delta may carry no more literal bytes than it, and a negative limit (the test
passes `num_of_patches = -1` for this) switches the check off.

This project models those fixture routines and checks, and proves what they
guarantee:

- `generate_data(block_size, num_of_blocks, extra...)`, module `GenerateData`.
  It allocates, fills with `_`, copies each decimal block number to the start
  of its block and copies the joined extras after the last block. The method
  keeps the source's array, `Memset` and `copy` loop. It is proved equal to a
  specification function `Generated`. Lemmas then pin down the length, the
  trailer and every block: the block number padded with `_`, whenever the
  largest block number fits in a block.
- `patch_data(data, patches...)`, module `PatchData`. It splits each
  `"offset:text"` patch at the first `:`, adds the text length to
  `total_patch_size`, parses the offset with `strconv.Atoi` and copies the
  text into the array in place. It panics on a bad offset. The method is
  proved equal to `PatchOutcome` and `Patched`. Around those:
  - the panic is an `Outcome` value naming the failing patch and why;
  - overlapping writes resolve to the last one;
  - untouched bytes keep their values;
  - the counted size is the full text length even where `copy` truncates.
- The `test_equal` closure and the delta-efficiency check of
  `run_roundtrip_test`, module `RoundtripTest`. The first-difference scan keeps
  its Go shape: a loop with `break`, proved against `FirstMismatch`.
  The limit is computed in 64-bit wrap-around arithmetic.
- The data of `TestRsyncRoundtrip` itself, module `Fixtures`. It covers both
  generated buffers and the outcome of each `patch_data` call.

Go's built-ins and the library calls the fixtures use get their own small
modules:
- `Go`: `byte`, 64-bit `int` wrap-around and `copy` into a slice suffix.
- `Utils`: `utils.Min` and `utils.Memset`.
- `Strconv`: `strconv.Itoa` and `strconv.Atoi`.
- `Strings`: `strings.Cut` and `strings.Join`.

These modules follow Go's documented behaviour. The helpers in
`tools/utils` and Go's standard library are not part of this model's source
files.

## Model

| member | source | states |
|---|---|---|
| Go.Wrap64 | tools/rsync/api_test.go:76 | Go `int` arithmetic wraps into the 64-bit range: the result is in range and congruent to the input modulo 2^64, hence equal to it when the input is in range and the input minus 2^64 just above it |
| Go.CopyCount | tools/rsync/api_test.go:148 | `copy(dst[off:], src)` transfers at most `len(src)` bytes and never past the end of `dst`, and it stops only at one of those two bounds |
| Go.Overwrite | tools/rsync/api_test.go:148 | `copy` into a slice suffix never changes the slice's length |
| Go.Copy | tools/rsync/api_test.go:136-138 | the in-place `copy` loop returns the transferred count and leaves the array equal to `Overwrite` of its old contents |
| Utils.Min | tools/rsync/api_test.go:33 | the result is one of the two arguments and no larger than either |
| Utils.Memset | tools/rsync/api_test.go:133 | every byte of the array becomes the pattern |
| Strconv.Itoa | tools/rsync/api_test.go:136 | the decimal text is never empty and starts with `-` exactly for negative numbers |
| Strconv.Atoi | tools/rsync/api_test.go:147 | a successful parse is a 64-bit `int` and the text starts with a digit or a sign |
| Strconv.ParseDigitsOfDigits | tools/rsync/api_test.go:136 | reading back the decimal digits of `n` gives `n` |
| Strconv.AtoiItoa | tools/rsync/api_test.go:136 | `Atoi(Itoa(i)) == i` for every 64-bit `int`, so the block numbers `generate_data` writes parse back |
| Strconv.DigitCountMonotone | tools/rsync/api_test.go:136 | a larger block number never has fewer digits, so the last block number is the widest |
| Strconv.AtoiRejectsNonDigit | tools/rsync/api_test.go:147-150 | any byte that is neither a digit nor a leading sign makes the offset parse fail, which is the panic path |
| Strings.Cut | tools/rsync/api_test.go:145 | with a separator, the patch is `before + ":" + after` and `before` has no `:`; without one, `before` is the whole patch and `after` is empty |
| Strings.CutAt | tools/rsync/api_test.go:145 | `Cut` splits at the first separator: any split whose left part holds no separator is the one it returns |
| Strings.Join | tools/rsync/api_test.go:131 | the joined string is as long as all extras together |
| Strings.JoinElement | tools/rsync/api_test.go:131 | extra `k` appears in the joined string right after the extras before it, in argument order |
| GenerateData.BlockStart | tools/rsync/api_test.go:135 | the `offset` of block `i`, written as repeated addition of `block_size`; `BlockStartIsProduct` proves it is `i * block_size` and `BlockStartMonotone` that blocks follow each other without overlap |
| GenerateData.BlockStartIsProduct | tools/rsync/api_test.go:135 | the start of block `i` is `i * block_size` |
| GenerateData.BlockStartMonotone | tools/rsync/api_test.go:134-135 | each block ends at or before the start of any later block |
| GenerateData.Labels | tools/rsync/api_test.go:134-136 | definition: the labels the loop copies, one per block, label `i` being `strconv.Itoa(i)`; `LabelsFitInBlocks` and `AtoiItoa` state their properties |
| GenerateData.Blank | tools/rsync/api_test.go:132-133 | definition: the buffer after allocation and `Memset`, the requested length of `_`; `Utils.Memset` is proved to produce it |
| GenerateData.Padded | tools/rsync/api_test.go:133-136 | a block as intended: exactly `block_size` bytes, the label first and `_` after it |
| GenerateData.LabelsFitInBlocks | tools/rsync/api_test.go:134-136 | if the last block number fits in a block, every block number does |
| GenerateData.Labelled | tools/rsync/api_test.go:134-137 | copying the labels into their blocks keeps the buffer's length |
| GenerateData.LabelledStep | tools/rsync/api_test.go:136 | when every label fits its block, one copy of a label changes only the bytes the label covers at the start of its block |
| GenerateData.LabelledBeyond | tools/rsync/api_test.go:134-137 | when every label fits its block, the label loop never changes a byte at or after the end of the last block (a wider label does spill past it) |
| GenerateData.LabelledAt | tools/rsync/api_test.go:134-137 | when every label fits its block, byte `j` of block `i` after the loop is byte `j` of label `i`, or the old byte past the label |
| GenerateData.LabelsStep | tools/rsync/api_test.go:134-137 | each loop iteration adds exactly one copy, of `Itoa(i)` at offset `i * block_size` |
| GenerateData.LayoutBlockRegion | tools/rsync/api_test.go:138 | the trailer copy leaves the block region as the loop left it |
| GenerateData.LayoutTrailer | tools/rsync/api_test.go:138 | everything after the block region is the trailer |
| GenerateData.LayoutBlockByte | tools/rsync/api_test.go:133-137 | when labels fit, byte `j` of block `i` is byte `j` of the padded label |
| GenerateData.LayoutBlock | tools/rsync/api_test.go:133-137 | when labels fit, block `i` is label `i` padded with `_` to the block size |
| GenerateData.Layout | tools/rsync/api_test.go:132 | room for every block and the trailer: length is the block region plus the trailer |
| GenerateData.Generated | tools/rsync/api_test.go:130-132 | the buffer `generate_data` returns, `num_of_blocks` blocks followed by the joined extras |
| GenerateData.GeneratedLength | tools/rsync/api_test.go:130-132 | the length is exactly `num_of_blocks*block_size` plus the total length of the extras |
| GenerateData.GeneratedTrailer | tools/rsync/api_test.go:131-138 | the bytes from `num_of_blocks*block_size` on are the extras concatenated in argument order |
| GenerateData.GeneratedBlock | tools/rsync/api_test.go:133-137 | if the last block number fits in a block, bytes `i*block_size ..` of block `i` hold `Itoa(i)` followed by `_` up to the block end |
| GenerateData.WriteLabels | tools/rsync/api_test.go:134-137 | the loop copies every block number to its block in order, leaving the array equal to `Labelled` of its old contents |
| GenerateData.GenerateData | tools/rsync/api_test.go:130-140 | the freshly allocated array equals `Generated(block_size, num_of_blocks, extra)` |
| PatchData.ParsePatch | tools/rsync/api_test.go:145-151 | a patch that parses writes its text after the first `:` at an offset inside the buffer; the other outcomes are the two panics |
| PatchData.ParseFormatted | tools/rsync/api_test.go:145-147 | a patch written as decimal offset, `:` and text parses back to exactly that offset and text |
| PatchData.ParseWithoutColon | tools/rsync/api_test.go:145-147 | a patch without `:` is all offset and writes nothing |
| PatchData.ApplyWrites | tools/rsync/api_test.go:144-149 | applying the copies in order never changes the buffer's length |
| PatchData.LastCover | tools/rsync/api_test.go:144-149 | finds the last write that reaches byte `p` before the buffer end; no later write reaches it, and `None` means no write does |
| PatchData.ApplyWritesAt | tools/rsync/api_test.go:144-149 | byte `p` after the writes comes from the last write covering it, and is unchanged when no write covers it |
| PatchData.WrittenWithinCounted | tools/rsync/api_test.go:146-148 | the counted text is never less than what `copy` writes, and equals it exactly when no write is truncated at the buffer end |
| PatchData.FirstFailure | tools/rsync/api_test.go:144-151 | every patch before the returned index parses and the one at it does not: it is where the loop panics |
| PatchData.FirstFailureShift | tools/rsync/api_test.go:144-151 | a parsing first patch extends the run of parsing patches after it by one |
| PatchData.Writes | tools/rsync/api_test.go:144-148 | definition: the parsed writes, one per patch in patch order; its contract adds that every offset lies inside the buffer |
| PatchData.TotalPatchSize | tools/rsync/api_test.go:146 | `total_patch_size`, the summed lengths of the text after each first `:`: never more than the patches' own total length, and zero when no patch has a `:`; `TotalPatchSizeOfWrites` ties it to the parsed writes' texts and `FormattedSize` to the texts the test formats |
| PatchData.TotalPatchSizeSnoc | tools/rsync/api_test.go:144-146 | each loop iteration adds the current patch's text length to `total_patch_size` |
| PatchData.TotalPatchSizeOfWrites | tools/rsync/api_test.go:146 | `total_patch_size` is the summed text length of the parsed writes |
| PatchData.PatchOutcome | tools/rsync/api_test.go:142-154 | the call returns exactly when every patch parses, with the count `len(patches)` and `total_patch_size`; otherwise it panics at the first patch that fails, after all earlier ones parsed |
| PatchData.Patched | tools/rsync/api_test.go:142-154 | the buffer keeps its length; it holds the writes of every patch before the panic |
| PatchData.ApplyWritesSnoc | tools/rsync/api_test.go:148 | one more write is one more copy on top of the earlier ones |
| PatchData.WritesSnoc | tools/rsync/api_test.go:144-148 | a parsing patch after a parsed prefix appends its write |
| PatchData.PatchStep | tools/rsync/api_test.go:144-148 | one loop iteration: the patch's write is copied on top and its text length added to the total |
| PatchData.FirstFailureAt | tools/rsync/api_test.go:147-150 | a failing patch after parsed ones is the first failure |
| PatchData.PanicAt | tools/rsync/api_test.go:149-151 | the panic names the failing patch, and the buffer holds the writes of the patches before it |
| PatchData.CompleteAll | tools/rsync/api_test.go:152-153 | when every patch parses, the call returns `(len(patches), total_patch_size)` after all writes |
| PatchData.Formatted | tools/rsync/api_test.go:160 | one patch per offset and text, as the test writes them |
| PatchData.FormattedSize | tools/rsync/api_test.go:146 | for formatted patches, `total_patch_size` is the total length of their texts |
| PatchData.FormattedOutcome | tools/rsync/api_test.go:142-154 | formatted patches with offsets inside the buffer all apply, and the call returns their count and total text length |
| PatchData.PatchData | tools/rsync/api_test.go:142-154 | the loop's result is `PatchOutcome` and the array becomes `Patched` of its old contents |
| RoundtripTest.FirstMismatch | tools/rsync/api_test.go:33-39 | the first differing index, at most the shorter length, with all bytes before it equal and the bytes at it different when both have one |
| RoundtripTest.FirstMismatchUnique | tools/rsync/api_test.go:33-39 | any index with that description is the first mismatch |
| RoundtripTest.EqualIffNoMismatch | tools/rsync/api_test.go:32 | two buffers are equal exactly when their lengths agree and the first mismatch is at the end |
| RoundtripTest.FirstDifference | tools/rsync/api_test.go:33-39 | the `break` loop starting from `utils.Min` of the lengths returns the first mismatch |
| RoundtripTest.TestEqual | tools/rsync/api_test.go:31-43 | `test_equal` reports nothing exactly when the output equals the expected data; otherwise it reports the length difference and the first differing index |
| RoundtripTest.MismatchInformative | tools/rsync/api_test.go:40-41 | a report always shows something: a differing byte inside both buffers, or a nonzero length difference |
| RoundtripTest.PoorDeltaPerformance | tools/rsync/api_test.go:77 | the check's condition `limit > -1 && total_data_in_delta > limit`; it never fires on a delta without literal data. `PoorDeltaPerformanceIff` proves both directions of when it fires without overflow |
| RoundtripTest.DeltaLimit | tools/rsync/api_test.go:76 | the limit is a 64-bit `int` |
| RoundtripTest.DeltaLimitExact | tools/rsync/api_test.go:76 | without overflow the limit is twice the block size per patch |
| RoundtripTest.PoorDeltaPerformanceIff | tools/rsync/api_test.go:76-77 | with a positive block size and no overflow, the check fires exactly when the patch count is non-negative and the delta data exceeds twice the block size per patch |
| RoundtripTest.NoPatchesClaimedDisablesCheck | tools/rsync/api_test.go:164 | for a positive block size whose double fits in 64 bits, `num_of_patches = -1` switches the check off whatever the delta size; outside that range the wrapped limit can be non-negative and the check can still fire |
| RoundtripTest.ZeroPatchesAllowNoLiteralData | tools/rsync/api_test.go:165 | with `num_of_patches = 0` the check fires on any literal byte |
| RoundtripTest.DeltaLimitWraps | tools/rsync/api_test.go:76-77 | a product that overflows can wrap the limit negative and switch the check off |
| Fixtures.FirstSourceData | tools/rsync/api_test.go:157-158 | `generate_data(16, 16)` is 256 bytes with every label fitting, and block 15 is `15` followed by fourteen `_` |
| Fixtures.FirstPatchList | tools/rsync/api_test.go:160 | the five patches are the decimal offsets 3, 16, 130, 176, 222 with their texts |
| Fixtures.FirstTextsLength | tools/rsync/api_test.go:160 | the five replacement texts total 27 bytes |
| Fixtures.FirstPatches | tools/rsync/api_test.go:160 | the first `patch_data` call returns `(5, 27)` on the 256-byte buffer |
| Fixtures.SecondSourceData | tools/rsync/api_test.go:169-170 | `generate_data(13, 17, "trailer")` is 228 bytes with every label fitting, ending in `trailer` |
| Fixtures.SecondPatches | tools/rsync/api_test.go:172 | the second `patch_data` call returns `(2, 12)` on the 228-byte buffer |

## Left out

- The rsync engine is not part of this model (tools/rsync/api_test.go:46-72, 83-122). That covers the signature iterators, delta creation and application, and the serialized differ/patcher session, all defined in other files. `total_data_in_delta` is therefore a parameter of the efficiency check, and so is the engine's `BlockSize`.
- Readers, buffers and the `io.EOF` loops around the engine are I/O plumbing.
- `t.Fatalf`, `prefix_msg` and `fmt.Sprintf` are left out as reporting only. `test_equal`'s failure is returned as a `Mismatch` value carrying the two numbers the message prints.
- The engine's output buffers that `test_equal` receives at lines 75 and 124 depend on the engine and are not modelled. The `changed` buffers of lines 162-175 are only engine inputs, so they are left out: the slices `src_data[block_size:]` and `changed[:len(changed)-3]`, and the results of `append`. The second run of the efficiency check (line 125) uses the same predicate as the first.
- Strconv.Atoi: syntax errors and range errors are not told apart; both are `None`, and both make `patch_data` panic.
- Strings.Cut: only the one-byte separator `:` the fixtures use is modelled.
- GenerateData.GenerateData: sizes are natural numbers, so negative sizes are excluded altogether. In Go they take several paths:
  - `make` panics when `num_of_blocks*block_size + len(e)` is negative.
  - Otherwise, with both sizes negative the product is positive, the label loop does not run, and the result is that many `_` followed by the extras.
  - With a negative `block_size` and `num_of_blocks >= 2`, slicing `ans[offset:]` at line 136 panics.
  - With a negative `num_of_blocks` and a positive `block_size`, the loop does not run and slicing at line 138 panics.

  A `num_of_blocks*block_size` product that overflows 64 bits is not modelled either.
- Go's `int` is taken to be 64 bits wide, as on 64-bit targets: `Go.Wrap64`, the range `Strconv.Atoi` accepts and `RoundtripTest.DeltaLimit` all depend on it. On 32-bit targets Go's `int` is 32 bits, which is not modelled.
- GenerateData.GeneratedBlock: needs the largest block number to fit in a block, which the source does not check. A wider label spills into the next block, and the next label then overwrites its start. Blocks in that case are not characterised; only their length and trailer are (`GeneratedLength`, `GeneratedTrailer`).
- PatchData.PatchData: the panic is returned as a `Panicked` outcome. After it, no result is observable, so the text length added for the failing patch before the panic is not reported.
- Go.Copy: Go's `copy` may overlap source and destination; here the source is always a fresh string, so overlap is not modelled.
