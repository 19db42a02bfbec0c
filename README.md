# repl_expect value-decoding cursor, in Dafny

This project models how `roc_repl_expect` reads the values of a failed
expectation's variables back out of the buffer the compiled test program
shares with the reporter. The model has three layers. Each layer is a Dafny
module.

- `Memory` (memory.dfy) models `ExpectMemory` (crates/repl_expect/src/app.rs).
  It is a class over the buffer's bytes (`bytes: seq<byte>`, a byte being an integer 0..255) with a mutable
  `bytesRead` counter.
  - `DerefNum` covers the fifteen `deref_*` reads of the `deref_number!`
    macro. One `NumKind` table gives the width of each type.
  - `DerefStr` reads the three-word `RocStr` record. The record is in the
    small form when its last byte, read as an `i8`, is negative. Otherwise
    word 0 is the payload's offset from `start` and word 1 is its length.
  - `Perform` stands for the body of a transform callback: it makes a list
    of reads in order.
  - The pure functions `StrAt`, `Word` and `ValuesOf` say what the reads
    return. The producer-side encoders `EncodeSmall` and `EncodeLarge` are
    partners for the round-trip lemmas.
- `App` (app.rs) models `ExpectReplApp` as a class with an `offset` field.
  Each `CallFunction*` method does the same steps as the source: reset
  `bytesRead`, run the transform, then advance `offset`.
- `Expect` (expect.dfy) models `get_values` in crates/repl_expect/src/lib.rs.
  - `GetValues` creates the memory and the cursor, then loops over the
    variables. It stops at the first failure.
  - Its contract ties the result to the function `DecodeAll`.
  - `ExpectProperties` proves about `DecodeAll`: the order of the results,
    fail-fast, success when no call fails, and the empty list.

Everything outside the cursor enters as a parameter:

- `layoutOf` stands for `LayoutCache::from_var`. Its `.unwrap()` becomes the
  precondition `Resolves`: every variable the loop reaches has a layout, that
  is each one up to and including the first whose `jit_to_ast` fails.
  Variables after that failure are never resolved, so their layouts may be
  missing.
- `toAst` stands for `jit_to_ast`. For each layout it returns a `Call`: the
  cursor call `jit_to_ast` would make, with the reads its transform performs,
  or a failure.
- Words are 8 bytes and little-endian, as on the 64-bit hosts the source
  hard-codes (`call_function_returns_roc_str` passes 24 as the return size).

Two counts follow the code exactly and are easy to get wrong:

- `deref_str` adds `WIDTH` (24) to the counter on both paths, not
  `WIDTH - 1`. Small path: the 1-byte probe plus `WIDTH - 1`. Large path:
  the probe, three words, then minus 1.
- `call_function_returns_roc_str` counts its own probe in `bytes_read`: 1
  byte, plus 1 word when the record is large. So an 8-byte integer followed
  by a small string whose transform decodes it with `deref_str` ends at 33,
  not at 8 + 24 = 32 (`ExpectProperties.IntThenSmallString`).

## Model

| member | source | states |
|---|---|---|
| `Memory.SizeOf` | crates/repl_expect/src/app.rs:24-41 | every primitive read is between 1 and 16 bytes wide |
| `Memory.FromLE` | crates/repl_expect/src/app.rs:31 | a `usize` read from `w` bytes is below 256^w |
| `Memory.FromToLE` | crates/repl_expect/src/app.rs:59-61 | a word written little-endian reads back as the same number |
| `Memory.ToI8` | crates/repl_expect/src/app.rs:33 | a byte read as `i8` lies in -128..127 |
| `Memory.ToI8NegativeIffHighBit` | crates/repl_expect/src/app.rs:47-49 | the `i8` probe is negative exactly when the byte's high bit is set |
| `Memory.StrAt` | crates/repl_expect/src/app.rs:43-73 | a small record yields fewer than `WIDTH` inline bytes; a large one yields exactly word-1 (length) bytes |
| `Memory.SmallRoundTrip` | crates/repl_expect/src/app.rs:44-57 | a record written in the small form is classified small and decodes to the text written, the empty text included, whatever bytes fill the inline part after the text |
| `Memory.LargeRoundTrip` | crates/repl_expect/src/app.rs:59-70 | a record of offset, length and capacity words (capacity below 2^63) is classified large and decodes to the `length` bytes at `offset`; capacity plays no part |
| `Memory.ValuesOf` | crates/repl_expect/src/app.rs:103 | a transform's reads yield one value per read, in order |
| `Memory.ExpectMemory.constructor` | crates/repl_expect/src/lib.rs:30-33 | the memory starts with nothing read |
| `Memory.ExpectMemory.DerefNum` | crates/repl_expect/src/app.rs:13-41 | returns the `size_of::<T>()` bytes at `addr` with no alignment requirement and adds exactly `size_of::<T>()` to the counter |
| `Memory.ExpectMemory.DerefI8` | crates/repl_expect/src/app.rs:33 | returns the byte at `addr` as an `i8` and adds 1 |
| `Memory.ExpectMemory.DerefUsize` | crates/repl_expect/src/app.rs:31 | returns the little-endian word at `addr` and adds 8 |
| `Memory.ExpectMemory.DerefStr` | crates/repl_expect/src/app.rs:43-73 | returns `StrAt` and adds exactly `WIDTH` on both paths; the `-= 1` never takes the counter below zero (the counter is a `nat`) |
| `Memory.ExpectMemory.Perform` | crates/repl_expect/src/app.rs:103 | a transform's reads add the sum of their widths to the counter and return `ValuesOf` |
| `App.ProbeCost` | crates/repl_expect/src/app.rs:130-139 | the probe's reads (the tag byte as `i8`, then the `usize` length word only for a large record) cost 1 byte for a small record and 1 + 8 for a large one, and 1 exactly when the record is small |
| `App.HeapLength` | crates/repl_expect/src/app.rs:136-144 | nothing is skipped after a small record; after a readable large record the skip is exactly the length of the string `deref_str` returns for it |
| `App.ExpectReplApp.constructor` | crates/repl_expect/src/lib.rs:35-38 | the cursor starts at `start_offset` over the given memory |
| `App.ExpectReplApp.CallFunction` | crates/repl_expect/src/app.rs:88-108 | the transform gets the return slot's bytes; the counter ends at what the transform read; the offset moves by the slot size plus that |
| `App.ExpectReplApp.CallFunctionReturnsRocList` | crates/repl_expect/src/app.rs:110-116 | same as `CallFunction` with a 3-word (24-byte) slot |
| `App.ExpectReplApp.CallFunctionDynamicSize` | crates/repl_expect/src/app.rs:153-170 | the transform gets the current offset as its address; the offset moves by exactly what it read; `retBytes` has no effect |
| `App.ExpectReplApp.CallFunctionReturnsRocStr` | crates/repl_expect/src/app.rs:118-147 | the offset moves by the probe (1, or 1 + 8 when large), the transform's reads, and the string length when large (0 when small) |
| `Expect.Advance` | crates/repl_expect/src/app.rs:88-170 | a call never moves the cursor back; a failed `jit_to_ast` does not move it |
| `Expect.Outcome` | crates/repl_expect/src/lib.rs:57-66 | a call's result is an error exactly when `jit_to_ast` fails |
| `Expect.JitToAst` | crates/repl_expect/src/lib.rs:57-66 | dispatches to the cursor call the layout picks, with that call's result and offset |
| `Expect.DecodeAll` | crates/repl_expect/src/lib.rs:42-74 | on success there is one expression per variable and the final offset is at least the start offset |
| `Expect.OffsetAfter` | crates/repl_expect/src/lib.rs:35-59 | each variable is decoded where the previous one left the shared cursor, never before the start offset |
| `Expect.Calls` | crates/repl_expect/src/lib.rs:42-57 | one `jit_to_ast` call per variable |
| `Expect.GetValues` | crates/repl_expect/src/lib.rs:19-75 | one cursor from `start_offset` with nothing read goes through the variables in order; the result is `DecodeAll`: the final offset and the expressions, or the first error |
| `ExpectProperties.DecodeAllInOrder` | crates/repl_expect/src/lib.rs:42-74 | on success no call failed; expression `i` is what call `i` returns at the offset where call `i-1` ended; the returned offset is the one after the last call |
| `ExpectProperties.FirstFailureReturned` | crates/repl_expect/src/lib.rs:57-66 | the first failing call's error is the result, with no partial list, whatever follows it |
| `ExpectProperties.DecodeAllSucceeds` | crates/repl_expect/src/lib.rs:42-74 | with no failing call the run succeeds |
| `ExpectProperties.NoVariables` | crates/repl_expect/src/lib.rs:28-42 | an empty variable list gives `Ok((start_offset, []))` |
| `ExpectProperties.FailureBeforeUnresolvedLayout` | crates/repl_expect/src/lib.rs:42-66 | when the first variable's `jit_to_ast` fails, the second variable's layout is never needed (the precondition holds without it) and the result is the first error |
| `ExpectProperties.RocStrWithDerefStr` | crates/repl_expect/src/app.rs:128-146 | with a `deref_str` transform the cursor moves `WIDTH + 1` past a small record, and `WIDTH + 1 + 8 + length` past a large one |
| `ExpectProperties.IntThenSmallString` | crates/repl_expect/src/app.rs:88-146 | an 8-byte integer followed by a small string decodes to the integer's bytes and the text, and the final offset is 33, for any bytes after the text in the record |

## Left out

- 32-bit targets: a word is fixed at 8 bytes and `WIDTH` at 24.
- Host endianness: words are read little-endian.
- Integer width: `bytesRead` and `offset` are unbounded `nat`s. `usize` overflow of `+=` is not modelled. The subtraction in `deref_str` is proved never to go below zero.
- Float and bool meaning: numeric reads return raw bytes.
- UTF-8: `from_utf8_unchecked` trusts the producer, so strings are byte sequences.
- Small-string length: `RocStr::as_str` lives in roc_std, which is not part of this model. The model uses roc_std's convention: the last byte holds the length with the high bit set, and the text is the record's first `length` bytes. A length above 23 is excluded by precondition, because the source would read outside the record.
- Unchecked reads: every read past the buffer is undefined behaviour in the source. It becomes a precondition (`Readable`, `StrReadable`, `CallReadable`, `Decodable`).
- `call_function` reads the return slot with `ptr.read()`. The model reads it as a slice, without alignment.
- Closures: Dafny has no closures that read mutable state. The transform of `call_function_returns_roc_str` is written out inside `CallFunctionReturnsRocStr`, and there is no call to `CallFunctionDynamicSize`. A transform is modelled by the list of reads it makes, and its expression by what it was given plus the values it read.
- `jit_to_ast`, `LayoutCache::from_var`, `Subs`, `ProcLayout`, `Interns` and `TargetInfo`: these are function parameters. A `jit_to_ast` failure is modelled as happening before any read. The error carries no offset, so this is not observable in the result.
- A layout that does not resolve panics in the source (`.unwrap()`). Here it is the precondition `Resolves`, which asks it only of the variables the loop reaches.
- Pointer provenance, lifetimes and arena allocation: offsets into one byte sequence replace them.
- The test module of crates/repl_expect/src/lib.rs: it compiles Roc programs, maps shared memory and loads a dynamic library.
- editor/src/editor/resources/strings.rs: it holds only string constants.
