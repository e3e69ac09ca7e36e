# Flipper Zero storage API: a verified model

This project models the self-contained logic of the Flipper Zero storage
binding (`crates/flipperzero/src/storage.rs`). The foreign firmware calls
behind that logic are abstracted away.

- `errors.dfy`: module `Common` holds the machine integer widths. Module
  `Errors` holds the `Error` enum and its translation to and from the
  firmware's `FS_Error` codes (`to_sys`, `from_sys`). The ten codes are
  not visible, so they are a parameter, `FsCodes`. `Distinct` says the
  firmware gives them ten different values.
- `options.dfy`: module `Options` holds the `OpenOptions` builder:
  - `new()` and its seven setters, each a pure function over the two
    `u8` bit fields;
  - `Set`, which names the setters uniformly by `Flag`;
  - `ApplyAll`, a chain of setter calls;
  - `OpenResult`, the verdict of `open`.
  
  The firmware masks `FSAM_*` and `FSOM_*` are a parameter, `ModeBits`.
  `ValidBits` says each mask is one bit, and that the masks of one field
  differ.
- `seeking.dfy`: module `Seeking` holds:
  - `SeekFrom`;
  - the translation `File::seek` makes of a `SeekFrom` into the native
    `(offset, from_start)` pair, plus a corrected translation;
  - class `SeekStream`, a stream with a position and a length. The default
    methods of the `Seek` trait (`rewind`, `stream_position`,
    `stream_len`) run on top of its `seek`.
- `files.dfy`: module `Files`, class `File`, holds `File`'s own `seek`,
  `rewind`, `stream_len`, `stream_position` and `flush`. The native file is
  a position and a size. The native seek is the pure `NativeTarget`.
  `SeekCorrected` is `seek` with the corrected translation of `End`
  described under Findings.
  `failures` scripts, per native seek call, the code the handle's error
  query then reports.
- `writing.dfy`: module `Writing`, class `Sink`, holds the default
  `Write::write_all` loop. It runs over a `write` whose successive answers
  are scripted in `replies`, and the sink records each prefix it accepts.
  `Outcome` is the reference run of `write_all` on a script. The loop is
  proved to follow it exactly, and the properties of `write_all` are
  proved about it.

## Model

| member | source | states |
|---|---|---|
| Errors.ToSys | crates/flipperzero/src/storage.rs:25-38 | every variant maps to one of the ten known codes, the one at the variant's position |
| Errors.FromSys | crates/flipperzero/src/storage.rs:40-54 | defined exactly on the ten known codes (any other code aborts, so it is a precondition); the variant returned maps back to the code |
| Errors.FromSysToSys | crates/flipperzero/src/storage.rs:25-54 | with distinct codes, `from_sys(to_sys(e)) == e` for every variant |
| Errors.ToSysInjective | crates/flipperzero/src/storage.rs:25-38 | with distinct codes, two variants share a code if and only if they are equal |
| Errors.KnownIsImage | crates/flipperzero/src/storage.rs:40-54 | a code is accepted by `from_sys` if and only if some variant maps to it, and `to_sys(from_sys(code)) == code` |
| Options.New | crates/flipperzero/src/storage.rs:126-135 | the default options have no flag set, for any masks |
| Options.Read | crates/flipperzero/src/storage.rs:145-154 | the read bit of the access mode is set when `set` and cleared otherwise; every other access bit and the whole open mode are unchanged |
| Options.Write | crates/flipperzero/src/storage.rs:157-166 | the same for the write bit |
| Options.OpenExisting | crates/flipperzero/src/storage.rs:169-178 | the open-existing bit of the open mode is decided by `set`; every other open bit and the whole access mode are unchanged |
| Options.OpenAlways | crates/flipperzero/src/storage.rs:181-190 | the same for the open-always bit |
| Options.OpenAppend | crates/flipperzero/src/storage.rs:193-202 | the same for the open-append bit |
| Options.CreateNew | crates/flipperzero/src/storage.rs:205-214 | the same for the create-new bit |
| Options.CreateAlways | crates/flipperzero/src/storage.rs:217-226 | the same for the create-always bit |
| Options.SetIsWith | crates/flipperzero/src/storage.rs:145-226 | every setter rewrites only the field its flag lives in, as `old \| BIT` or `old & !BIT` |
| Options.SetDecidesFlag | crates/flipperzero/src/storage.rs:145-226 | after a setter its flag is set exactly when `set` was true |
| Options.SetKeepsOtherFlags | crates/flipperzero/src/storage.rs:145-226 | a setter leaves every other flag, in either field, as it was |
| Options.SetKeepsOtherField | crates/flipperzero/src/storage.rs:145-226 | an access setter leaves the open mode unchanged, and an open setter leaves the access mode unchanged |
| Options.LastSetWins | crates/flipperzero/src/storage.rs:145-226 | two calls of the same setter equal the last one alone; with equal arguments this is idempotence |
| Options.SettersCommute | crates/flipperzero/src/storage.rs:145-226 | setters of different flags can be called in either order |
| Options.ChainLastWins | crates/flipperzero/src/storage.rs:126-226 | in a chain of setters each flag is decided by its last setter, and a flag no setter touches keeps its value |
| Options.ChainFromNew | crates/flipperzero/src/storage.rs:126-226 | a chain started from `new()` sets exactly the flags whose last setter passed `true` |
| Options.ChainFromNewHasNoStrayBits | crates/flipperzero/src/storage.rs:126-226 | a chain started from `new()` sets no bit outside the masks of each field |
| Options.OpenResult | crates/flipperzero/src/storage.rs:228-244 | `open` succeeds exactly when the native open does; otherwise its error is the variant of the code the handle reports |
| Seeking.NativeSeekArgs | crates/flipperzero/src/storage.rs:284-288 | the translation succeeds exactly when the offset fits `u32` (so never for a negative one), keeps the offset, and seeks from the start exactly for `Start`; otherwise it fails with `InvalidParameter` |
| Seeking.EndTranslatedAsCurrent | crates/flipperzero/src/storage.rs:286-287 | `End(n)` and `Current(n)` translate identically, and a negative `End` is refused |
| Seeking.StartAndCurrentLandOnStdTarget | crates/flipperzero/src/storage.rs:284-290 | for `Start` and `Current` the native seek lands where `std::io::SeekFrom` says |
| Seeking.EndLandsOffTarget | crates/flipperzero/src/storage.rs:286 | `End(n)` lands at `pos + n`, which is the end-relative target if and only if the position is already the end; `End(0)` at 0 in a 5-byte file stays at 0 |
| Seeking.CorrectedSeekArgs | crates/flipperzero/src/storage.rs:284-288 | the corrected translation succeeds exactly when the absolute target fits `u32`, and agrees with the original on `Start` and `Current` |
| Seeking.CorrectedSeekLandsOnStdTarget | crates/flipperzero/src/storage.rs:284-288 | every seek the corrected translation accepts lands where `std::io::SeekFrom` says |
| Seeking.SeekStream.Seek | crates/flipperzero/src/storage.rs:80 | the implementor's `seek`: logs the call, and either moves to the `std::io::SeekFrom` target and returns it, or fails and keeps the position |
| Seeking.SeekStream.Rewind | crates/flipperzero/src/storage.rs:82-85 | exactly one seek, `Start(0)`; on success the position is 0, and on failure the seek's error is returned and the position kept |
| Seeking.SeekStream.StreamPosition | crates/flipperzero/src/storage.rs:102-104 | exactly one seek, `Current(0)`, which moves nothing; returns the position unless that seek fails |
| Seeking.SeekStream.StreamLen | crates/flipperzero/src/storage.rs:87-100 | the seeks made are a prefix of `Current(0)`, `End(0)`, then `Start(old)` only when the old position is not the end; the first failing seek ends it with its error; on success it returns the length and the position is restored |
| Files.File.Seek | crates/flipperzero/src/storage.rs:283-296 | an untranslatable offset is refused with `InvalidParameter` before any native call; otherwise one native seek with the translated arguments, which either ends at the native target (relative to the current position for `End` and `Current`) or fails with the handle's error via `from_sys`; a successful `Start` or `Current` lands where `std::io::SeekFrom` says |
| Files.File.SeekCorrected | crates/flipperzero/src/storage.rs:283-296 | the corrected seek of the Findings row: the same native call and errors, but `End(n)` goes to `size + n` from the start, so every successful seek lands where `std::io::SeekFrom` says |
| Files.File.Rewind | crates/flipperzero/src/storage.rs:298-300 | one native seek to offset 0 from the start; on success the position is 0, and on failure the error maps back to the reported code |
| Files.File.StreamLen | crates/flipperzero/src/storage.rs:302-304 | always succeeds with the file size, without seeking |
| Files.File.StreamPosition | crates/flipperzero/src/storage.rs:306-308 | always succeeds with the position, without seeking |
| Files.File.Flush | crates/flipperzero/src/storage.rs:322-324 | always succeeds |
| Writing.Sink.Write | crates/flipperzero/src/storage.rs:109 | the implementor's `write`: consumes a prefix of at most its limit, or fails without consuming |
| Writing.OutcomeSuccess | crates/flipperzero/src/storage.rs:112-123 | on success the accepted prefixes, in order, make up exactly the buffer |
| Writing.OutcomeFailure | crates/flipperzero/src/storage.rs:119 | on failure the last `write` made is the one that refused, its error is returned, and what was written is a proper prefix of the buffer |
| Writing.OutcomeStopsAtFirstRefusal | crates/flipperzero/src/storage.rs:113-121 | every `write` before the last was accepted, and on success so was the last, so no `write` follows an error; there are no calls exactly when the buffer is empty |
| Writing.OutcomeWholeAtOnce | crates/flipperzero/src/storage.rs:113-122 | a `write` that takes the whole buffer is the only call, and the result is `Ok` |
| Writing.OutcomeRefusalMidway | crates/flipperzero/src/storage.rs:113-120 | a `write` taking 2 of 5 bytes and then a refusing `write`: `write_all` consumes the 2 bytes, makes 2 calls and returns the refusal's error |
| Writing.Sink.WriteAll | crates/flipperzero/src/storage.rs:112-123 | the loop retries on `Ok(0)`, drops each accepted prefix and returns the first error. It makes exactly the calls, consumes exactly the chunks and returns exactly the result of `Outcome` |

## Left out

- The foreign storage calls (`storage_file_alloc`, `_open`, `_read`, `_write`, `_seek`, `_tell`, `_size`, `_close`, `_get_error`) are not visible. `File` stands in for them with a position, a size, a pure seek target and scripted error codes. `OpenResult` takes the native open's verdict and the reported code as parameters.
- `File::new`, `Default for File`, `Drop for File` and the storage record lookup are resource handling with no logic to state.
- `Display for Error` reads a description string from the firmware, which is not visible.
- `Read for File` and `Write::write` for `File` only forward to foreign calls. The abstract `write` is `Sink.Write`.
- Files.File.Seek: the position is a `nat`. The `try_into().unwrap()` of the native position into `usize` (storage.rs:291) is not modelled, nor are the ones in `stream_len` and `stream_position` (storage.rs:303, 307).
- A writer that answers `Ok(0)` forever keeps the source's loop running (storage.rs:115-117). A finite script cannot express it, because every `write` past the script accepts the whole buffer.
- Seeking.SeekStream.StreamLen: `usize` is 32 bits on the device, so the `try_into` of the old position into `u64` (storage.rs:95) cannot fail. Its error path is not modelled.
- Seeking.SeekStream.Seek: `seek` is implementor-supplied. The model follows `std::io::SeekFrom`, and a target outside `usize` fails with `InvalidParameter`; other implementations may differ.
- The native flag and error constants are parameters constrained by `ValidBits` and `Distinct`. Their concrete values are not part of this model.

## Findings

| source | as written | input that shows it | evidently intended | confidence | as-written member | corrected member |
|---|---|---|---|---|---|---|
| crates/flipperzero/src/storage.rs:286 | `SeekFrom::End(n)` is passed to the native seek with `from_start = false`, exactly like `Current(n)`, so it moves relative to the current position; a negative `n` is refused | `End(0)` on a 5-byte file at position 0 lands at 0 | `End(n)` lands at `size + n`, as in `std::io::SeekFrom` | not executed | Seeking.EndLandsOffTarget | Seeking.CorrectedSeekLandsOnStdTarget |
