# DeepMind patch dump, modelled in Dafny

This project models the core of `dump_deepmind.py`, a backup tool for the
Behringer DeepMind synthesizer. The tool validates a bank letter and a
program range, sends one MIDI System Exclusive (SysEx) bulk-dump request,
collects one reply per program, unpacks each reply's 7-bit-safe parameter
block, reads the patch name and header fields, and writes one patch file per
reply plus a name-to-base64 lookup table.

Modules, one per part of the tool:

- `Results` (results.dfy): the tool's exceptions as an `Error` datatype, with `Result` and `Option`.
- `Packing` (packing.dfy): the unpacking transform. `Unpack` is the chunk-by-chunk
  specification; `UnpackBytes` is the tool's loop, proved equal to it.
- `Request` (request.dfy): the `BANKS` lookup, the range checks and the 11-byte request.
- `Collector` (collector.dfy): the poll loop. The polls are a finite sequence of results, each a message or nothing.
- `PatchDecode` (decode.dfy): reply slicing, the patch name, the `{:03}` program label,
  the file name, and `DecodePatch`, the per-patch steps.
- `LookupIndex` (lookup.dfy): the insertion-ordered lookup table. `OrderedMap`, `Insert`
  and `Build` are its value-level specification; class `OrderedIndex` is the mutable dictionary.
- `Dump` (dump.dfy): the per-patch loop `ProcessPatches` and the whole run `RunDump`.
  The run records its port and file operations as a sequence of events.

Bytes are `bv8`, so "every output is below 256" holds by type. The request
is a list of integers, as the tool builds it.

Some behaviours of the code worth stating plainly:

- The chunk `02 00 00 00 00 00 00 00` unpacks to `00 02 00 00 00 00 00`:
  flag bit 1 lands, at its own bit position, in the second output byte
  (`dump_deepmind.py:51-52`, `UnpackFlagExample`).
- An unknown bank letter is a `KeyError` (`dump_deepmind.py:62`). The two range
  checks raise separate `ValueError`s (`dump_deepmind.py:67-70`). The model keeps
  the three apart: `UnknownBank`, `FirstOutOfRange`, `LastOutOfRange`.
- A packed block whose length is not a multiple of 8 raises an error
  (`dump_deepmind.py:48-49`, `UnpackLength`).
- A bank byte of 8 or more, or a reply too short to hold bytes 8 and 9, is
  an index error (`dump_deepmind.py:107`, `HeaderIndex`).

## Model

| member | source | states |
|---|---|---|
| `Packing.UnpackedByte` | dump_deepmind.py:52 | every payload bit survives; only bit j-1 can differ from the payload; that bit is set iff payload or flag has it; output is 7-bit iff the payload is |
| `Packing.MaskIsShift` | dump_deepmind.py:52 | the mask table entry for position j equals `1 << (j-1)` |
| `Packing.Unpack` | dump_deepmind.py:44-49 | the only error unpacking can give is the short-chunk error |
| `Packing.UnpackChunk` | dump_deepmind.py:51-52 | seven output bytes; byte i is payload byte i+1 OR'd with bit i of the flag byte |
| `Packing.UnpackChunkBytes` | dump_deepmind.py:51-52 | the inner loop appends exactly the seven unpacked bytes of the chunk |
| `Packing.UnpackBytes` | dump_deepmind.py:41-56 | the tool's loop returns exactly the chunk-by-chunk specification, error included |
| `Packing.UnpackLength` | dump_deepmind.py:44-54 | unpacking succeeds iff the length is a multiple of 8, and then yields 7 bytes per 8 |
| `Packing.UnpackAt` | dump_deepmind.py:51-52 | output byte 7k+(j-1) is `data[8k+j] \| (data[8k] & mask j)` for every chunk k and position j |
| `Packing.UnpackAppend` | dump_deepmind.py:44-54 | unpacking distributes over concatenation at a chunk boundary |
| `Packing.UnpackSevenBit` | dump_deepmind.py:52-56 | 7-bit packed bytes unpack to 7-bit bytes |
| `Packing.UnpackFlagExample` | dump_deepmind.py:51-52 | flag `02` over a zero payload sets only the second output byte |
| `Request.BankKeys` | dump_deepmind.py:31 | the table's keys are exactly the one-letter strings A..H, and key i is the i-th letter |
| `Request.UpperChar` | dump_deepmind.py:62 | no lower-case ASCII letter remains; a lower-case letter becomes the capital at the same place in the alphabet; anything else is kept |
| `Request.Upper` | dump_deepmind.py:62 | same length; exactly the lower-case ASCII letters change, and none remains |
| `Request.UpperIdempotent` | dump_deepmind.py:62 | upper-casing twice is upper-casing once |
| `Request.BankIndex` | dump_deepmind.py:31-62 | after upper-casing, the lookup succeeds iff the argument is one letter a..h or A..H; result below 8 and names that letter |
| `Request.CheckRange` | dump_deepmind.py:67-70 | passes iff 0 <= first <= last <= 127; a first number outside 0..127 is reported first |
| `Request.BuildRequest` | dump_deepmind.py:62-82 | succeeds iff bank and range are valid; errors in the tool's order; on success 11 bytes, framed F0..F7, 7-bit interior, fixed 7-byte prefix, then bank, first, last |
| `Request.ExpectedCount` | dump_deepmind.py:91 | the reply count for a valid range is between 1 and 128; 128 only for 0..127; 1 only for a single program |
| `Request.RequestExample` | dump_deepmind.py:72-82 | bank C, programs 10..15 give `F0 00 20 32 20 00 09 02 0A 0F F7`; lower-case c gives the same |
| `Collector.Received` | dump_deepmind.py:92-94 | no more messages are received than polls were made |
| `Collector.ReceivedPrefix` | dump_deepmind.py:90-94 | what fewer polls receive comes first in what more polls receive |
| `Collector.ReceivedCount` | dump_deepmind.py:92-94 | the messages received number exactly the polls that yielded one |
| `Collector.Collect` | dump_deepmind.py:90-94 | complete iff n messages arrived; then exactly the first n in arrival order, never fewer; otherwise all that arrived |
| `PatchDecode.ClampedSlice` | dump_deepmind.py:104-106 | Python slicing: the length is the clamped range, and element i is `s[start+i]` |
| `PatchDecode.PackedBlock` | dump_deepmind.py:104 | `p[10:-1]` is bytes 10 through len-2, and empty for replies shorter than 11 |
| `PatchDecode.PackedBlockOfReply` | dump_deepmind.py:104 | a 10-byte header, a block and a terminator give back the block |
| `PatchDecode.DecodeAscii` | dump_deepmind.py:106 | fails iff some byte is 128 or more; otherwise one character per byte, same code |
| `PatchDecode.TrimTrailing` | dump_deepmind.py:106 | `rstrip`: a prefix, everything dropped is strippable, and the result does not end in a strippable character |
| `PatchDecode.IsPySpace` | dump_deepmind.py:106 | the whitespace set of `rstrip()` on ASCII; NUL is not in it, and all of it is at most space |
| `PatchDecode.TrimTrailingUnique` | dump_deepmind.py:106 | those three properties determine the result |
| `PatchDecode.PatchName` | dump_deepmind.py:106 | fails iff a name-field byte is 128 or more; at most 16 characters; a prefix of the field's characters, leading ones untouched; it does not end in whitespace |
| `PatchDecode.PatchNameTail` | dump_deepmind.py:106 | the field is the name, then whitespace, then NULs; the NUL strip stops at the last non-NUL character, so with `PatchName` the name is determined |
| `PatchDecode.PatchNameExample` | dump_deepmind.py:106 | the field "Lead 1" with ten NULs gives "Lead 1" |
| `PatchDecode.TrimLeadOne` | dump_deepmind.py:106 | stripping NULs and then whitespace from "Lead 1" and ten NULs gives "Lead 1" |
| `PatchDecode.Digits` | dump_deepmind.py:107 | `str(n)` is a non-empty string of decimal digits |
| `PatchDecode.DigitsValue` | dump_deepmind.py:107 | the digits read back as n |
| `PatchDecode.ZeroPad` | dump_deepmind.py:107 | padding reaches the width, keeps the string as its suffix, and adds only zeros |
| `PatchDecode.LeadingZeros` | dump_deepmind.py:107 | leading zeros do not change a decimal value |
| `PatchDecode.AllZeros` | dump_deepmind.py:107 | a string of zeros has value 0 |
| `PatchDecode.FormatProgram` | dump_deepmind.py:107 | `{n:03}` is decimal digits that read back as n, at least three wide, and exactly three for n < 1000 |
| `PatchDecode.DigitsWidth` | dump_deepmind.py:107 | numbers below 1000 have at most three digits |
| `PatchDecode.FileNameFields` | dump_deepmind.py:107 | the file name splits back into letter, three-digit label, name and `.sysex` |
| `PatchDecode.FileName` | dump_deepmind.py:107 | `{L}_{p:03}_{name}.sysex`: the letter and `_`, then the program label, then `_`, the name and `.sysex` |
| `PatchDecode.DecodePatch` | dump_deepmind.py:103-107 | errors in the tool's order (unpack, name, header index); on success raw reply, `p[10:-1]` block, unpacked name, letter `"ABCDEFGH"[p[8]]`, program `p[9]+1` in 1..256, and that file name |
| `PatchDecode.SevenBitReplyDecodes` | dump_deepmind.py:103-107 | a reply with 7-bit data, whole chunks and a bank byte below 8 decodes without error |
| `LookupIndex.Insert` | dump_deepmind.py:111 | insert-or-replace keeps the map valid; a new name is appended to the order, a known one keeps its place |
| `LookupIndex.Build` | dump_deepmind.py:99-111 | the table built from the pairs is valid: distinct keys, exactly the keys of the entries |
| `LookupIndex.BuildDomain` | dump_deepmind.py:111 | a name has an entry iff some pair carries it |
| `LookupIndex.BuildLastWins` | dump_deepmind.py:111 | the entry of a name holds the value of its last pair |
| `LookupIndex.BuildKeysNamed` | dump_deepmind.py:111 | every key is the name of some pair |
| `LookupIndex.BuildKeysGrow` | dump_deepmind.py:111 | more pairs only append keys |
| `LookupIndex.KeyPairOrder` | dump_deepmind.py:111 | of two keys, the earlier has the earlier first pair |
| `LookupIndex.BuildKeyOrder` | dump_deepmind.py:99-111 | the keys are in order of first insertion |
| `LookupIndex.FirstIndexPrefix` | dump_deepmind.py:111 | a name's first pair in a prefix is its first pair overall |
| `LookupIndex.DuplicateNameExample` | dump_deepmind.py:111 | two pairs with one name leave one entry with the second value |
| `LookupIndex.OrderedIndex.constructor` | dump_deepmind.py:99 | a new dictionary is empty |
| `LookupIndex.OrderedIndex.Put` | dump_deepmind.py:111 | item assignment updates the dictionary as `Insert` does and keeps it valid |
| `Dump.DecodeAllSpec` | dump_deepmind.py:101-107 | records are the decodings of the leading replies; no failure means all decoded; a failure is the first reply's that did not decode |
| `Dump.DecodeAll` | dump_deepmind.py:101-107 | the loop aborted by the first exception: at most one record per reply, and all replies decoded exactly when there is no failure (the rest in `DecodeAllSpec`) |
| `Dump.DecodeAllStep` | dump_deepmind.py:101-107 | one more reply after no failure appends its record or becomes the failure |
| `Dump.DecodeAllStops` | dump_deepmind.py:101-107 | after a failure, later replies change nothing |
| `Dump.ProcessPatches` | dump_deepmind.py:99-115 | the loop stops at the first failing reply; files and table hold exactly the records before it, the table as built by insertion in order |
| `Dump.RunDump` | dump_deepmind.py:62-119 | bad arguments fail with no port opened; otherwise open, send the request, wait for n replies, close, write files up to the first failure, and write the table only without one |

## Left out

- Port listing (`print_ports`), and opening, sending on, polling and closing MIDI ports through the `mido` library. `RunDump` records them as events. `mido.Message.from_bytes`' own validation is not modelled.
- The busy-wait: the polls are a finite sequence, and a run whose polls run out before n messages ends `Waiting`. The tool would go on polling for ever.
- Transport errors raised by the port library. Its code is not part of this model.
- File creation in exclusive mode, and any error `open` raises: a file that already exists, a NUL in the name, a path separator naming a missing directory, and others. Writes are the events `WritePatchFile` and `WriteLookup`; the model ends such a run `Completed`, where the tool would abort at the failing `open`.
- `json.dump` formatting: the `WriteLookup` event carries the ordered keys and the entries.
- `base64.b64encode`: a function parameter `b64`, left uninterpreted.
- Command-line handling, usage text and `int()` parsing of the program numbers.
- `Request.Upper`, `Request.UpperChar`: only the ASCII letters are upper-cased. Python's `str.upper` also maps other characters, for example `"ß"` to `"SS"` and `"é"` to `"É"`, and these mappings are not modelled. No non-ASCII character upper-cases to a letter A..H, so `BankIndex`'s result is still exact for every string.
- `Packing.UnpackBytes`: the inner `for j` loop is the separate method `UnpackChunkBytes`, which the outer loop calls with the same effect.
- `Dump.DecodeAll` takes the per-reply decoder as a parameter, and the run passes `DecodePatch`. This keeps proofs about the loop independent of the decoder's details.
