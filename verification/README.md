# core_tile simulator models in Dafny

This project models three pieces of the C++ side of the core_tile Verilator
simulator:

- **The Kanata trace recorder** (`konataSignature::dump_file`). It is called
  once per simulated cycle with the pipeline's valid, stall and flush flags,
  the instruction ids of every stage, the decode PC and instruction word, and
  the execute unit code. An idle cycle only increments the pending cycle
  count. An active cycle writes a `C` record with that count, then the
  stage records (`I`, `L`, `S`, `E`, `R`) in a fixed order, and resets the
  count to 1. The recorder also keeps the last ids seen at the two fetch
  stages, so that an instruction held in fetch is not reported twice. The
  SystemVerilog entry point `konata_dump` forwards its arguments with
  `ir_valid` and `rr_valid` exchanged.
- **Checkpoint save and restore.** The stream is a sequence of typed tokens:
  the simulated time, then the generated hardware model as one opaque block,
  then the perfect memory. The memory is written as the word map, the address
  bound, then the two symbol tables. Each `std::map` is written as a 32-bit
  count followed by its key/value pairs in ascending key order. Reading clears
  the destination map and stores each pair in turn. Start-up parses the
  `+checkpoint_restore_ON` and `+checkpoint_restore_name=` options and
  restores when the first one is present.
- **Bus alignment.** The bus geometry constants and the address mask, which
  sign-extends from `int` to a 64-bit address.

Modules:

- `Wrappers`: `Option` and `Result`.
- `Words`: 64-bit unsigned and signed words, wrap-around increment, the shift
  pair that sign-extends the 40-bit PC.
- `Bus`: the constants and `Align`.
- `Konata`: records, signals, the recorder state, and `Step`. `Step` applies
  one rule per stage, driven by a stage table.
- `KonataLiteral`: the recorder written out conditional by conditional, as
  in the C++ code. It is proved equal to `Step`.
- `KonataCounts`: per-cycle properties, mostly stated as record counts.
- `KonataRuns`: properties over many cycles.
- `Stream`: tokens and scalar reads.
- `Orders`: the key orders `std::less<uint64_t>` and `std::less<std::string>`.
- `MapCodec`: the generic map serialiser and deserialiser.
- `Checkpoint`: save, restore and start-up.

## Model

| member | source | states |
|---|---|---|
| Konata.Step | simulator/models/cxx/dpi_konata.cpp:136-243 | A cycle writes no record exactly when it is idle. An idle cycle increments the pending count, wrapping at 2^64. An active cycle's first record is `C` with the pending count, and afterwards the count is 1. `last_if1_id` always takes `if1_id`; `last_if2_id` takes `if2_id` only when if2 is valid. |
| KonataLiteral.DumpFileIsStep | simulator/models/cxx/dpi_konata.cpp:141-243 | The recorder written as the C++ code's own chain of conditionals gives the same records, in the same order, and the same next state as the stage-table `Step`, on every input. |
| KonataCounts.ActiveIffSomethingMoved | simulator/models/cxx/dpi_konata.cpp:141-144 | A cycle is active iff one of these holds: a stage is valid and not stalled, a writeback slot other than the store slot is valid, or one of the six flush flags is set. |
| KonataCounts.StoreWritebackAloneStaysIdle | simulator/models/cxx/dpi_konata.cpp:141-145 | When the store writeback slot is the only reason to report a cycle, the cycle writes nothing: the store's `R` record is lost, and the cycle only increments the count. |
| KonataCounts.EnterRecordIffAdvance | simulator/models/cxx/dpi_konata.cpp:148-211 | For every stage, the cycle holds exactly one `S` record with that stage's label iff the stage advances, and otherwise none. A stage advances when it is valid, not stalled and not flushed, and at a fetch stage also has an id different from the last one seen. So a flush suppresses the stage's `S` record. |
| KonataCounts.ExitRecordIffAdvance | simulator/models/cxx/dpi_konata.cpp:154-211 | For every stage after if1, the cycle holds exactly one `E` record leaving its predecessor's label iff the stage advances. |
| KonataCounts.BornIffFetchAdvances | simulator/models/cxx/dpi_konata.cpp:148-153 | The cycle holds exactly one `I` record iff if1 is valid, not stalled, not flushed and its id differs from the last if1 id; otherwise it holds none. |
| KonataCounts.LabelIffDecodeAdvances | simulator/models/cxx/dpi_konata.cpp:162-168 | The cycle holds exactly one `L` record iff decode advances. That record carries the decode id, the sign-extended PC and the instruction word. |
| KonataCounts.RetireRecordsOfStep | simulator/models/cxx/dpi_konata.cpp:154-238 | The flushed `R` records of a cycle are exactly the ids of the flushed stages among if2, id, ir, rr and exe, in pipeline order; if1's flush writes none. The retiring `R` records are exactly the ids of the valid writeback slots in slot order, stall and flush notwithstanding, when the cycle is active; otherwise there are none. |
| KonataCounts.DumpSwapsIssueAndRegRead | simulator/models/cxx/dpi_konata.cpp:69-72 | Through the SystemVerilog entry point, the `S I` record depends on the caller's `rr_valid` together with the ir stall and flush. The `S R` record depends on the caller's `ir_valid` together with the rr stall and flush. |
| Konata.DpiToDumpFile | simulator/models/cxx/dpi_konata.cpp:69-72 | The recorder's `ir_valid` is the caller's `rr_valid`, and its `rr_valid` is the caller's `ir_valid`. |
| Konata.DpiPassesOtherArguments | simulator/models/cxx/dpi_konata.cpp:69-72 | Apart from that exchanged pair, every argument reaches the recorder unchanged: restoring the pair gives back the caller's vector. |
| Konata.KonataDump | simulator/models/cxx/dpi_konata.cpp:23-73 | The entry point reports a cycle exactly when the exchanged vector is active. The fetch-id bookkeeping follows the caller's `if1_id`, `if2_valid` and `if2_id`, which the exchange leaves alone. |
| KonataLiteral.DumpFile | simulator/models/cxx/dpi_konata.cpp:136-243 | The literal routine writes nothing exactly on an idle cycle, and then increments the count. On an active cycle it opens with the pending count and restarts it at 1, and it keeps the last fetch ids as `Step` does. `DumpFileIsStep` shows its records equal `Step`'s. |
| Konata.ExeLabelIdentifiesUnit | simulator/models/cxx/dpi_konata.cpp:185-210 | The execute label names its unit: unit codes 0 to 6 map to distinct labels that read back to the code. Every other code maps to the catch-all `E`, and only those codes do. |
| Konata.Retirements | simulator/models/cxx/dpi_konata.cpp:212-238 | Every record the writeback slots produce is a non-flush `R`. |
| KonataCounts.EnterLabelsDistinct | simulator/models/cxx/dpi_konata.cpp:151-208 | Two different stages never enter the same label, so an `S` label identifies its stage. |
| KonataCounts.ExitLabelsDistinct | simulator/models/cxx/dpi_konata.cpp:158-184 | Two different stages after if1 never leave the same label. |
| KonataRuns.OneMarkerPerActiveCycle | simulator/models/cxx/dpi_konata.cpp:141-147 | Over any run, the number of `C` records equals the number of active cycles. |
| KonataRuns.MarkersAccountForEveryCycle | simulator/models/cxx/dpi_konata.cpp:141-147 | Over any run, the counts carried by the `C` records plus the count still pending equal the count at the start plus the run's length. No cycle is lost or counted twice. |
| KonataRuns.IdleRun | simulator/models/cxx/dpi_konata.cpp:141-145 | A run of idle cycles writes nothing and adds its length to the pending count, modulo 2^64. |
| KonataRuns.IdleRunThenActive | simulator/models/cxx/dpi_konata.cpp:145-147 | n idle cycles followed by an active one write only that cycle's block, which holds exactly one `C`. That `C` carries the start count plus n, which is n + 1 when the count was restarted at 1. |
| KonataRuns.RunAppend | simulator/models/cxx/dpi_konata.cpp:242-243 | Running two stretches of cycles one after the other is the same as running their concatenation: the log is the two logs concatenated. |
| KonataRuns.FetchHeldBornOnce | simulator/models/cxx/dpi_konata.cpp:148-153 | While one id stays at if1, at most one `I` record is written for it. None is written if that id was already the last if1 id seen. |
| KonataRuns.FetchHeldBornExactly | simulator/models/cxx/dpi_konata.cpp:148-153 | While one id stays at if1, exactly one `I` record is written if the first cycle advances it at if1, and none otherwise. Later cycles never report it. |
| KonataRuns.StalledFirstNeverBorn | simulator/models/cxx/dpi_konata.cpp:242 | An id first seen stalled at if1 never gets an `I` record, however it advances later, because `last_if1_id` is updated on the stalled cycle too. |
| KonataRuns.UnbornEntersFetch2 | simulator/models/cxx/dpi_konata.cpp:154-161 | Such an unborn instruction still gets its `S F2` record when it reaches if2. |
| KonataRuns.Fetch2HeldEntersOnce | simulator/models/cxx/dpi_konata.cpp:154-161 | While the valid if2 id stays the same, at most one `S F2` record is written. None is written if that id was already the last valid if2 id seen. |
| KonataRuns.Fetch2NeverValid | simulator/models/cxx/dpi_konata.cpp:156 | A run in which if2 is never valid writes no `S F2` record. |
| KonataRuns.Fetch2EntersAtFirstValid | simulator/models/cxx/dpi_konata.cpp:154-161 | While the valid if2 id stays the same, exactly one `S F2` record is written if the first cycle with if2 valid advances the stage, and none otherwise. That cycle is judged against the last if2 id from before the run. |
| KonataRuns.RebornAfterRestart | simulator/models/cxx/dpi_checkpoint.cpp:20-27 | The checkpoint does not hold the recorder's globals, so a restored run starts from `Konata.Init`. An instruction born before the save that advances at if1 again gets a second `I` record, and the first `C` carries 1. |
| KonataRuns.SeedHidesIdOne | simulator/models/cxx/dpi_konata.cpp:20 | Because the last-seen ids start at 1, on the first cycle an instruction with id 1 advancing at if1 gets no `I` record, while any other id does. |
| Words.SignExtend40 | simulator/models/cxx/dpi_konata.cpp:136-139 | The printed PC lies in [-2^39, 2^39) and agrees with `id_pc` modulo 2^40. |
| Words.ShiftPairIsSignExtend40 | simulator/models/cxx/dpi_konata.cpp:137-139 | Converting to a signed 64-bit value, shifting left 24 (wrapping) and shifting right 24 (arithmetically) computes the 40-bit sign extension of the PC. |
| Words.SignExtend40IgnoresHighBits | simulator/models/cxx/dpi_konata.cpp:137-139 | PCs that agree in bits 0 to 39 print the same; bits 40 to 63 have no effect. |
| Words.Inc64 | simulator/models/cxx/dpi_konata.cpp:145 | The idle increment of the `uint64_t` counter adds one, and wraps to 0 from 2^64 - 1. |
| Words.ToSigned64 | simulator/models/cxx/dpi_konata.cpp:137 | Reading a `uint64_t` as `signed long long` keeps the value modulo 2^64, and the result is negative exactly when the top bit is set. |
| Bus.BusGeometry | simulator/models/cxx/dpi_perfect_memory.h:6-8 | A bus of 512 bits holds 64 bytes, which is 1 << 6. The `int` mask is -64, and converted to a 64-bit address it is `0xFFFF_FFFF_FFFF_FFC0`. |
| Bus.IntToU64 | simulator/models/cxx/dpi_perfect_memory.h:8 | Converting an `int` to a 64-bit unsigned value gives a value in [0, 2^64) that is congruent to it modulo 2^64. |
| Bus.Align | simulator/models/cxx/dpi_perfect_memory.h:8 | A masked address is a multiple of 64, is not above the address, and is less than 64 below it. |
| Bus.AlignIdempotent | simulator/models/cxx/dpi_perfect_memory.h:8 | Masking leaves an aligned address unchanged, so masking twice is the same as masking once. |
| Stream.ScalarRoundTrip | simulator/models/cxx/dpi_checkpoint.h:36-49 | Each scalar reader gives back the value its writer put. |
| Stream.ReadU64 | simulator/models/cxx/dpi_checkpoint.cpp:32 | Reading a `uint64_t` fails on an empty stream or a token of another kind. On success, putting the value back in front of the rest gives the original stream. |
| Stream.ReadModel | simulator/models/cxx/dpi_checkpoint.cpp:33 | Reading the hardware model takes exactly one model block and leaves the rest, and fails on anything else. |
| Orders.U64LessIsStrictTotal | simulator/models/cxx/dpi_checkpoint.h:33 | `<` on 64-bit keys is a strict total order, as `std::map` iteration requires. |
| Orders.StrLess | simulator/models/cxx/dpi_checkpoint.h:33 | The empty string is below every other string and nothing is below it. |
| Orders.StrLessIsStrictTotal | simulator/models/cxx/dpi_checkpoint.h:33 | String comparison is irreflexive, transitive and total, so symbol names have one iteration order. |
| MapCodec.SortedKeys | simulator/models/cxx/dpi_checkpoint.h:33 | The iteration order of a map lists each key once, lists no other key, and is ascending. |
| MapCodec.SortedKeysUnique | simulator/models/cxx/dpi_checkpoint.h:33 | Any ascending listing of a key set is the iteration order, so the order is determined by the keys alone. |
| MapCodec.Pairs | simulator/models/cxx/dpi_checkpoint.h:33-37 | The pair list has two tokens per key, and pair i is key i followed by that key's value. |
| MapCodec.EncodeMap | simulator/models/cxx/dpi_checkpoint.h:30-38 | Serialising writes a 32-bit count equal to the size modulo 2^32, followed by exactly one key/value pair per entry, in ascending key order. |
| MapCodec.EncodeFollowsAnyAscendingListing | simulator/models/cxx/dpi_checkpoint.h:33-37 | The output is the count followed by the pairs of any ascending listing of the keys. So equal maps give identical streams. |
| MapCodec.ReadPairs | simulator/models/cxx/dpi_checkpoint.h:45-51 | A successful read of n pairs consumes exactly 2n tokens and leaves the rest. A stream shorter than 2n tokens fails. |
| MapCodec.ReadPairsSucceeds | simulator/models/cxx/dpi_checkpoint.h:45-51 | Reading n pairs succeeds iff the stream has at least 2n tokens and each of the first n pairs is a readable key followed by a readable value. |
| MapCodec.Clear | simulator/models/cxx/dpi_checkpoint.h:44 | Clearing leaves the empty map. |
| MapCodec.DecodeMap | simulator/models/cxx/dpi_checkpoint.h:40-53 | Deserialising fails on an empty stream, or when the stream does not start with a 32-bit count. On success it consumes exactly the count token plus that many pairs, and nothing more. |
| MapCodec.DecodeIgnoresDestination | simulator/models/cxx/dpi_checkpoint.h:44 | The result does not depend on what the destination map held before. |
| MapCodec.OverlayContents | simulator/models/cxx/dpi_checkpoint.h:50 | Storing a map's values at a list of keys gives each listed key that value and leaves every other key as it was. |
| MapCodec.ReadWrittenPairs | simulator/models/cxx/dpi_checkpoint.h:33-51 | Reading back the pairs written for a list of keys performs the same stores, and stops at the end of those pairs. |
| MapCodec.MapRoundTrip | simulator/models/cxx/dpi_checkpoint.h:30-53 | Deserialising what was serialised gives back the same map, whatever the destination held, and leaves whatever followed. This needs fewer than 2^32 entries. |
| MapCodec.UnreadKeyKept | simulator/models/cxx/dpi_checkpoint.h:45-51 | A key that no pair of the stream carries keeps its previous value, or stays absent. |
| MapCodec.LaterValueWins | simulator/models/cxx/dpi_checkpoint.h:50 | When a stream repeats a key, the map holds the value of the key's last pair. |
| Checkpoint.FormatsValid | simulator/models/cxx/dpi_checkpoint.h:55-68 | The word map, the symbol table and the reverse symbol table each have a strict total key order and fields that read back. |
| Checkpoint.WriteMemory | simulator/models/cxx/dpi_checkpoint.h:55-61 | The memory takes four count and address tokens plus two tokens per entry of its three maps. It opens with the word map's count, and `addr_max` follows directly after the word map's pairs. |
| Checkpoint.ReadMemory | simulator/models/cxx/dpi_checkpoint.h:63-69 | Reading the memory fails on an empty stream or one that does not open with a count. On success, `addr_max` is the token right after the word map's pairs, which is where `WriteMemory` put it. |
| Checkpoint.WriteSymbols | simulator/models/cxx/dpi_checkpoint.h:58-59 | The symbol tables take two count tokens plus two tokens per entry. The name table's count comes first, and the reverse table's count follows directly after the name table's pairs. |
| Checkpoint.ReadSymbols | simulator/models/cxx/dpi_checkpoint.h:66-67 | Reading the symbol tables fails on an empty stream or one that does not open with a count. On success it consumes at least the two count tokens and leaves a suffix of the stream. |
| Checkpoint.SymbolsRoundTrip | simulator/models/cxx/dpi_checkpoint.h:58-67 | The two symbol tables, written in order, read back in the same order. |
| Checkpoint.MemoryRoundTrip | simulator/models/cxx/dpi_checkpoint.h:55-69 | `Memory32` is written as mem, addr_max, symbols, reverseSymbols and read back in that order. All four come back unchanged and the rest of the stream is left. |
| Checkpoint.Save | simulator/models/cxx/dpi_checkpoint.cpp:20-27 | A checkpoint starts with the time, followed by the hardware model block. |
| Checkpoint.Restore | simulator/models/cxx/dpi_checkpoint.cpp:29-36 | Restoring fails on an empty stream. A successful restore takes its time from the first token and its model from the second. |
| Checkpoint.RestoreIgnoresPrior | simulator/models/cxx/dpi_checkpoint.cpp:29-36 | The restored simulation depends only on the stream, not on the state it overwrites. |
| Checkpoint.CheckpointRoundTrip | simulator/models/cxx/dpi_checkpoint.cpp:20-36 | Restoring a saved checkpoint gives back the time, the hardware model, the memory and both symbol tables. This needs every map to have fewer than 2^32 entries. |
| Checkpoint.FlagsExclusive | simulator/models/cxx/dpi_checkpoint.cpp:55-60 | No argument starts with both option prefixes, so the `else if` never hides a name. |
| Checkpoint.LastNameArgIsLast | simulator/models/cxx/dpi_checkpoint.cpp:58-60 | The chosen name is the suffix of the last argument that starts with `+checkpoint_restore_name=`. There is no name iff no argument starts with it. |
| Checkpoint.ParseRestoreArgs | simulator/models/cxx/dpi_checkpoint.cpp:48-61 | Restoring is on iff some argument after the program name starts with `+checkpoint_restore_ON`. The file name is the last name given, or `verilator_model_1.bin`. |
| Checkpoint.Startup | simulator/models/cxx/dpi_checkpoint.cpp:48-70 | Restore is called iff the option is on, and it reads the chosen file. Without the option the freshly built simulation is kept. With it, a file holding a checkpoint of `s` yields exactly `s`. |

## Left out

- Verilator's runtime (`Vsim_top`, `VerilatedContext`, `VerilatedSave`, `VerilatedRestore`) is not part of this model. The stream is a sequence of typed tokens, and the generated hardware model is one opaque token whose content is kept as is. The byte encoding of each field is left out.
- What Verilator's reader does with a short or malformed stream is not visible here; the model reports it as a `Failure`.
- A file that fails to open is not modelled. `Startup` takes the file's contents as a function of its name.
- The clock and reset set-up and loop of `main` (dpi_checkpoint.cpp:63-65 and 72-96), the "Checkpoint restored" message and the final clean-up are plumbing around the hardware model and are left out.
- The disassembler (`disassembler_t`, `isa_parser_t`) is foreign code. An `L` record carries the raw instruction word where the log prints its disassembly.
- The text formatting of records (`std::dec`, the 16-digit hex PC), the `Kanata\t0004` header, opening the log file and flushing it are left out. Records are a datatype, not text. `Label.pc` holds the sign-extended PC; the log prints its 64-bit two's-complement pattern as 16 hex digits (dpi_konata.cpp:8), so -2^39 appears as `ffffff8000000000`.
- The `calloc`'d `signature` buffer and the `last_pc` global are never used by the recorder and are left out.
- `konata_signature_init` and the recorder's constructor only open files and build the disassembler. The recorder's initial state is `Konata.Init`, set by the static initialiser at dpi_konata.cpp:20.
- The recorder's state (`cycles`, `last_if1_id`, `last_if2_id`) is not part of a checkpoint (dpi_checkpoint.cpp:24-26). The trace of a restored run therefore starts again from `Konata.Init` and differs from the trace of an uninterrupted run, as `KonataRuns.RebornAfterRestart` shows.
- Words.ToSigned64 and Words.ShiftLeft24 assume the C++20 rules for the PC sign extension at dpi_konata.cpp:137-138: converting `uint64_t` to `signed long long` is modular and `<<` on a negative value wraps. Before C++20 the first is implementation-defined and the second is undefined behaviour.
- The 64-bit flag arguments are modelled as booleans (their C truth value), since the recorder only tests them.
- The `memory_read`, `memory_write`, `memory_amo` and symbol lookup functions have only declarations (dpi_perfect_memory.h:17-37), so their behaviour is not modelled. The C++ declaration of `Memory32` is not among the modelled source files. Its checkpointed fields are taken to be a map from 64-bit addresses to 32-bit words (`mem`) and a 64-bit `addr_max`. The symbol tables are taken to be a map from names to 64-bit addresses and its reverse.
- MapCodec.MapRoundTrip: does not cover maps with 2^32 or more entries, because the 32-bit count then wraps and the stream no longer reads back. The serialiser itself is modelled with that wrap.
- Checkpoint.CheckpointRoundTrip: requires every map to have fewer than 2^32 entries, for the same reason.
- KonataRuns.MarkersAccountForEveryCycle: requires that the 64-bit cycle count does not wrap during the run. `KonataRuns.IdleRun` covers the wrap.
- KonataRuns.FetchHeldBornOnce: states only an upper bound; the exact count is `KonataRuns.FetchHeldBornExactly`.
- KonataRuns.Fetch2HeldEntersOnce: states only an upper bound; the exact count is `KonataRuns.Fetch2EntersAtFirstValid`, with `KonataRuns.Fetch2NeverValid` for runs where if2 is never valid.
- In a Kanata log an instruction is introduced by its `I` record. The code writes none for an instruction whose first cycle at if1 is stalled, because `last_if1_id` is updated on every call (dpi_konata.cpp:242). The model follows the code, and `KonataRuns.StalledFirstNeverBorn` and `KonataRuns.UnbornEntersFetch2` pin the behaviour down. The intended rule is not evident from the code, so no corrected recorder is modelled.
- Symbol names are modelled as Dafny strings of Unicode scalar values, so a name whose bytes are not valid UTF-8 cannot be represented.
