/**
 Saving and restoring a simulation: the simulated time, the generated hardware
 model, the perfect memory's contents and the two symbol tables, in that order
 on one stream; and the start-up choice of whether and from which file to
 restore. The trace recorder's globals are not part of a checkpoint.
 */
module Checkpoint {
  import opened Words
  import opened Wrappers
  import opened Stream
  import opened Orders
  import opened MapCodec
  import opened Seqs

  /** The checkpointed part of `Memory32`: the word store and the address bound. */
  datatype Memory32 = Memory32(mem: map<u64, u32>, addrMax: u64)

  /**
   What a checkpoint captures: the context's time, the model's own state, the
   memory, and the global symbol tables (name to address and back).
   */
  datatype Simulation = Simulation(
    time: u64,
    model: ModelImage,
    memory: Memory32,
    symbols: map<string, u64>,
    reverseSymbols: map<u64, string>)

  const MemFormat: Format<u64, u32> := Format(U64Less, PutU64, GetU64, PutU32, GetU32)
  const SymbolFormat: Format<string, u64> := Format(StrLess, PutText, GetText, PutU64, GetU64)
  const ReverseFormat: Format<u64, string> := Format(U64Less, PutU64, GetU64, PutText, GetText)

  lemma FormatsValid()
    ensures ValidFormat(MemFormat)
    ensures ValidFormat(SymbolFormat)
    ensures ValidFormat(ReverseFormat)
  {
    U64LessIsStrictTotal();
    StrLessIsStrictTotal();
  }

  /** Every map is small enough for its 32-bit count. */
  predicate Fits(s: Simulation)
  {
    |s.memory.mem| < TWO_32 && |s.symbols| < TWO_32 && |s.reverseSymbols| < TWO_32
  }

  /** `os << symbols; os << reverseSymbols`. */
  function WriteSymbols(s: Simulation): (ts: seq<Token>)
    ensures |ts| == 2 + 2 * (|s.symbols| + |s.reverseSymbols|)
    ensures ts[0] == Word32(|s.symbols| % TWO_32)
    ensures ts[1 + 2 * |s.symbols|] == Word32(|s.reverseSymbols| % TWO_32)
  {
    FormatsValid();
    EncodeMap(s.symbols, SymbolFormat) + EncodeMap(s.reverseSymbols, ReverseFormat)
  }

  /** `os << memoryContents`: mem, addr_max, then the symbol tables. */
  function WriteMemory(s: Simulation): (ts: seq<Token>)
    ensures |ts| == 4 + 2 * (|s.memory.mem| + |s.symbols| + |s.reverseSymbols|)
    ensures ts[0] == Word32(|s.memory.mem| % TWO_32)
    ensures ts[1 + 2 * |s.memory.mem|] == Word64(s.memory.addrMax)
  {
    FormatsValid();
    EncodeMap(s.memory.mem, MemFormat) + ([PutU64(s.memory.addrMax)] + WriteSymbols(s))
  }

  /** `save_model`: the context's time, then the model, then the memory. */
  function Save(s: Simulation): (ts: seq<Token>)
    ensures |ts| >= 6
    ensures ts[0] == Word64(s.time) && ts[1] == Model(s.model)
  {
    [PutU64(s.time)] + ([Model(s.model)] + WriteMemory(s))
  }

  /** The symbol tables as read back, and the tokens after them. */
  datatype SymbolsRead = SymbolsRead(symbols: map<string, u64>, reverseSymbols: map<u64, string>, rest: seq<Token>)

  /** The memory part as read back, and the tokens after it. */
  datatype MemoryRead = MemoryRead(memory: Memory32, symbols: SymbolsRead)

  /** `os >> symbols; os >> reverseSymbols`: two maps, each cleared and read from its count. */
  function ReadSymbols(prior: Simulation, ts: seq<Token>): (r: Result<SymbolsRead>)
    ensures ts == [] ==> r == Failure(Truncated)
    ensures ts != [] && !ts[0].Word32? ==> r == Failure(UnexpectedToken)
    ensures r.Success? ==> |r.value.rest| + 2 <= |ts| && r.value.rest == ts[|ts| - |r.value.rest|..]
  {
    var (symbols, ts1) :- DecodeMap(prior.symbols, ts, SymbolFormat);
    var (reverse, ts2) :- DecodeMap(prior.reverseSymbols, ts1, ReverseFormat);
    Success(SymbolsRead(symbols, reverse, ts2))
  }

  /** `os >> memoryContents`: the four fields in the order they were written, each map cleared first. */
  function ReadMemory(prior: Simulation, ts: seq<Token>): (r: Result<MemoryRead>)
    ensures ts == [] ==> r == Failure(Truncated)
    ensures ts != [] && !ts[0].Word32? ==> r == Failure(UnexpectedToken)
    ensures r.Success? ==> ts[0].Word32? && 1 + 2 * ts[0].w32 < |ts|
                           && ts[1 + 2 * ts[0].w32] == Word64(r.value.memory.addrMax)
  {
    var (mem, ts1) :- DecodeMap(prior.memory.mem, ts, MemFormat);
    var (addrMax, ts2) :- ReadU64(ts1);
    var tables :- ReadSymbols(prior, ts2);
    Success(MemoryRead(Memory32(mem, addrMax), tables))
  }

  /**
   `restore_model`: read the time, the model and the memory, in the order
   `save_model` wrote them, then set the context's time to the time read.
   Anything after the memory is not read.
   */
  function Restore(prior: Simulation, ts: seq<Token>): (r: Result<Simulation>)
    ensures ts == [] ==> r == Failure(Truncated)
    ensures r.Success? ==> |ts| >= 6 && ts[0] == Word64(r.value.time) && ts[1] == Model(r.value.model)
  {
    var (time, ts1) :- ReadU64(ts);
    var (model, ts2) :- ReadModel(ts1);
    var m :- ReadMemory(prior, ts2);
    Success(Simulation(time, model, m.memory, m.symbols.symbols, m.symbols.reverseSymbols))
  }

  lemma ReadSymbolsIgnoresPrior(p1: Simulation, p2: Simulation, ts: seq<Token>)
    ensures ReadSymbols(p1, ts) == ReadSymbols(p2, ts)
  {
    DecodeIgnoresDestination(p1.symbols, p2.symbols, ts, SymbolFormat);
    var d := DecodeMap(p1.symbols, ts, SymbolFormat);
    if d.Success? {
      DecodeIgnoresDestination(p1.reverseSymbols, p2.reverseSymbols, d.value.1, ReverseFormat);
    }
  }

  lemma ReadMemoryIgnoresPrior(p1: Simulation, p2: Simulation, ts: seq<Token>)
    ensures ReadMemory(p1, ts) == ReadMemory(p2, ts)
  {
    DecodeIgnoresDestination(p1.memory.mem, p2.memory.mem, ts, MemFormat);
    var d := DecodeMap(p1.memory.mem, ts, MemFormat);
    if d.Success? {
      var a := ReadU64(d.value.1);
      if a.Success? {
        ReadSymbolsIgnoresPrior(p1, p2, a.value.1);
      }
    }
  }

  /** Nothing of the state before a restore survives it. */
  lemma RestoreIgnoresPrior(p1: Simulation, p2: Simulation, ts: seq<Token>)
    ensures Restore(p1, ts) == Restore(p2, ts)
  {
    var t := ReadU64(ts);
    if t.Success? {
      var m := ReadModel(t.value.1);
      if m.Success? {
        ReadMemoryIgnoresPrior(p1, p2, m.value.1);
      }
    }
  }

  lemma SymbolsRoundTrip(prior: Simulation, s: Simulation, rest: seq<Token>)
    requires |s.symbols| < TWO_32 && |s.reverseSymbols| < TWO_32
    ensures ReadSymbols(prior, WriteSymbols(s) + rest) == Success(SymbolsRead(s.symbols, s.reverseSymbols, rest))
  {
    FormatsValid();
    var a := EncodeMap(s.symbols, SymbolFormat);
    var b := EncodeMap(s.reverseSymbols, ReverseFormat);
    AppendAssoc(a, b, rest);
    MapRoundTrip(s.symbols, prior.symbols, b + rest, SymbolFormat);
    MapRoundTrip(s.reverseSymbols, prior.reverseSymbols, rest, ReverseFormat);
  }

  lemma MemoryRoundTrip(prior: Simulation, s: Simulation, rest: seq<Token>)
    requires Fits(s)
    ensures ReadMemory(prior, WriteMemory(s) + rest)
         == Success(MemoryRead(s.memory, SymbolsRead(s.symbols, s.reverseSymbols, rest)))
  {
    FormatsValid();
    var a := EncodeMap(s.memory.mem, MemFormat);
    var t2 := WriteSymbols(s) + rest;
    var t1 := [PutU64(s.memory.addrMax)] + t2;
    AppendAssoc([PutU64(s.memory.addrMax)], WriteSymbols(s), rest);
    AppendAssoc(a, [PutU64(s.memory.addrMax)] + WriteSymbols(s), rest);
    MapRoundTrip(s.memory.mem, prior.memory.mem, t1, MemFormat);
    assert ReadU64(t1) == Success((s.memory.addrMax, t2));
    SymbolsRoundTrip(prior, s, rest);
  }

  /**
   Restoring what was saved, into any prior state and whatever follows in the
   file, gives back the saved time, model, memory and symbol tables.
   */
  lemma CheckpointRoundTrip(prior: Simulation, s: Simulation, rest: seq<Token>)
    requires Fits(s)
    ensures Restore(prior, Save(s) + rest) == Success(s)
  {
    var mem := WriteMemory(s) + rest;
    AppendAssoc([Model(s.model)], WriteMemory(s), rest);
    AppendAssoc([PutU64(s.time)], [Model(s.model)] + WriteMemory(s), rest);
    assert ReadU64(Save(s) + rest) == Success((s.time, [Model(s.model)] + mem));
    assert ReadModel([Model(s.model)] + mem) == Success((s.model, mem));
    MemoryRoundTrip(prior, s, rest);
  }

  // Start-up options.

  const RestoreOnFlag: string := "+checkpoint_restore_ON"
  const RestoreNameFlag: string := "+checkpoint_restore_name="
  const DefaultFileName: string := "verilator_model_1.bin"

  /** `arg.find(p) == 0`: `p` occurs at the start of `arg`. */
  predicate StartsWith(arg: string, p: string)
  {
    |p| <= |arg| && arg[..|p|] == p
  }

  /** No argument selects both options: the two flags differ within their common length. */
  lemma FlagsExclusive(arg: string)
    ensures StartsWith(arg, RestoreOnFlag) ==> !StartsWith(arg, RestoreNameFlag)
  {
    if StartsWith(arg, RestoreOnFlag) {
      assert arg[20] == RestoreOnFlag[20] == 'O';
      assert RestoreNameFlag[20] == 'n';
    }
  }

  /** The file name given by the last `+checkpoint_restore_name=` among `args`, if any. */
  function LastNameArg(args: seq<string>): (r: Option<string>)
  {
    if args == [] then None
    else if StartsWith(args[|args| - 1], RestoreNameFlag) then Some(args[|args| - 1][|RestoreNameFlag|..])
    else LastNameArg(args[..|args| - 1])
  }

  /** The last naming argument wins, and no name leaves `None`. */
  lemma {:induction false} LastNameArgIsLast(args: seq<string>)
    ensures LastNameArg(args).None? <==> forall i :: 0 <= i < |args| ==> !StartsWith(args[i], RestoreNameFlag)
    ensures LastNameArg(args).Some? ==>
              exists i :: 0 <= i < |args| && StartsWith(args[i], RestoreNameFlag)
                && LastNameArg(args).value == args[i][|RestoreNameFlag|..]
                && forall j :: i < j < |args| ==> !StartsWith(args[j], RestoreNameFlag)
  {
    if args != [] {
      var init := args[..|args| - 1];
      LastNameArgIsLast(init);
      if !StartsWith(args[|args| - 1], RestoreNameFlag) && LastNameArg(init).Some? {
        var i :| 0 <= i < |init| && StartsWith(init[i], RestoreNameFlag)
                && LastNameArg(init).value == init[i][|RestoreNameFlag|..]
                && forall j :: i < j < |init| ==> !StartsWith(init[j], RestoreNameFlag);
        assert args[i] == init[i];
      }
    }
  }

  /**
   The argument loop of `main`: every argument after the program name is
   inspected; one starting with `+checkpoint_restore_ON` turns restoring on,
   and one starting with `+checkpoint_restore_name=` sets the file name to
   the rest of it.
   */
  method ParseRestoreArgs(argv: seq<string>) returns (restore: bool, fileName: string)
    requires |argv| >= 1
    ensures restore <==> exists i :: 1 <= i < |argv| && StartsWith(argv[i], RestoreOnFlag)
    ensures fileName == FileNameOf(argv)
  {
    restore := false;
    fileName := DefaultFileName;
    var args := argv[1..];
    var k := 0;
    while k < |args|
      invariant 0 <= k <= |args|
      invariant restore <==> exists i :: 0 <= i < k && StartsWith(args[i], RestoreOnFlag)
      invariant fileName == match LastNameArg(args[..k]) case Some(name) => name case None => DefaultFileName
    {
      var arg := args[k];
      assert args[..k + 1][..k] == args[..k];
      if |RestoreOnFlag| <= |arg| && arg[..|RestoreOnFlag|] == RestoreOnFlag {
        restore := true;
        FlagsExclusive(arg);
      } else if |RestoreNameFlag| <= |arg| && arg[..|RestoreNameFlag|] == RestoreNameFlag {
        fileName := arg[|RestoreNameFlag|..];
      }
      k := k + 1;
    }
    assert args[..k] == args;
    assert forall i :: 0 <= i < |args| ==> args[i] == argv[i + 1];
  }

  /**
   Start-up: parse the options and, when restoring is on, restore from the
   chosen file over the freshly built simulation; `open` stands for reading
   that file's stream.
   */
  method Startup(argv: seq<string>, booted: Simulation, open: string -> seq<Token>) returns (r: Result<Simulation>, restored: bool)
    requires |argv| >= 1
    ensures restored <==> exists i :: 1 <= i < |argv| && StartsWith(argv[i], RestoreOnFlag)
    ensures !restored ==> r == Success(booted)
    ensures restored ==> r == Restore(booted, open(FileNameOf(argv)))
    ensures restored ==> forall s, rest :: Fits(s) && open(FileNameOf(argv)) == Save(s) + rest ==> r == Success(s)
  {
    var fileName;
    restored, fileName := ParseRestoreArgs(argv);
    if restored {
      r := Restore(booted, open(fileName));
      forall s, rest | Fits(s) && open(FileNameOf(argv)) == Save(s) + rest ensures r == Success(s) {
        CheckpointRoundTrip(booted, s, rest);
      }
    } else {
      r := Success(booted);
    }
  }

  /** The file a restore reads: the last name given, or the default. */
  function FileNameOf(argv: seq<string>): string
    requires |argv| >= 1
  {
    match LastNameArg(argv[1..])
    case Some(name) => name
    case None => DefaultFileName
  }
}
