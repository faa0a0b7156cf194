/**
 The Kanata pipeline-trace recorder: one call per simulated cycle turns the
 pipeline's valid/stall/flush flags and instruction ids into an ordered block
 of trace records, or, when nothing moved, into one more idle cycle to be
 reported later. `Step` evaluates one rule per pipeline stage, in pipeline
 order, from a table of stage descriptors; `KonataLiteral` writes the C++
 recorder's stage-by-stage conditionals out one by one and proves they emit
 the same records.
 */
module Konata {
  import opened Words
  import opened Wrappers
  import opened Seqs

  /** One trace record; the comment shows the line it becomes in the log. */
  datatype Record =
    | Cycle(elapsed: u64)                 // C  <elapsed>
    | Born(id: u64)                       // I  <id> <id> 0
    | Label(id: u64, pc: int, inst: u64)  // L  <id> 0 <pc>: <disassembly of inst>
    | Start(id: u64, stage: string)       // S  <id> 0 <stage>
    | End(id: u64, stage: string)         // E  <id> 0 <stage>
    | Retire(id: u64, flushed: bool)      // R  <id> <id> 1 when flushed, 0 when retired

  /**
   The signal vector of one cycle, in the parameter order of the recorder.
   Flags are the C truth value of the corresponding 64-bit argument.
   */
  datatype Signals = Signals(
    if1Valid: bool, if2Valid: bool, idValid: bool, irValid: bool, rrValid: bool, exeValid: bool,
    wb1Valid: bool, wb2Valid: bool, wb3Valid: bool, wb4Valid: bool,
    wb1FpValid: bool, wb2FpValid: bool, wb1SimdValid: bool, wb2SimdValid: bool, wbStoreValid: bool,
    if1Stall: bool, if2Stall: bool, idStall: bool, irStall: bool, rrStall: bool, exeStall: bool,
    if1Flush: bool, if2Flush: bool, idFlush: bool, irFlush: bool, rrFlush: bool, exeFlush: bool,
    idPc: u64, idInst: u64,
    if1Id: u64, if2Id: u64, idId: u64, irId: u64, rrId: u64, exeId: u64, exeUnit: u64,
    wb1Id: u64, wb2Id: u64, wb3Id: u64, wb4Id: u64,
    wb1FpId: u64, wb2FpId: u64, wb1SimdId: u64, wb2SimdId: u64, wbStoreId: u64)

  /**
   State kept between cycles: the cycles since the previous reported cycle, to
   report with the next active block, and the ids last seen at the two fetch
   stages.
   */
  datatype Recorder = Recorder(cycles: u64, lastIf1: u64, lastIf2: u64)

  /** The state before the first cycle: all three globals start at 1. */
  const Init: Recorder := Recorder(1, 1, 1)

  datatype Output = Output(next: Recorder, records: seq<Record>)

  /**
   A cycle is reported when a pipeline stage advanced, a writeback slot other
   than the store slot was valid, or a stage was flushed. The store writeback
   slot is not part of the test.
   */
  predicate Active(g: Signals)
  {
    || (g.if1Valid && !g.if1Stall) || (g.if2Valid && !g.if2Stall) || (g.idValid && !g.idStall)
    || (g.exeValid && !g.exeStall) || (g.irValid && !g.irStall) || (g.rrValid && !g.rrStall)
    || g.wb1Valid || g.wb2Valid || g.wb3Valid || g.wb4Valid
    || g.wb1FpValid || g.wb2FpValid || g.wb1SimdValid || g.wb2SimdValid
    || g.if1Flush || g.if2Flush || g.idFlush || g.irFlush || g.rrFlush || g.exeFlush
  }

  /** The unit names of the execute stage, indexed by the unit code. */
  const UnitLabels: seq<string> := ["A", "DIV", "MUL", "B", "M", "V", "FP"]

  /** Label of the execute stage: ALU, divider, multiplier, branch, memory, SIMD, FPU, else control/system. */
  function ExeLabel(unit: u64): string
  {
    if unit < |UnitLabels| then UnitLabels[unit] else "E"
  }

  /** Reads an execute-stage label back to the unit code it names; `None` for the catch-all label. */
  function UnitOfLabel(name: string): Option<u64>
  {
    if name == "A" then Some(0)
    else if name == "DIV" then Some(1)
    else if name == "MUL" then Some(2)
    else if name == "B" then Some(3)
    else if name == "M" then Some(4)
    else if name == "V" then Some(5)
    else if name == "FP" then Some(6)
    else None
  }

  /** The label names the unit: codes 0 to 6 read back to themselves, every other code to the catch-all. */
  lemma ExeLabelIdentifiesUnit(unit: u64)
    ensures UnitOfLabel(ExeLabel(unit)) == if unit < 7 then Some(unit) else None
    ensures ExeLabel(unit) == "E" <==> unit >= 7
  {
  }

  function RetireIf(valid: bool, id: u64): seq<Record>
  {
    if valid then [Retire(id, false)] else []
  }

  datatype Stage = Fetch1 | Fetch2 | Decode | Issue | RegRead | Execute

  /** Stages in the order the recorder visits them, earliest fetch first. */
  const PipelineOrder: seq<Stage> := [Fetch1, Fetch2, Decode, Issue, RegRead, Execute]

  datatype Slot = Wb1 | Wb2 | Wb3 | Wb4 | Wb1Fp | Wb2Fp | Wb1Simd | Wb2Simd | WbStore

  /** Writeback slots in the order the recorder visits them. */
  const WritebackOrder: seq<Slot> := [Wb1, Wb2, Wb3, Wb4, Wb1Fp, Wb2Fp, Wb1Simd, Wb2Simd, WbStore]

  function ValidOf(g: Signals, x: Stage): bool
  {
    match x
    case Fetch1 => g.if1Valid
    case Fetch2 => g.if2Valid
    case Decode => g.idValid
    case Issue => g.irValid
    case RegRead => g.rrValid
    case Execute => g.exeValid
  }

  function StallOf(g: Signals, x: Stage): bool
  {
    match x
    case Fetch1 => g.if1Stall
    case Fetch2 => g.if2Stall
    case Decode => g.idStall
    case Issue => g.irStall
    case RegRead => g.rrStall
    case Execute => g.exeStall
  }

  function FlushOf(g: Signals, x: Stage): bool
  {
    match x
    case Fetch1 => g.if1Flush
    case Fetch2 => g.if2Flush
    case Decode => g.idFlush
    case Issue => g.irFlush
    case RegRead => g.rrFlush
    case Execute => g.exeFlush
  }

  function IdOf(g: Signals, x: Stage): u64
  {
    match x
    case Fetch1 => g.if1Id
    case Fetch2 => g.if2Id
    case Decode => g.idId
    case Issue => g.irId
    case RegRead => g.rrId
    case Execute => g.exeId
  }

  /** The stage label a stage's `S` record enters; the execute stage names its unit. */
  function EnterLabel(g: Signals, x: Stage): string
  {
    match x
    case Fetch1 => "F1"
    case Fetch2 => "F2"
    case Decode => "D"
    case Issue => "I"
    case RegRead => "R"
    case Execute => ExeLabel(g.exeUnit)
  }

  /** The stage label a stage's `E` record leaves: the label its predecessor entered. */
  function ExitLabel(x: Stage): string
    requires x != Fetch1
  {
    match x
    case Fetch2 => "F1"
    case Decode => "F2"
    case Issue => "D"
    case RegRead => "I"
    case Execute => "R"
  }

  function SlotValid(g: Signals, w: Slot): bool
  {
    match w
    case Wb1 => g.wb1Valid
    case Wb2 => g.wb2Valid
    case Wb3 => g.wb3Valid
    case Wb4 => g.wb4Valid
    case Wb1Fp => g.wb1FpValid
    case Wb2Fp => g.wb2FpValid
    case Wb1Simd => g.wb1SimdValid
    case Wb2Simd => g.wb2SimdValid
    case WbStore => g.wbStoreValid
  }

  function SlotId(g: Signals, w: Slot): u64
  {
    match w
    case Wb1 => g.wb1Id
    case Wb2 => g.wb2Id
    case Wb3 => g.wb3Id
    case Wb4 => g.wb4Id
    case Wb1Fp => g.wb1FpId
    case Wb2Fp => g.wb2FpId
    case Wb1Simd => g.wb1SimdId
    case Wb2Simd => g.wb2SimdId
    case WbStore => g.wbStoreId
  }

  /** The two fetch stages report an id only when it differs from the one they saw last. */
  predicate Fresh(s: Recorder, g: Signals, x: Stage)
  {
    && (x == Fetch1 ==> s.lastIf1 != g.if1Id)
    && (x == Fetch2 ==> s.lastIf2 != g.if2Id)
  }

  /** Stage `x` reports its instruction moving in: valid, not stalled, not flushed, and new at a fetch stage. */
  predicate Advances(s: Recorder, g: Signals, x: Stage)
  {
    ValidOf(g, x) && !StallOf(g, x) && !FlushOf(g, x) && Fresh(s, g, x)
  }

  /** The records of an advancing stage: birth at if1, the disassembly label at decode, then leave and enter. */
  function Entry(g: Signals, x: Stage): seq<Record>
  {
    var id := IdOf(g, x);
    (if x == Fetch1 then [Born(id)] else [])
    + (if x == Decode then [Label(id, SignExtend40(g.idPc), g.idInst)] else [])
    + (if x != Fetch1 then [End(id, ExitLabel(x))] else [])
    + [Start(id, EnterLabel(g, x))]
  }

  /**
   The one rule every stage follows: a flush wins over an advance and reports
   the id as flushed (if1 has no flush record), an advance reports the entry.
   */
  function StageBlock(s: Recorder, g: Signals, x: Stage): seq<Record>
  {
    if FlushOf(g, x) && x != Fetch1 then [Retire(IdOf(g, x), true)]
    else if Advances(s, g, x) then Entry(g, x)
    else []
  }

  function Blocks(s: Recorder, g: Signals, xs: seq<Stage>): seq<Record>
  {
    if xs == [] then [] else StageBlock(s, g, xs[0]) + Blocks(s, g, xs[1..])
  }

  /** Every valid writeback slot retires its id, in slot order, whatever the stall and flush flags say. */
  function Retirements(g: Signals, ws: seq<Slot>): (rs: seq<Record>)
    ensures forall r :: r in rs ==> r.Retire? && !r.flushed
  {
    if ws == [] then []
    else RetireIf(SlotValid(g, ws[0]), SlotId(g, ws[0])) + Retirements(g, ws[1..])
  }

  /** The block of an active cycle: the cycle marker, the stages in order, then the writeback slots. */
  function ActiveBlock(s: Recorder, g: Signals): seq<Record>
  {
    [Cycle(s.cycles)] + Blocks(s, g, PipelineOrder) + Retirements(g, WritebackOrder)
  }

  /**
   One call of the recorder. An idle cycle emits nothing and counts itself; an
   active cycle emits a `C` record carrying the count, then the stage records
   in pipeline order, and restarts the count at 1. The if1 id is remembered on
   every call, the if2 id only when if2 is valid.
   */
  function Step(s: Recorder, g: Signals): (out: Output)
    ensures out.records == [] <==> !Active(g)
    ensures !Active(g) ==> out.next.cycles == Inc64(s.cycles)
    ensures Active(g) ==> out.records[0] == Cycle(s.cycles) && out.next.cycles == 1
    ensures out.next.lastIf1 == g.if1Id
    ensures out.next.lastIf2 == if g.if2Valid then g.if2Id else s.lastIf2
  {
    var next := Recorder(
      if Active(g) then 1 else Inc64(s.cycles),
      g.if1Id,
      if g.if2Valid then g.if2Id else s.lastIf2);
    if Active(g) then Output(next, ActiveBlock(s, g)) else Output(next, [])
  }

  lemma {:induction false} BlocksCons(s: Recorder, g: Signals, x: Stage, xs: seq<Stage>)
    ensures Blocks(s, g, [x] + xs) == StageBlock(s, g, x) + Blocks(s, g, xs)
  {
    assert ([x] + xs)[1..] == xs;
  }

  lemma BlocksOfPipeline(s: Recorder, g: Signals)
    ensures Blocks(s, g, PipelineOrder)
         == StageBlock(s, g, Fetch1) + StageBlock(s, g, Fetch2) + StageBlock(s, g, Decode)
          + StageBlock(s, g, Issue) + StageBlock(s, g, RegRead) + StageBlock(s, g, Execute)
  {
    var e := [Execute] + [];
    var r := [RegRead] + e;
    var i := [Issue] + r;
    var d := [Decode] + i;
    var f2 := [Fetch2] + d;
    var f1 := [Fetch1] + f2;
    assert f1 == PipelineOrder;
    BlocksCons(s, g, Execute, []);
    BlocksCons(s, g, RegRead, e);
    BlocksCons(s, g, Issue, r);
    BlocksCons(s, g, Decode, i);
    BlocksCons(s, g, Fetch2, d);
    BlocksCons(s, g, Fetch1, f2);
    assert Blocks(s, g, []) == [];
    var b1, b2, b3 := StageBlock(s, g, Fetch1), StageBlock(s, g, Fetch2), StageBlock(s, g, Decode);
    var b4, b5, b6 := StageBlock(s, g, Issue), StageBlock(s, g, RegRead), StageBlock(s, g, Execute);
    assert b6 + [] == b6;
    AppendAssoc(b1, b2, b3 + (b4 + (b5 + b6)));
    AppendAssoc(b1 + b2, b3, b4 + (b5 + b6));
    AppendAssoc(b1 + b2 + b3, b4, b5 + b6);
    AppendAssoc(b1 + b2 + b3 + b4, b5, b6);
  }

  /**
   The argument mapping of the SystemVerilog entry point: the recorder's
   `ir_valid` receives the caller's `rr_valid` and its `rr_valid` the caller's
   `ir_valid`; every other argument is passed through in place.
   */
  function DpiToDumpFile(a: Signals): (b: Signals)
    ensures b.irValid == a.rrValid && b.rrValid == a.irValid
  {
    a.(irValid := a.rrValid, rrValid := a.irValid)
  }

  /** Every argument other than the exchanged pair reaches the recorder unchanged. */
  lemma DpiPassesOtherArguments(a: Signals)
    ensures DpiToDumpFile(a).(irValid := a.irValid, rrValid := a.rrValid) == a
  {
  }

  /**
   The SystemVerilog entry point: one recorder step on the re-mapped arguments.
   The fetch-id bookkeeping sees the caller's own arguments, which the
   exchange does not touch; whether the cycle is reported depends on the
   exchanged vector.
   */
  function KonataDump(s: Recorder, a: Signals): (out: Output)
    ensures out.records == [] <==> !Active(DpiToDumpFile(a))
    ensures out.next.lastIf1 == a.if1Id
    ensures out.next.lastIf2 == if a.if2Valid then a.if2Id else s.lastIf2
  {
    Step(s, DpiToDumpFile(a))
  }
}
