/**
 Per-cycle facts about the recorder's output, read off the stage table: which
 records each stage writes and when, how flushes and writebacks show up, and
 how the activity test relates to the stages.
 */
module KonataCounts {
  import opened Words
  import opened Konata

  /** Stage `x` is valid and not stalled, or is flushed. */
  predicate Moved(g: Signals, x: Stage)
  {
    (ValidOf(g, x) && !StallOf(g, x)) || FlushOf(g, x)
  }

  /**
   The activity test in table terms: some stage is valid and not stalled or is
   flushed, or some writeback slot other than the store slot is valid.
   */
  lemma ActiveIffSomethingMoved(g: Signals)
    ensures Active(g) <==>
      (|| (exists x: Stage :: Moved(g, x))
       || (exists w: Slot :: w != WbStore && SlotValid(g, w)))
  {
    if Active(g) {
      if (g.if1Valid && !g.if1Stall) || g.if1Flush { assert Moved(g, Fetch1); }
      else if (g.if2Valid && !g.if2Stall) || g.if2Flush { assert Moved(g, Fetch2); }
      else if (g.idValid && !g.idStall) || g.idFlush { assert Moved(g, Decode); }
      else if (g.irValid && !g.irStall) || g.irFlush { assert Moved(g, Issue); }
      else if (g.rrValid && !g.rrStall) || g.rrFlush { assert Moved(g, RegRead); }
      else if (g.exeValid && !g.exeStall) || g.exeFlush { assert Moved(g, Execute); }
      else if g.wb1Valid { assert SlotValid(g, Wb1); }
      else if g.wb2Valid { assert SlotValid(g, Wb2); }
      else if g.wb3Valid { assert SlotValid(g, Wb3); }
      else if g.wb4Valid { assert SlotValid(g, Wb4); }
      else if g.wb1FpValid { assert SlotValid(g, Wb1Fp); }
      else if g.wb2FpValid { assert SlotValid(g, Wb2Fp); }
      else if g.wb1SimdValid { assert SlotValid(g, Wb1Simd); }
      else { assert SlotValid(g, Wb2Simd); }
    }
  }

  /** The store writeback slot has no say in whether a cycle is reported. */
  lemma StoreWritebackAloneStaysIdle(s: Recorder, g: Signals)
    requires !Active(g.(wbStoreValid := false))
    ensures Step(s, g).records == []
    ensures Step(s, g).next.cycles == Inc64(s.cycles)
  {
  }

  // Counting records of one kind.

  datatype Probe =
    | AnyCycle | AnyBorn | AnyLabel
    | StartAs(stage: string) | EndAs(stage: string)
    | Exactly(record: Record)

  predicate Matches(r: Record, p: Probe)
  {
    match p
    case AnyCycle => r.Cycle?
    case AnyBorn => r.Born?
    case AnyLabel => r.Label?
    case StartAs(l) => r.Start? && r.stage == l
    case EndAs(l) => r.End? && r.stage == l
    case Exactly(e) => r == e
  }

  function Hit(r: Record, p: Probe): nat
  {
    if Matches(r, p) then 1 else 0
  }

  function Count(rs: seq<Record>, p: Probe): nat
  {
    if rs == [] then 0 else Hit(rs[0], p) + Count(rs[1..], p)
  }

  lemma {:induction false} CountAppend(a: seq<Record>, b: seq<Record>, p: Probe)
    ensures Count(a + b, p) == Count(a, p) + Count(b, p)
  {
    if a == [] {
      assert a + b == b;
    } else {
      assert (a + b)[0] == a[0];
      assert (a + b)[1..] == a[1..] + b;
      CountAppend(a[1..], b, p);
    }
  }

  lemma CountSingle(r: Record, p: Probe)
    ensures Count([r], p) == Hit(r, p)
  {
    assert [r][1..] == [];
  }

  /** A record occurs in a block exactly when counting it finds it. */
  lemma {:induction false} CountExactly(rs: seq<Record>, r: Record)
    ensures Count(rs, Exactly(r)) > 0 <==> r in rs
  {
    if rs != [] {
      CountExactly(rs[1..], r);
      assert rs == [rs[0]] + rs[1..];
    }
  }

  lemma CountEntry(g: Signals, x: Stage, p: Probe)
    ensures Count(Entry(g, x), p)
         == (if x == Fetch1 then Hit(Born(IdOf(g, x)), p) else 0)
          + (if x == Decode then Hit(Label(IdOf(g, x), SignExtend40(g.idPc), g.idInst), p) else 0)
          + (if x != Fetch1 then Hit(End(IdOf(g, x), ExitLabel(x)), p) else 0)
          + Hit(Start(IdOf(g, x), EnterLabel(g, x)), p)
  {
    var id := IdOf(g, x);
    var a := if x == Fetch1 then [Born(id)] else [];
    var b := if x == Decode then [Label(id, SignExtend40(g.idPc), g.idInst)] else [];
    var c := if x != Fetch1 then [End(id, ExitLabel(x))] else [];
    var d := [Start(id, EnterLabel(g, x))];
    assert Entry(g, x) == a + b + c + d;
    CountAppend(a + b + c, d, p);
    CountAppend(a + b, c, p);
    CountAppend(a, b, p);
    if x == Fetch1 { CountSingle(Born(id), p); }
    if x == Decode { CountSingle(Label(id, SignExtend40(g.idPc), g.idInst), p); }
    if x != Fetch1 { CountSingle(End(id, ExitLabel(x)), p); }
    CountSingle(Start(id, EnterLabel(g, x)), p);
  }

  lemma CountStageBlock(s: Recorder, g: Signals, x: Stage, p: Probe)
    ensures Count(StageBlock(s, g, x), p)
         == if FlushOf(g, x) && x != Fetch1 then Hit(Retire(IdOf(g, x), true), p)
            else if Advances(s, g, x) then Count(Entry(g, x), p)
            else 0
  {
    if FlushOf(g, x) && x != Fetch1 {
      CountSingle(Retire(IdOf(g, x), true), p);
    }
  }

  /** Probes that no retire record can satisfy. */
  predicate MissesRetires(p: Probe)
  {
    p.Exactly? ==> !p.record.Retire?
  }

  lemma {:induction false} CountRetirements(g: Signals, ws: seq<Slot>, p: Probe)
    requires MissesRetires(p)
    ensures Count(Retirements(g, ws), p) == 0
  {
    if ws != [] {
      var head := RetireIf(SlotValid(g, ws[0]), SlotId(g, ws[0]));
      CountAppend(head, Retirements(g, ws[1..]), p);
      CountRetirements(g, ws[1..], p);
      if SlotValid(g, ws[0]) {
        CountSingle(Retire(SlotId(g, ws[0]), false), p);
      }
    }
  }

  /** A count over the pipeline stages is the sum of the six per-stage counts. */
  lemma CountPipeline(s: Recorder, g: Signals, p: Probe)
    ensures Count(Blocks(s, g, PipelineOrder), p)
         == Count(StageBlock(s, g, Fetch1), p) + Count(StageBlock(s, g, Fetch2), p)
          + Count(StageBlock(s, g, Decode), p) + Count(StageBlock(s, g, Issue), p)
          + Count(StageBlock(s, g, RegRead), p) + Count(StageBlock(s, g, Execute), p)
  {
    BlocksOfPipeline(s, g);
    var a, b, c := StageBlock(s, g, Fetch1), StageBlock(s, g, Fetch2), StageBlock(s, g, Decode);
    var d, e, f := StageBlock(s, g, Issue), StageBlock(s, g, RegRead), StageBlock(s, g, Execute);
    CountAppend(a + b + c + d + e, f, p);
    CountAppend(a + b + c + d, e, p);
    CountAppend(a + b + c, d, p);
    CountAppend(a + b, c, p);
    CountAppend(a, b, p);
  }

  lemma CountActiveBlock(s: Recorder, g: Signals, p: Probe)
    ensures Count(ActiveBlock(s, g), p)
         == Hit(Cycle(s.cycles), p) + Count(Blocks(s, g, PipelineOrder), p) + Count(Retirements(g, WritebackOrder), p)
  {
    var c := [Cycle(s.cycles)];
    var b := Blocks(s, g, PipelineOrder);
    var w := Retirements(g, WritebackOrder);
    CountAppend(c + b, w, p);
    CountAppend(c, b, p);
    CountSingle(Cycle(s.cycles), p);
  }

  /** A stage that advances makes the cycle active. */
  lemma AdvanceIsActive(s: Recorder, g: Signals, x: Stage)
    requires Advances(s, g, x)
    ensures Active(g)
  {
  }

  /** Counts a probe that only stage `x` can satisfy over a whole recorder step. */
  lemma CountInStep(s: Recorder, g: Signals, x: Stage, p: Probe)
    requires !Matches(Cycle(s.cycles), p) && MissesRetires(p)
    requires forall y: Stage :: y != x ==> Count(StageBlock(s, g, y), p) == 0
    ensures Count(Step(s, g).records, p) == if Active(g) then Count(StageBlock(s, g, x), p) else 0
  {
    if Active(g) {
      CountActiveBlock(s, g, p);
      CountPipeline(s, g, p);
      CountRetirements(g, WritebackOrder, p);
    }
  }

  lemma EnterLabelsDistinct(g: Signals, x: Stage, y: Stage)
    requires x != y
    ensures EnterLabel(g, x) != EnterLabel(g, y)
  {
  }

  lemma ExitLabelsDistinct(x: Stage, y: Stage)
    requires x != Fetch1 && y != Fetch1 && x != y
    ensures ExitLabel(x) != ExitLabel(y)
  {
  }

  /** No stage other than `x` enters `x`'s label. */
  lemma EnterOwnedByStage(s: Recorder, g: Signals, x: Stage)
    ensures forall y: Stage :: y != x ==> Count(StageBlock(s, g, y), StartAs(EnterLabel(g, x))) == 0
    ensures forall y: Stage :: y != x ==> Count(StageBlock(s, g, y), Exactly(Start(IdOf(g, x), EnterLabel(g, x)))) == 0
  {
    var p := StartAs(EnterLabel(g, x));
    var q := Exactly(Start(IdOf(g, x), EnterLabel(g, x)));
    forall y: Stage | y != x
      ensures Count(StageBlock(s, g, y), p) == 0 && Count(StageBlock(s, g, y), q) == 0
    {
      EnterLabelsDistinct(g, x, y);
      CountStageBlock(s, g, y, p);
      CountEntry(g, y, p);
      CountStageBlock(s, g, y, q);
      CountEntry(g, y, q);
    }
  }

  /**
   Stage `x` writes its entering `S` record exactly when it advances, at most
   once per cycle; a flush of the stage suppresses it.
   */
  lemma EnterRecordIffAdvance(s: Recorder, g: Signals, x: Stage)
    ensures Count(Step(s, g).records, StartAs(EnterLabel(g, x))) == if Advances(s, g, x) then 1 else 0
    ensures Start(IdOf(g, x), EnterLabel(g, x)) in Step(s, g).records <==> Advances(s, g, x)
  {
    var p := StartAs(EnterLabel(g, x));
    var r := Start(IdOf(g, x), EnterLabel(g, x));
    EnterOwnedByStage(s, g, x);
    CountInStep(s, g, x, p);
    CountInStep(s, g, x, Exactly(r));
    CountStageBlock(s, g, x, p);
    CountEntry(g, x, p);
    CountStageBlock(s, g, x, Exactly(r));
    CountEntry(g, x, Exactly(r));
    CountExactly(Step(s, g).records, r);
    if Advances(s, g, x) {
      AdvanceIsActive(s, g, x);
    }
  }

  /** No stage other than `x` leaves `x`'s predecessor label. */
  lemma ExitOwnedByStage(s: Recorder, g: Signals, x: Stage)
    requires x != Fetch1
    ensures forall y: Stage :: y != x ==> Count(StageBlock(s, g, y), EndAs(ExitLabel(x))) == 0
    ensures forall y: Stage :: y != x ==> Count(StageBlock(s, g, y), Exactly(End(IdOf(g, x), ExitLabel(x)))) == 0
  {
    var p := EndAs(ExitLabel(x));
    var q := Exactly(End(IdOf(g, x), ExitLabel(x)));
    forall y: Stage | y != x
      ensures Count(StageBlock(s, g, y), p) == 0 && Count(StageBlock(s, g, y), q) == 0
    {
      if y != Fetch1 {
        ExitLabelsDistinct(x, y);
      }
      CountStageBlock(s, g, y, p);
      CountEntry(g, y, p);
      CountStageBlock(s, g, y, q);
      CountEntry(g, y, q);
    }
  }

  /**
   Every stage after if1 writes its leaving `E` record exactly when it
   advances, at most once per cycle; a flush of the stage suppresses it.
   */
  lemma ExitRecordIffAdvance(s: Recorder, g: Signals, x: Stage)
    requires x != Fetch1
    ensures Count(Step(s, g).records, EndAs(ExitLabel(x))) == if Advances(s, g, x) then 1 else 0
    ensures End(IdOf(g, x), ExitLabel(x)) in Step(s, g).records <==> Advances(s, g, x)
  {
    var p := EndAs(ExitLabel(x));
    var r := End(IdOf(g, x), ExitLabel(x));
    ExitOwnedByStage(s, g, x);
    CountInStep(s, g, x, p);
    CountInStep(s, g, x, Exactly(r));
    CountStageBlock(s, g, x, p);
    CountEntry(g, x, p);
    CountStageBlock(s, g, x, Exactly(r));
    CountEntry(g, x, Exactly(r));
    CountExactly(Step(s, g).records, r);
    if Advances(s, g, x) {
      AdvanceIsActive(s, g, x);
    }
  }

  /**
   An `I` record is written only by if1, at most once per cycle, and exactly
   when if1 is valid, not stalled, not flushed, and holds an id other than the
   one it saw on the previous call.
   */
  lemma BornIffFetchAdvances(s: Recorder, g: Signals)
    ensures Count(Step(s, g).records, AnyBorn) == if Advances(s, g, Fetch1) then 1 else 0
    ensures Born(g.if1Id) in Step(s, g).records <==> Advances(s, g, Fetch1)
  {
    var r := Born(g.if1Id);
    forall y: Stage | y != Fetch1
      ensures Count(StageBlock(s, g, y), AnyBorn) == 0 && Count(StageBlock(s, g, y), Exactly(r)) == 0
    {
      CountStageBlock(s, g, y, AnyBorn);
      CountEntry(g, y, AnyBorn);
      CountStageBlock(s, g, y, Exactly(r));
      CountEntry(g, y, Exactly(r));
    }
    CountInStep(s, g, Fetch1, AnyBorn);
    CountInStep(s, g, Fetch1, Exactly(r));
    CountStageBlock(s, g, Fetch1, AnyBorn);
    CountEntry(g, Fetch1, AnyBorn);
    CountStageBlock(s, g, Fetch1, Exactly(r));
    CountEntry(g, Fetch1, Exactly(r));
    CountExactly(Step(s, g).records, r);
    if Advances(s, g, Fetch1) {
      AdvanceIsActive(s, g, Fetch1);
    }
  }

  /**
   An `L` record is written only by decode, at most once per cycle, exactly
   when decode advances, and it carries the decode id, the program counter
   sign-extended from 40 bits and the instruction word.
   */
  lemma LabelIffDecodeAdvances(s: Recorder, g: Signals)
    ensures Count(Step(s, g).records, AnyLabel) == if Advances(s, g, Decode) then 1 else 0
    ensures Label(g.idId, SignExtend40(g.idPc), g.idInst) in Step(s, g).records <==> Advances(s, g, Decode)
  {
    var r := Label(g.idId, SignExtend40(g.idPc), g.idInst);
    forall y: Stage | y != Decode
      ensures Count(StageBlock(s, g, y), AnyLabel) == 0 && Count(StageBlock(s, g, y), Exactly(r)) == 0
    {
      CountStageBlock(s, g, y, AnyLabel);
      CountEntry(g, y, AnyLabel);
      CountStageBlock(s, g, y, Exactly(r));
      CountEntry(g, y, Exactly(r));
    }
    CountInStep(s, g, Decode, AnyLabel);
    CountInStep(s, g, Decode, Exactly(r));
    CountStageBlock(s, g, Decode, AnyLabel);
    CountEntry(g, Decode, AnyLabel);
    CountStageBlock(s, g, Decode, Exactly(r));
    CountEntry(g, Decode, Exactly(r));
    CountExactly(Step(s, g).records, r);
    if Advances(s, g, Decode) {
      AdvanceIsActive(s, g, Decode);
    }
  }

  // Projections of the retire records.

  /** The ids of the `R` records whose flush field is `flushed`, in log order. */
  function RetireIds(rs: seq<Record>, flushed: bool): seq<u64>
  {
    if rs == [] then []
    else (if rs[0].Retire? && rs[0].flushed == flushed then [rs[0].id] else []) + RetireIds(rs[1..], flushed)
  }

  lemma {:induction false} RetireIdsAppend(a: seq<Record>, b: seq<Record>, flushed: bool)
    ensures RetireIds(a + b, flushed) == RetireIds(a, flushed) + RetireIds(b, flushed)
  {
    if a == [] {
      assert a + b == b;
    } else {
      assert (a + b)[0] == a[0];
      assert (a + b)[1..] == a[1..] + b;
      RetireIdsAppend(a[1..], b, flushed);
    }
  }

  lemma {:induction false} RetireIdsNone(rs: seq<Record>, flushed: bool)
    requires forall i :: 0 <= i < |rs| ==> !rs[i].Retire?
    ensures RetireIds(rs, flushed) == []
  {
    if rs != [] {
      RetireIdsNone(rs[1..], flushed);
    }
  }

  /** The ids of the stages of `xs` that report a flush, in stage order; if1 reports none. */
  function FlushedStageIds(g: Signals, xs: seq<Stage>): seq<u64>
  {
    if xs == [] then []
    else (if FlushOf(g, xs[0]) && xs[0] != Fetch1 then [IdOf(g, xs[0])] else []) + FlushedStageIds(g, xs[1..])
  }

  /** The ids of the valid writeback slots of `ws`, in slot order. */
  function ValidSlotIds(g: Signals, ws: seq<Slot>): seq<u64>
  {
    if ws == [] then []
    else (if SlotValid(g, ws[0]) then [SlotId(g, ws[0])] else []) + ValidSlotIds(g, ws[1..])
  }

  lemma {:induction false} FlushedIdsOfBlocks(s: Recorder, g: Signals, xs: seq<Stage>)
    ensures RetireIds(Blocks(s, g, xs), true) == FlushedStageIds(g, xs)
    ensures RetireIds(Blocks(s, g, xs), false) == []
  {
    if xs != [] {
      var x := xs[0];
      RetireIdsAppend(StageBlock(s, g, x), Blocks(s, g, xs[1..]), true);
      RetireIdsAppend(StageBlock(s, g, x), Blocks(s, g, xs[1..]), false);
      FlushedIdsOfBlocks(s, g, xs[1..]);
      if FlushOf(g, x) && x != Fetch1 {
        assert StageBlock(s, g, x) == [Retire(IdOf(g, x), true)];
        assert [Retire(IdOf(g, x), true)][1..] == [];
      } else if Advances(s, g, x) {
        RetireIdsNone(Entry(g, x), true);
        RetireIdsNone(Entry(g, x), false);
      }
    }
  }

  lemma {:induction false} RetireIdsOfRetirements(g: Signals, ws: seq<Slot>)
    ensures RetireIds(Retirements(g, ws), false) == ValidSlotIds(g, ws)
    ensures RetireIds(Retirements(g, ws), true) == []
  {
    if ws != [] {
      var head := RetireIf(SlotValid(g, ws[0]), SlotId(g, ws[0]));
      RetireIdsAppend(head, Retirements(g, ws[1..]), true);
      RetireIdsAppend(head, Retirements(g, ws[1..]), false);
      RetireIdsOfRetirements(g, ws[1..]);
      if SlotValid(g, ws[0]) {
        assert [Retire(SlotId(g, ws[0]), false)][1..] == [];
      }
    }
  }

  /**
   The flush records of a cycle are one `R id id 1` per flushed stage from if2
   to execute, in stage order; the retire records are one `R id id 0` per
   valid writeback slot, in slot order, whenever the cycle is reported at all.
   */
  lemma RetireRecordsOfStep(s: Recorder, g: Signals)
    ensures RetireIds(Step(s, g).records, true) == FlushedStageIds(g, PipelineOrder)
    ensures RetireIds(Step(s, g).records, false) == if Active(g) then ValidSlotIds(g, WritebackOrder) else []
  {
    FlushedIdsOfBlocks(s, g, PipelineOrder);
    if Active(g) {
      var c := [Cycle(s.cycles)];
      var b := Blocks(s, g, PipelineOrder);
      var w := Retirements(g, WritebackOrder);
      RetireIdsOfRetirements(g, WritebackOrder);
      RetireIdsAppend(c + b, w, true);
      RetireIdsAppend(c, b, true);
      RetireIdsAppend(c + b, w, false);
      RetireIdsAppend(c, b, false);
      RetireIdsNone(c, true);
      RetireIdsNone(c, false);
    } else {
      assert !g.if2Flush && !g.idFlush && !g.irFlush && !g.rrFlush && !g.exeFlush;
      NoFlushNoIds(g, PipelineOrder);
    }
  }

  lemma {:induction false} NoFlushNoIds(g: Signals, xs: seq<Stage>)
    requires forall i :: 0 <= i < |xs| && xs[i] != Fetch1 ==> !FlushOf(g, xs[i])
    ensures FlushedStageIds(g, xs) == []
  {
    if xs != [] {
      NoFlushNoIds(g, xs[1..]);
    }
  }

  /**
   Through the SystemVerilog entry point, the issue stage's `S I` record follows
   the caller's register-read valid flag and the register-read stage's `S R`
   record follows the caller's issue valid flag; stall, flush and id stay with
   their own stage.
   */
  lemma DumpSwapsIssueAndRegRead(s: Recorder, a: Signals)
    ensures Count(KonataDump(s, a).records, StartAs("I")) == if a.rrValid && !a.irStall && !a.irFlush then 1 else 0
    ensures Count(KonataDump(s, a).records, StartAs("R")) == if a.irValid && !a.rrStall && !a.rrFlush then 1 else 0
  {
    var g := DpiToDumpFile(a);
    EnterRecordIffAdvance(s, g, Issue);
    EnterRecordIffAdvance(s, g, RegRead);
  }
}
