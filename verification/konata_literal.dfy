/**
 The recorder's per-cycle routine written out as its source reads: one
 conditional per stage and per writeback slot, in the order they appear. The
 lemma `DumpFileIsStep` shows this literal form and the table-driven `Step`
 are the same function.
 */
module KonataLiteral {
  import opened Words
  import opened Konata
  import opened Seqs

  function Fetch1Records(s: Recorder, g: Signals): seq<Record>
  {
    if g.if1Valid && !g.if1Stall && !g.if1Flush && s.lastIf1 != g.if1Id then
      [Born(g.if1Id), Start(g.if1Id, "F1")]
    else []
  }

  function Fetch2Records(s: Recorder, g: Signals): seq<Record>
  {
    if g.if2Flush then [Retire(g.if2Id, true)]
    else if g.if2Valid && !g.if2Stall && s.lastIf2 != g.if2Id then
      [End(g.if2Id, "F1"), Start(g.if2Id, "F2")]
    else []
  }

  function DecodeRecords(g: Signals): seq<Record>
  {
    if g.idFlush then [Retire(g.idId, true)]
    else if g.idValid && !g.idStall then
      [Label(g.idId, SignExtend40(g.idPc), g.idInst), End(g.idId, "F2"), Start(g.idId, "D")]
    else []
  }

  function IssueRecords(g: Signals): seq<Record>
  {
    if g.irFlush then [Retire(g.irId, true)]
    else if g.irValid && !g.irStall then [End(g.irId, "D"), Start(g.irId, "I")]
    else []
  }

  function RegReadRecords(g: Signals): seq<Record>
  {
    if g.rrFlush then [Retire(g.rrId, true)]
    else if g.rrValid && !g.rrStall then [End(g.rrId, "I"), Start(g.rrId, "R")]
    else []
  }

  function ExecuteRecords(g: Signals): seq<Record>
  {
    if g.exeFlush then [Retire(g.exeId, true)]
    else if g.exeValid && !g.exeStall then [End(g.exeId, "R"), Start(g.exeId, ExeLabel(g.exeUnit))]
    else []
  }

  function WritebackRecords(g: Signals): seq<Record>
  {
    RetireIf(g.wb1Valid, g.wb1Id) + RetireIf(g.wb2Valid, g.wb2Id)
    + RetireIf(g.wb3Valid, g.wb3Id) + RetireIf(g.wb4Valid, g.wb4Id)
    + RetireIf(g.wb1FpValid, g.wb1FpId) + RetireIf(g.wb2FpValid, g.wb2FpId)
    + RetireIf(g.wb1SimdValid, g.wb1SimdId) + RetireIf(g.wb2SimdValid, g.wb2SimdId)
    + RetireIf(g.wbStoreValid, g.wbStoreId)
  }

  /** The routine exactly as written: idle test, then the conditionals, then the bookkeeping. */
  function DumpFile(s: Recorder, g: Signals): (out: Output)
    ensures out.records == [] <==> !Active(g)
    ensures Active(g) ==> out.records[0] == Cycle(s.cycles) && out.next.cycles == 1
    ensures !Active(g) ==> out.next.cycles == Inc64(s.cycles)
    ensures out.next.lastIf1 == g.if1Id
    ensures out.next.lastIf2 == if g.if2Valid then g.if2Id else s.lastIf2
  {
    var cycles := if Active(g) then 1 else Inc64(s.cycles);
    var records :=
      if !Active(g) then []
      else [Cycle(s.cycles)]
           + Fetch1Records(s, g) + Fetch2Records(s, g) + DecodeRecords(g)
           + IssueRecords(g) + RegReadRecords(g) + ExecuteRecords(g)
           + WritebackRecords(g);
    Output(Recorder(cycles, g.if1Id, if g.if2Valid then g.if2Id else s.lastIf2), records)
  }

  lemma {:induction false} RetirementsCons(g: Signals, w: Slot, ws: seq<Slot>)
    ensures Retirements(g, [w] + ws) == RetireIf(SlotValid(g, w), SlotId(g, w)) + Retirements(g, ws)
  {
    assert ([w] + ws)[1..] == ws;
  }

  lemma RetirementsOfWriteback(g: Signals)
    ensures Retirements(g, WritebackOrder) == WritebackRecords(g)
  {
    var w9 := [WbStore] + [];
    var w8 := [Wb2Simd] + w9;
    var w7 := [Wb1Simd] + w8;
    var w6 := [Wb2Fp] + w7;
    var w5 := [Wb1Fp] + w6;
    var w4 := [Wb4] + w5;
    var w3 := [Wb3] + w4;
    var w2 := [Wb2] + w3;
    var w1 := [Wb1] + w2;
    assert w1 == WritebackOrder;
    RetirementsCons(g, WbStore, []);
    RetirementsCons(g, Wb2Simd, w9);
    RetirementsCons(g, Wb1Simd, w8);
    RetirementsCons(g, Wb2Fp, w7);
    RetirementsCons(g, Wb1Fp, w6);
    RetirementsCons(g, Wb4, w5);
    RetirementsCons(g, Wb3, w4);
    RetirementsCons(g, Wb2, w3);
    RetirementsCons(g, Wb1, w2);
    assert Retirements(g, []) == [];
    var r1, r2, r3 := RetireIf(g.wb1Valid, g.wb1Id), RetireIf(g.wb2Valid, g.wb2Id), RetireIf(g.wb3Valid, g.wb3Id);
    var r4, r5, r6 := RetireIf(g.wb4Valid, g.wb4Id), RetireIf(g.wb1FpValid, g.wb1FpId), RetireIf(g.wb2FpValid, g.wb2FpId);
    var r7, r8, r9 := RetireIf(g.wb1SimdValid, g.wb1SimdId), RetireIf(g.wb2SimdValid, g.wb2SimdId), RetireIf(g.wbStoreValid, g.wbStoreId);
    assert r9 + [] == r9;
    AppendAssoc(r1, r2, r3 + (r4 + (r5 + (r6 + (r7 + (r8 + r9))))));
    AppendAssoc(r1 + r2, r3, r4 + (r5 + (r6 + (r7 + (r8 + r9)))));
    AppendAssoc(r1 + r2 + r3, r4, r5 + (r6 + (r7 + (r8 + r9))));
    AppendAssoc(r1 + r2 + r3 + r4, r5, r6 + (r7 + (r8 + r9)));
    AppendAssoc(r1 + r2 + r3 + r4 + r5, r6, r7 + (r8 + r9));
    AppendAssoc(r1 + r2 + r3 + r4 + r5 + r6, r7, r8 + r9);
    AppendAssoc(r1 + r2 + r3 + r4 + r5 + r6 + r7, r8, r9);
  }

  /** Each stage of the literal recorder is an instance of the one table rule. */
  lemma StagesFollowRule(s: Recorder, g: Signals)
    ensures StageBlock(s, g, Fetch1) == Fetch1Records(s, g)
    ensures StageBlock(s, g, Fetch2) == Fetch2Records(s, g)
    ensures StageBlock(s, g, Decode) == DecodeRecords(g)
    ensures StageBlock(s, g, Issue) == IssueRecords(g)
    ensures StageBlock(s, g, RegRead) == RegReadRecords(g)
    ensures StageBlock(s, g, Execute) == ExecuteRecords(g)
  {
  }

  /**
   The literal conditionals and the stage table agree on every cycle: same
   records in the same order, same state afterwards.
   */
  lemma DumpFileIsStep(s: Recorder, g: Signals)
    ensures DumpFile(s, g) == Step(s, g)
  {
    if Active(g) {
      BlocksOfPipeline(s, g);
      RetirementsOfWriteback(g);
      StagesFollowRule(s, g);
      var c, a, b, d := [Cycle(s.cycles)], Fetch1Records(s, g), Fetch2Records(s, g), DecodeRecords(g);
      var e, f, h := IssueRecords(g), RegReadRecords(g), ExecuteRecords(g);
      AppendAssoc(c, a, b);
      AppendAssoc(c, a + b, d);
      AppendAssoc(c, a + b + d, e);
      AppendAssoc(c, a + b + d + e, f);
      AppendAssoc(c, a + b + d + e + f, h);
    }
  }
}
