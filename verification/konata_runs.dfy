/**
 The trace recorder over many cycles: `Run` feeds a sequence of signal vectors
 through `Step` and concatenates the blocks. The lemmas here are about idle
 compression (one `C` record per reported cycle, carrying the cycles since the
 previous reported cycle) and about duplicate suppression at the two fetch stages.
 */
module KonataRuns {
  import opened Words
  import opened Konata
  import opened KonataCounts

  /** Feeds `gs` through a per-cycle step, one call per element, concatenating the blocks. */
  function Fold(step: (Recorder, Signals) -> Output, s: Recorder, gs: seq<Signals>): Output
    decreases |gs|
  {
    if gs == [] then Output(s, [])
    else
      var first := step(s, gs[0]);
      var rest := Fold(step, first.next, gs[1..]);
      Output(rest.next, first.records + rest.records)
  }

  /** The recorder driven by one signal vector per cycle; `records` is the whole log body. */
  function Run(s: Recorder, gs: seq<Signals>): Output
  {
    Fold(Step, s, gs)
  }

  lemma RunCons(s: Recorder, gs: seq<Signals>)
    requires gs != []
    ensures Run(s, gs).next == Run(Step(s, gs[0]).next, gs[1..]).next
    ensures Run(s, gs).records == Step(s, gs[0]).records + Run(Step(s, gs[0]).next, gs[1..]).records
  {
  }

  /** The number of cycles of `gs` that the recorder reports. */
  function ActiveCycles(gs: seq<Signals>): nat
  {
    if gs == [] then 0 else (if Active(gs[0]) then 1 else 0) + ActiveCycles(gs[1..])
  }

  /** The sum of the counts carried by the `C` records of a log. */
  function MarkerTotal(rs: seq<Record>): int
  {
    if rs == [] then 0 else (if rs[0].Cycle? then rs[0].elapsed else 0) + MarkerTotal(rs[1..])
  }

  lemma {:induction false} MarkerTotalAppend(a: seq<Record>, b: seq<Record>)
    ensures MarkerTotal(a + b) == MarkerTotal(a) + MarkerTotal(b)
  {
    if a == [] {
      assert a + b == b;
    } else {
      assert (a + b)[0] == a[0];
      assert (a + b)[1..] == a[1..] + b;
      MarkerTotalAppend(a[1..], b);
    }
  }

  lemma {:induction false} MarkerTotalNone(rs: seq<Record>)
    requires forall i :: 0 <= i < |rs| ==> !rs[i].Cycle?
    ensures MarkerTotal(rs) == 0
  {
    if rs != [] {
      MarkerTotalNone(rs[1..]);
    }
  }

  /** An active block carries exactly one `C` record. */
  lemma CycleMarkerOfStep(s: Recorder, g: Signals)
    ensures Count(Step(s, g).records, AnyCycle) == if Active(g) then 1 else 0
  {
    if Active(g) {
      CountActiveBlock(s, g, AnyCycle);
      NoCycleInBlocks(s, g, PipelineOrder);
      CountNoMatch(Blocks(s, g, PipelineOrder), AnyCycle);
      CountRetirements(g, WritebackOrder, AnyCycle);
    }
  }

  /** The one `C` record of an active block carries the pending count. */
  lemma MarkerTotalOfStep(s: Recorder, g: Signals)
    ensures MarkerTotal(Step(s, g).records) == if Active(g) then s.cycles else 0
  {
    if Active(g) {
      var c := [Cycle(s.cycles)];
      var b := Blocks(s, g, PipelineOrder);
      var w := Retirements(g, WritebackOrder);
      NoCycleInBlocks(s, g, PipelineOrder);
      MarkerTotalAppend(c + b, w);
      MarkerTotalAppend(c, b);
      assert c[1..] == [];
      MarkerTotalNone(b);
      assert forall i | 0 <= i < |w| :: w[i] in w;
      MarkerTotalNone(w);
    }
  }

  lemma {:induction false} CountNoMatch(rs: seq<Record>, p: Probe)
    requires forall i :: 0 <= i < |rs| ==> !Matches(rs[i], p)
    ensures Count(rs, p) == 0
  {
    if rs != [] {
      CountNoMatch(rs[1..], p);
    }
  }

  lemma {:induction false} NoCycleInBlocks(s: Recorder, g: Signals, xs: seq<Stage>)
    ensures forall i :: 0 <= i < |Blocks(s, g, xs)| ==> !Blocks(s, g, xs)[i].Cycle?
  {
    if xs != [] {
      NoCycleInBlocks(s, g, xs[1..]);
      var a: seq<Record> := StageBlock(s, g, xs[0]);
      var b: seq<Record> := Blocks(s, g, xs[1..]);
      assert Blocks(s, g, xs) == a + b;
      forall i | 0 <= i < |a + b| ensures !(a + b)[i].Cycle? {
        if i >= |a| {
          assert (a + b)[i] == b[i - |a|];
        }
      }
    }
  }

  lemma {:induction false} FoldAppend(step: (Recorder, Signals) -> Output, s: Recorder, a: seq<Signals>, b: seq<Signals>)
    ensures Fold(step, s, a + b).next == Fold(step, Fold(step, s, a).next, b).next
    ensures Fold(step, s, a + b).records == Fold(step, s, a).records + Fold(step, Fold(step, s, a).next, b).records
    decreases |a|
  {
    if a == [] {
      assert a + b == b;
    } else {
      assert (a + b)[0] == a[0];
      assert (a + b)[1..] == a[1..] + b;
      FoldAppend(step, step(s, a[0]).next, a[1..], b);
    }
  }

  lemma RunAppend(s: Recorder, a: seq<Signals>, b: seq<Signals>)
    ensures Run(s, a + b).next == Run(Run(s, a).next, b).next
    ensures Run(s, a + b).records == Run(s, a).records + Run(Run(s, a).next, b).records
  {
    FoldAppend(Step, s, a, b);
  }

  /** Idle cycles are reported by count, never one by one: the log has one `C` record per active cycle. */
  lemma {:induction false} OneMarkerPerActiveCycle(s: Recorder, gs: seq<Signals>)
    ensures Count(Run(s, gs).records, AnyCycle) == ActiveCycles(gs)
    decreases |gs|
  {
    if gs != [] {
      var first := Step(s, gs[0]);
      CycleMarkerOfStep(s, gs[0]);
      OneMarkerPerActiveCycle(first.next, gs[1..]);
      CountAppend(first.records, Run(first.next, gs[1..]).records, AnyCycle);
    }
  }

  /**
   No cycle is lost or counted twice: the counts carried by the `C` records of
   a run, plus the count still pending, equal the count pending at the start
   plus the number of cycles run (as long as the 64-bit counter does not wrap).
   */
  lemma {:induction false} MarkersAccountForEveryCycle(s: Recorder, gs: seq<Signals>)
    requires s.cycles + |gs| < TWO_64
    ensures MarkerTotal(Run(s, gs).records) + Run(s, gs).next.cycles == s.cycles + |gs|
    decreases |gs|
  {
    if gs != [] {
      var first := Step(s, gs[0]);
      MarkerTotalOfStep(s, gs[0]);
      MarkersAccountForEveryCycle(first.next, gs[1..]);
      MarkerTotalAppend(first.records, Run(first.next, gs[1..]).records);
    }
  }

  /** A run of idle cycles writes nothing and adds its length to the pending count, modulo 2^64. */
  lemma {:induction false} IdleRun(s: Recorder, gs: seq<Signals>)
    requires forall i :: 0 <= i < |gs| ==> !Active(gs[i])
    ensures Run(s, gs).records == []
    ensures Run(s, gs).next.cycles == (s.cycles + |gs|) % TWO_64
    decreases |gs|
  {
    if gs != [] {
      IdleRun(Step(s, gs[0]).next, gs[1..]);
    }
  }

  /**
   `n` idle cycles followed by an active one produce that cycle's block alone,
   opened by `C n+1` when the count was restarted at 1, as it is at start and
   after every active cycle.
   */
  lemma IdleRunThenActive(s: Recorder, gs: seq<Signals>, g: Signals)
    requires forall i :: 0 <= i < |gs| ==> !Active(gs[i])
    requires Active(g)
    ensures Run(s, gs + [g]).records == Step(Run(s, gs).next, g).records
    ensures Run(s, gs + [g]).records[0] == Cycle((s.cycles + |gs|) % TWO_64)
    ensures Count(Run(s, gs + [g]).records, AnyCycle) == 1
    ensures s.cycles == 1 && |gs| < TWO_64 - 1 ==> Run(s, gs + [g]).records[0] == Cycle(|gs| + 1)
  {
    IdleRun(s, gs);
    RunAppend(s, gs, [g]);
    var mid := Run(s, gs).next;
    RunCons(mid, [g]);
    assert [g][1..] == [];
    assert Run(mid, [g]).records == Step(mid, g).records + [];
    CycleMarkerOfStep(mid, g);
  }

  /**
   Holding one id at if1 for any number of cycles yields at most one `I`
   record, and none if that id was the last one seen before the run.
   */
  lemma {:induction false} FetchHeldBornOnce(s: Recorder, gs: seq<Signals>, id: u64)
    requires forall i :: 0 <= i < |gs| ==> gs[i].if1Id == id
    ensures Count(Run(s, gs).records, AnyBorn) <= if s.lastIf1 == id then 0 else 1
    decreases |gs|
  {
    if gs != [] {
      var first := Step(s, gs[0]);
      BornIffFetchAdvances(s, gs[0]);
      assert first.next.lastIf1 == id;
      FetchHeldBornOnce(first.next, gs[1..], id);
      CountAppend(first.records, Run(first.next, gs[1..]).records, AnyBorn);
    }
  }

  /**
   Holding one id at if2 (the id of every cycle in which if2 is valid) yields
   at most one `S F2` record, and none if that id was the last valid if2 id
   seen before the run.
   */
  lemma {:induction false} Fetch2HeldEntersOnce(s: Recorder, gs: seq<Signals>, id: u64)
    requires forall i :: 0 <= i < |gs| ==> gs[i].if2Valid ==> gs[i].if2Id == id
    ensures Count(Run(s, gs).records, StartAs("F2")) <= if s.lastIf2 == id then 0 else 1
    decreases |gs|
  {
    if gs != [] {
      var first := Step(s, gs[0]);
      EnterRecordIffAdvance(s, gs[0], Fetch2);
      Fetch2HeldEntersOnce(first.next, gs[1..], id);
      CountAppend(first.records, Run(first.next, gs[1..]).records, StartAs("F2"));
    }
  }

  /**
   The exact count at if1: holding one id for a run yields one `I` record if
   the run's first cycle advances it at if1, and none otherwise. Later cycles
   never report it, because `last_if1_id` takes the id on every cycle, idle
   and stalled ones included.
   */
  lemma {:induction false} FetchHeldBornExactly(s: Recorder, gs: seq<Signals>, id: u64)
    requires forall i :: 0 <= i < |gs| ==> gs[i].if1Id == id
    ensures Count(Run(s, gs).records, AnyBorn) == if gs != [] && Advances(s, gs[0], Fetch1) then 1 else 0
  {
    if gs != [] {
      var first := Step(s, gs[0]);
      BornIffFetchAdvances(s, gs[0]);
      FetchHeldBornOnce(first.next, gs[1..], id);
      CountAppend(first.records, Run(first.next, gs[1..]).records, AnyBorn);
    }
  }

  /**
   An id first seen stalled at if1 is never reported as born, however it
   advances afterwards: the stalled cycle already recorded it as last seen.
   */
  lemma StalledFirstNeverBorn(s: Recorder, gs: seq<Signals>, id: u64)
    requires forall i :: 0 <= i < |gs| ==> gs[i].if1Id == id
    requires gs != [] && gs[0].if1Stall
    ensures Count(Run(s, gs).records, AnyBorn) == 0
  {
    FetchHeldBornExactly(s, gs, id);
  }

  /**
   Such an instruction still enters if2: after a stalled cycle and an
   advancing cycle at if1 with id `id`, an if2 cycle carrying `id` writes its
   `S F2` record although the run holds no `I` record.
   */
  lemma UnbornEntersFetch2(s: Recorder, g1: Signals, g2: Signals, g3: Signals, id: u64)
    requires g1.if1Id == id && g2.if1Id == id && g3.if1Id == id
    requires g1.if1Stall
    requires !g1.if2Valid && !g2.if2Valid && s.lastIf2 != id
    requires g3.if2Valid && !g3.if2Stall && !g3.if2Flush && g3.if2Id == id
    ensures Count(Run(s, [g1, g2, g3]).records, AnyBorn) == 0
    ensures Start(id, "F2") in Run(s, [g1, g2, g3]).records
  {
    var gs := [g1, g2, g3];
    StalledFirstNeverBorn(s, gs, id);
    var s1 := Step(s, g1).next;
    var s2 := Step(s1, g2).next;
    assert s2.lastIf2 == s.lastIf2;
    EnterRecordIffAdvance(s2, g3, Fetch2);
    RunCons(s, gs);
    RunCons(s1, gs[1..]);
    RunCons(s2, gs[2..]);
    assert gs[1..][1..] == [g3] && gs[2..][1..] == [];
    var r3 := Step(s2, g3).records;
    assert Run(s, gs).records == Step(s, g1).records + (Step(s1, g2).records + (r3 + []));
    assert Start(id, "F2") in r3;
  }

  /** With if2 never valid during a run, the run writes no `S F2` record. */
  lemma {:induction false} Fetch2NeverValid(s: Recorder, gs: seq<Signals>)
    requires forall i :: 0 <= i < |gs| ==> !gs[i].if2Valid
    ensures Count(Run(s, gs).records, StartAs("F2")) == 0
    decreases |gs|
  {
    if gs != [] {
      var first := Step(s, gs[0]);
      EnterRecordIffAdvance(s, gs[0], Fetch2);
      Fetch2NeverValid(first.next, gs[1..]);
      CountAppend(first.records, Run(first.next, gs[1..]).records, StartAs("F2"));
    }
  }

  /**
   The exact count at if2: when if2 is first valid at cycle `j` of a run that
   holds one id there, the run writes one `S F2` record if that cycle advances
   the stage (judged against the last if2 id from before the run) and none
   otherwise.
   */
  lemma {:induction false} Fetch2EntersAtFirstValid(s: Recorder, gs: seq<Signals>, id: u64, j: nat)
    requires forall i :: 0 <= i < |gs| ==> gs[i].if2Valid ==> gs[i].if2Id == id
    requires j < |gs| && gs[j].if2Valid
    requires forall i :: 0 <= i < j ==> !gs[i].if2Valid
    ensures Count(Run(s, gs).records, StartAs("F2")) == if Advances(s, gs[j], Fetch2) then 1 else 0
    decreases j
  {
    var first := Step(s, gs[0]);
    EnterRecordIffAdvance(s, gs[0], Fetch2);
    CountAppend(first.records, Run(first.next, gs[1..]).records, StartAs("F2"));
    if j == 0 {
      Fetch2HeldEntersOnce(first.next, gs[1..], id);
    } else {
      assert first.next.lastIf2 == s.lastIf2;
      assert gs[1..][j - 1] == gs[j];
      Fetch2EntersAtFirstValid(first.next, gs[1..], id, j - 1);
    }
  }

  /**
   Both last-seen ids start at 1, so an instruction with id 1 entering if1 on
   the first cycle is never reported as born, while any other id is.
   */
  lemma SeedHidesIdOne(g: Signals)
    requires g.if1Valid && !g.if1Stall && !g.if1Flush
    ensures Born(g.if1Id) in Step(Init, g).records <==> g.if1Id != 1
  {
    BornIffFetchAdvances(Init, g);
  }

  /**
   The recorder's state is not saved in a checkpoint, so a restored run starts
   again from `Init`. An instruction already born before the save, advancing
   at if1 again on the first cycle after the restore, is born a second time,
   and the first `C` counts from 1 whatever the saved run had reached.
   */
  lemma RebornAfterRestart(s: Recorder, g: Signals)
    requires s.lastIf1 == g.if1Id && g.if1Id != 1
    requires g.if1Valid && !g.if1Stall && !g.if1Flush
    ensures Count(Step(s, g).records, AnyBorn) == 0
    ensures Count(Step(Init, g).records, AnyBorn) == 1
    ensures Step(Init, g).records[0] == Cycle(1)
  {
    BornIffFetchAdvances(s, g);
    BornIffFetchAdvances(Init, g);
  }
}
