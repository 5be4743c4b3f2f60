/** The whole process: a settle that fails its fence is taken for damaged storage, and from
    then on the writer refuses every command. */
module Latch {
  import opened Delivery
  import opened Broker
  import opened Generations
  import opened Scenarios

  /** The tables and whether the process has latched itself read-only. */
  datatype Process = Process(s: State, latched: bool)

  /** A step whose error is no business rejection. */
  predicate Aborts(s: State, step: Step) {
    step.Settle? && SettleResult(s, step.token, step.verb, step.nak, step.j, step.at, step.sinkAccepts).Abort?
  }

  ghost function Advance(p: Process, step: Step): Process {
    if p.latched then p
    else if Aborts(p.s, step) then p.(latched := true)
    else Process(Next(p.s, step), false)
  }

  ghost predicate Proceeds(ps: seq<Process>, steps: seq<Step>, i: nat)
    requires i < |steps| && |ps| == |steps| + 1
  {
    Enabled(ps[i].s, steps[i]) && ps[i + 1] == Advance(ps[i], steps[i])
  }

  ghost predicate ProcessRun(ps: seq<Process>, steps: seq<Step>) {
    && |ps| == |steps| + 1
    && Initial(ps[0].s) && !ps[0].latched
    && forall i | 0 <= i < |steps| :: Proceeds(ps, steps, i)
  }

  /** One command latches a process exactly when it settles with a token the planner grants
      and the dead sink refuses, or the row is of an older generation. */
  lemma LatchesIff(p: Process, step: Step)
    requires !p.latched
    ensures Advance(p, step).latched <==>
            step.Settle? &&
            var plan := SettlePlan(p.s, step.token, step.verb, step.nak, step.j, step.at);
            plan.Plan? && !plan.action.Noop?
            && ((plan.action.Dead? && !step.sinkAccepts) || p.s.rows[step.token.seqNo].generation != p.s.generation)
  {
    if step.Settle? {
      SettleAbortsIff(p.s, step.token, step.verb, step.nak, step.j, step.at, step.sinkAccepts);
    }
  }

  /** A latched process never changes again. */
  lemma {:induction false} LatchedForever(ps: seq<Process>, steps: seq<Step>, i: nat, k: nat)
    requires ProcessRun(ps, steps) && i <= k < |ps| && ps[i].latched
    ensures ps[k] == ps[i]
    decreases k
  {
    if i < k {
      LatchedForever(ps, steps, i, k - 1);
      assert Proceeds(ps, steps, k - 1);
    }
  }

  /** An abort changes no table. */
  lemma AbortIsNoStep(s: State, step: Step)
    requires Aborts(s, step)
    ensures Next(s, step) == s
  {
  }

  lemma ProceedsMeans(ps: seq<Process>, steps: seq<Step>, i: nat)
    requires i < |steps| && |ps| == |steps| + 1 && Proceeds(ps, steps, i)
    ensures ps[i + 1].latched ==> ps[i + 1].s == ps[i].s
    ensures !ps[i + 1].latched ==> !ps[i].latched && Enabled(ps[i].s, steps[i]) && ps[i + 1].s == Next(ps[i].s, steps[i])
  {
  }

  /** The tables of a process are always those of a run of the broker, of all its commands
      before the one that latched it: every theorem about runs holds of them. */
  lemma {:induction false} ProcessIsRun(ps: seq<Process>, steps: seq<Step>, i: nat) returns (trace: seq<State>, done: seq<Step>)
    requires ProcessRun(ps, steps) && i < |ps|
    ensures Run(trace, done) && trace[|done|] == ps[i].s && trace[0] == ps[0].s
    ensures done <= steps && |done| <= i && (!ps[i].latched ==> |done| == i)
  {
    if i == 0 {
      trace, done := [ps[0].s], [];
    } else {
      trace, done := ProcessIsRun(ps, steps, i - 1);
      ProceedsMeans(ps, steps, i - 1);
      if !ps[i].latched {
        assert steps[..i] == done + [steps[i - 1]];
        trace, done := Extend(trace, done, steps[i - 1], ps[i].s);
      }
    }
  }

  /** And the other way round: a run of the broker none of whose steps aborts is one of the
      process. */
  lemma RunIsProcess(trace: seq<State>, steps: seq<Step>) returns (ps: seq<Process>)
    requires Run(trace, steps) && forall i | 0 <= i < |steps| :: !Aborts(trace[i], steps[i])
    ensures ProcessRun(ps, steps) && |ps| == |trace| && forall i | 0 <= i < |ps| :: ps[i] == Process(trace[i], false)
  {
    ps := seq(|trace|, i requires 0 <= i < |trace| => Process(trace[i], false));
    forall i | 0 <= i < |steps| ensures Proceeds(ps, steps, i) {
      assert Follows(trace, steps, i);
    }
  }

  // ---- an honest worker latches the process ----------------------------------------------

  /** Message 2 alone, ready after its first delivery but of generation 1, in generation 2. */
  function Straggler(): State {
    BothLeased().(msgs := map[2 := Msg(true, 1)], generation := 2, rows := map[2 := Row(Ready, 1, 0, 0, 1)])
  }

  lemma NakAndPurge(nak: Step)
    requires nak == Settle(Token(2, 1, 1), NakVerb, Explicit(0), d => d, 0, true)
    ensures var s := BothLeased(); var released := Next(s, nak);
            !Aborts(s, nak) && Next(released, PurgeRange(1)) == Straggler()
  {
    var s := BothLeased();
    var released := WithRow(s, 2, Row(Ready, 1, 0, 0, 1));
    assert Next(s, nak) == released;
    assert UpTo(released, 1) == {1};
    assert released.msgs - {1} == map[2 := Msg(true, 1)];
    assert released.rows - {1} == map[2 := Row(Ready, 1, 0, 0, 1)];
    assert 1 in released.rows;
  }

  /** Message 2 fetched again: a lease still of generation 1, its token of generation 2. */
  function Redelivered(): State {
    Refetched(Straggler(), 0, 2)
  }

  lemma StragglerIsFetched()
    ensures FetchStep(Straggler(), 0, 1, FETCH_BYTES, SCAN_LIMIT) == Redelivered()
  {
    assert Claimable(Straggler(), 0) == {2};
    FetchReady(Straggler(), 0, 2);
  }

  lemma AckAborts(ack: Step)
    requires ack == Settle(Token(2, 2, 2), AckVerb, Scheduled, d => d, 0, true)
    ensures Aborts(Redelivered(), ack)
    ensures var minted := Redelivered().minted; |minted| > 0 && minted[|minted| - 1] == ack.token
  {
    assert Redelivered().rows[2].generation == 1;
  }

  /** A process goes on with any enabled step. */
  lemma Continue(ps: seq<Process>, steps: seq<Step>, step: Step, p: Process) returns (ps': seq<Process>, steps': seq<Step>)
    requires ProcessRun(ps, steps) && Enabled(ps[|steps|].s, step) && p == Advance(ps[|steps|], step)
    ensures steps' == steps + [step] && ps' == ps + [p] && ProcessRun(ps', steps')
  {
    ps', steps' := ps + [p], steps + [step];
    forall i | 0 <= i < |steps'| ensures Proceeds(ps', steps', i) {
      if i < |steps| {
        ProceedsOn(ps, steps, step, p, i);
      }
    }
  }

  lemma ProceedsOn(ps: seq<Process>, steps: seq<Step>, step: Step, p: Process, i: nat)
    requires i < |steps| && |ps| == |steps| + 1 && Proceeds(ps, steps, i)
    ensures Proceeds(ps + [p], steps + [step], i)
  {
    assert (ps + [p])[i] == ps[i] && (ps + [p])[i + 1] == ps[i + 1] && (steps + [step])[i] == steps[i];
  }

  lemma Accepts(s: State, step: Step, t: State)
    requires !Aborts(s, step) && Next(s, step) == t
    ensures Advance(Process(s, false), step) == Process(t, false)
  {
  }

  lemma BothLeasedReached() returns (ps: seq<Process>, steps: seq<Step>)
    ensures ProcessRun(ps, steps) && ps[|steps|] == Process(BothLeased(), false)
  {
    var trace;
    trace, steps := BothInFlight();
    ps := RunIsProcess(trace, steps);
  }

  lemma StragglerReached() returns (ps: seq<Process>, steps: seq<Step>)
    ensures ProcessRun(ps, steps) && ps[|steps|] == Process(Straggler(), false)
  {
    ps, steps := BothLeasedReached();
    var nak := Settle(Token(2, 1, 1), NakVerb, Explicit(0), d => d, 0, true);
    NakAndPurge(nak);
    var released := Next(BothLeased(), nak);
    Accepts(BothLeased(), nak, released);
    ps, steps := Continue(ps, steps, nak, Process(released, false));
    Accepts(released, PurgeRange(1), Straggler());
    ps, steps := Continue(ps, steps, PurgeRange(1), Process(Straggler(), false));
  }

  lemma RedeliveredReached() returns (ps: seq<Process>, steps: seq<Step>)
    ensures ProcessRun(ps, steps) && ps[|steps|] == Process(Redelivered(), false)
    ensures |steps| >= 1 && steps[|steps| - 1].Fetch?
  {
    ps, steps := StragglerReached();
    StragglerIsFetched();
    var again := Fetch(0, 1, FETCH_BYTES, SCAN_LIMIT);
    Accepts(Straggler(), again, Redelivered());
    ps, steps := Continue(ps, steps, again, Process(Redelivered(), false));
  }

  lemma Rejects(s: State, step: Step)
    requires Aborts(s, step)
    ensures Advance(Process(s, false), step) == Process(s, true)
  {
  }

  /** Two messages fetched, the second one nak'd, the first one purged, the second fetched
      again: the token just minted for it, used at once for an ack, latches the process. */
  lemma HonestAckLatches() returns (ps: seq<Process>, steps: seq<Step>)
    ensures ProcessRun(ps, steps) && |steps| >= 2 && steps[|steps| - 2].Fetch?
    ensures var u, ack := ps[|steps| - 1], steps[|steps| - 1];
            && !u.latched && ps[|steps|].latched && ack.Settle? && ack.verb == AckVerb
            && |u.s.minted| > 0 && ack.token == u.s.minted[|u.s.minted| - 1] && ack.token.seqNo in u.s.rows
  {
    ps, steps := RedeliveredReached();
    var ack := Settle(Token(2, 2, 2), AckVerb, Scheduled, d => d, 0, true);
    AckAborts(ack);
    Rejects(Redelivered(), ack);
    ps, steps := Continue(ps, steps, ack, Process(Redelivered(), true));
  }
}
