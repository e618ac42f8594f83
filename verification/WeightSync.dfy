/** The arrive/done round counter that lets many ranks share one update request per round
    (arctic_platform/rl/weight_sync.py, WeightSyncCoordinator.sync_weights). Each of the two
    locked sections is one atomic step; between them a rank sends its weights and waits. */
module WeightSync {
  import opened Basics

  /** The fields guarded by the lock. Futures are numbered in the order they are submitted. */
  datatype Shared = Shared(arrive: nat, done: nat, future: Option<nat>, submitted: nat)

  const INITIAL: Shared := Shared(0, 0, None, 0)

  function EnterSection(s: Shared): Shared {
    if s.arrive + 1 == 1 then Shared(1, s.done, Some(s.submitted), s.submitted + 1)
    else s.(arrive := s.arrive + 1)
  }

  function LeaveSection(s: Shared, active: nat): Shared {
    if s.done + 1 == active then Shared(0, 0, None, s.submitted) else s.(done := s.done + 1)
  }

  class Coordinator {
    const active: nat
    var arriveCount: nat
    var doneCount: nat
    var httpFuture: Option<nat>
    var submitted: nat

    ghost function View(): Shared
      reads this
    {
      Shared(arriveCount, doneCount, httpFuture, submitted)
    }

    constructor (active: nat)
      ensures View() == INITIAL && this.active == active
    {
      this.active := active;
      arriveCount, doneCount, httpFuture, submitted := 0, 0, None, 0;
    }

    /** First locked section: the first arrival submits the request; every rank takes the future. */
    method Enter() returns (mine: Option<nat>)
      modifies this
      ensures View() == EnterSection(old(View())) && mine == View().future
    {
      arriveCount := arriveCount + 1;
      if arriveCount == 1 {
        httpFuture := Some(submitted);
        submitted := submitted + 1;
      }
      mine := httpFuture;
    }

    /** Second locked section, in `finally`: it runs whether the send returned or raised. */
    method Leave()
      modifies this
      ensures View() == LeaveSection(old(View()), active)
    {
      doneCount := doneCount + 1;
      if doneCount == active {
        arriveCount := 0;
        doneCount := 0;
        httpFuture := None;
      }
    }
  }

  // ---------------------------------------------------------------- all ranks together

  datatype Rank = Idle | Sending(future: Option<nat>)

  /** `calls[r]` counts the calls rank `r` has finished, `resets` the finished rounds. */
  datatype System = System(shared: Shared, ranks: seq<Rank>, calls: seq<nat>, resets: nat)

  datatype Step = Enter(r: nat) | Leave(r: nat, raised: bool)

  ghost predicate Enabled(s: System, step: Step) {
    step.r < |s.ranks| == |s.calls| && (step.Enter? <==> s.ranks[step.r].Idle?)
  }

  function Next(s: System, step: Step): System
    requires step.r < |s.ranks| == |s.calls|
  {
    match step
    case Enter(r) =>
      var shared := EnterSection(s.shared);
      s.(shared := shared, ranks := s.ranks[r := Sending(shared.future)])
    case Leave(r, raised) =>
      var shared := LeaveSection(s.shared, |s.ranks|);
      s.(shared := shared, ranks := s.ranks[r := Idle], calls := s.calls[r := s.calls[r] + 1],
         resets := if s.shared.done + 1 == |s.ranks| then s.resets + 1 else s.resets)
  }

  /** A rank starts its call number k + 1 only after round k has been reset. */
  ghost predicate OnTime(s: System, step: Step) {
    step.Enter? && step.r < |s.calls| ==> s.calls[step.r] == s.resets
  }

  function Start(active: nat): System {
    System(INITIAL, seq(active, _ => Idle), seq(active, _ => 0), 0)
  }

  // ---------------------------------------------------------------- the invariant

  ghost predicate HasDone(s: System, r: nat)
    requires r < |s.ranks| == |s.calls|
  {
    s.calls[r] == s.resets + 1
  }

  ghost predicate HasArrived(s: System, r: nat)
    requires r < |s.ranks| == |s.calls|
  {
    s.ranks[r].Sending? || HasDone(s, r)
  }

  ghost function ArrivedFlags(s: System): (flags: seq<int>)
    requires |s.ranks| == |s.calls|
    ensures |flags| == |s.ranks|
    ensures forall r :: 0 <= r < |flags| ==> flags[r] == if HasArrived(s, r) then 1 else 0
  {
    seq(|s.ranks|, r requires 0 <= r < |s.ranks| => if HasArrived(s, r) then 1 else 0)
  }

  ghost function DoneFlags(s: System): (flags: seq<int>)
    requires |s.ranks| == |s.calls|
    ensures |flags| == |s.ranks|
    ensures forall r :: 0 <= r < |flags| ==> flags[r] == if HasDone(s, r) then 1 else 0
  {
    seq(|s.ranks|, r requires 0 <= r < |s.ranks| => if HasDone(s, r) then 1 else 0)
  }

  ghost predicate RankOk(s: System, r: nat)
    requires r < |s.ranks| == |s.calls|
  {
    if s.ranks[r].Sending? then s.calls[r] == s.resets && s.ranks[r].future == Some(s.resets)
    else s.calls[r] == s.resets || s.calls[r] == s.resets + 1
  }

  ghost predicate Inv(s: System) {
    && |s.ranks| == |s.calls| > 0
    && (forall r :: 0 <= r < |s.ranks| ==> RankOk(s, r))
    && s.shared.arrive == Sum(ArrivedFlags(s))
    && s.shared.done == Sum(DoneFlags(s)) < |s.ranks|
    && s.shared.future == (if s.shared.arrive > 0 then Some(s.resets) else None)
    && s.shared.submitted == s.resets + (if s.shared.arrive > 0 then 1 else 0)
  }

  lemma StartInv(active: nat)
    requires active > 0
    ensures Inv(Start(active))
  {
    SumConstant(ArrivedFlags(Start(active)), 0);
    SumConstant(DoneFlags(Start(active)), 0);
  }

  lemma EnterKeepsInv(s: System, r: nat)
    requires Inv(s) && Enabled(s, Enter(r)) && OnTime(s, Enter(r))
    ensures Inv(Next(s, Enter(r)))
  {
    var t := Next(s, Enter(r));
    assert ArrivedFlags(t) == ArrivedFlags(s)[r := 1];
    SumUpdate(ArrivedFlags(s), r, 1);
    assert DoneFlags(t) == DoneFlags(s);
    FlagsNonNegative(ArrivedFlags(s));
    forall q | 0 <= q < |t.ranks| ensures RankOk(t, q) {
      assert RankOk(s, q);
    }
  }

  lemma {:induction false} FlagsNonNegative(flags: seq<int>)
    requires forall r :: 0 <= r < |flags| ==> 0 <= flags[r]
    ensures Sum(flags) >= 0
    ensures forall r :: 0 <= r < |flags| ==> flags[r] <= Sum(flags)
    decreases |flags|
  {
    if flags != [] {
      FlagsNonNegative(flags[..|flags| - 1]);
      forall r | 0 <= r < |flags| ensures flags[r] <= Sum(flags) {
        if r < |flags| - 1 {
          assert flags[r] == flags[..|flags| - 1][r];
        }
      }
    }
  }

  /** Leaving without being the last: the rank moves from arrived to done. */
  lemma LeaveKeepsInv(s: System, r: nat, raised: bool)
    requires Inv(s) && Enabled(s, Leave(r, raised)) && s.shared.done + 1 < |s.ranks|
    ensures Inv(Next(s, Leave(r, raised)))
  {
    var t := Next(s, Leave(r, raised));
    assert RankOk(s, r);
    assert DoneFlags(t) == DoneFlags(s)[r := 1];
    SumUpdate(DoneFlags(s), r, 1);
    assert ArrivedFlags(t) == ArrivedFlags(s);
    forall q | 0 <= q < |t.ranks| ensures RankOk(t, q) {
      assert RankOk(s, q);
    }
  }

  /** The last finisher, also when its send raised, finds every other rank done and clears the round. */
  lemma LastLeaveResets(s: System, r: nat, raised: bool)
    requires Inv(s) && Enabled(s, Leave(r, raised)) && s.shared.done + 1 == |s.ranks|
    ensures
      var t := Next(s, Leave(r, raised));
      && Inv(t) && t.resets == s.resets + 1
      && t.shared == INITIAL.(submitted := s.shared.submitted)
      && t.shared.submitted == t.resets
      && forall q :: 0 <= q < |t.ranks| ==> t.ranks[q].Idle? && t.calls[q] == t.resets
  {
    var t := Next(s, Leave(r, raised));
    assert RankOk(s, r);
    var finished := DoneFlags(s)[r := 1];
    SumUpdate(DoneFlags(s), r, 1);
    SumBound(finished, 1);
    forall q | 0 <= q < |t.ranks| ensures t.ranks[q].Idle? && t.calls[q] == t.resets {
      assert finished[q] == 1;
      assert RankOk(s, q);
    }
    FlagsNonNegative(ArrivedFlags(s));
    assert ArrivedFlags(s)[r] == 1;
    SumConstant(ArrivedFlags(t), 0);
    SumConstant(DoneFlags(t), 0);
  }

  lemma StepKeepsInv(s: System, step: Step)
    requires Inv(s) && Enabled(s, step) && OnTime(s, step)
    ensures Inv(Next(s, step)) && |Next(s, step).ranks| == |s.ranks|
  {
    match step
    case Enter(r) => EnterKeepsInv(s, r);
    case Leave(r, raised) =>
      if s.shared.done + 1 < |s.ranks| {
        LeaveKeepsInv(s, r, raised);
      } else {
        LastLeaveResets(s, r, raised);
      }
  }

  // ---------------------------------------------------------------- every run

  /** The state after running the steps, if each was enabled and on time. */
  ghost predicate IsRun(s: System, steps: seq<Step>, end: System)
    decreases |steps|
  {
    if steps == [] then s == end
    else
      && Enabled(s, steps[0]) && OnTime(s, steps[0])
      && IsRun(Next(s, steps[0]), steps[1..], end)
  }

  lemma {:induction false} RunKeepsInv(s: System, steps: seq<Step>, end: System)
    requires Inv(s) && IsRun(s, steps, end)
    ensures Inv(end) && |end.ranks| == |s.ranks|
    decreases |steps|
  {
    if steps != [] {
      StepKeepsInv(s, steps[0]);
      RunKeepsInv(Next(s, steps[0]), steps[1..], end);
    }
  }

  /** In every interleaving: counters stay ordered, one request per round, and a rank that is in its
      call number k + 1 waits on future number k. */
  lemma EveryRunIsSafe(active: nat, steps: seq<Step>, end: System)
    requires active > 0 && IsRun(Start(active), steps, end)
    ensures 0 <= end.shared.done <= end.shared.arrive <= active && end.shared.done < active
    ensures end.shared.submitted == end.resets + (if end.shared.arrive > 0 then 1 else 0)
    ensures |end.ranks| == |end.calls| == active
    ensures forall r :: 0 <= r < active && end.ranks[r].Sending? ==> end.ranks[r].future == Some(end.calls[r])
    ensures forall r :: 0 <= r < active ==> end.resets <= end.calls[r] <= end.resets + 1
  {
    StartInv(active);
    RunKeepsInv(Start(active), steps, end);
    var done, arrived := DoneFlags(end), ArrivedFlags(end);
    SumTight(done, arrived);
    SumBound(arrived, 1);
    forall r | 0 <= r < active
      ensures (end.ranks[r].Sending? ==> end.ranks[r].future == Some(end.calls[r]))
              && end.resets <= end.calls[r] <= end.resets + 1
    {
      assert RankOk(end, r);
    }
  }

  // ---------------------------------------------------------------- why ranks must be on time

  /** Entering takes the future of the rank's own round iff the rank is on time. */
  lemma OwnFutureIffOnTime(s: System, r: nat)
    requires Inv(s) && Enabled(s, Enter(r))
    ensures
      var t := Next(s, Enter(r));
      t.ranks[r] == Sending(Some(t.calls[r])) <==> OnTime(s, Enter(r))
  {
    assert RankOk(s, r);
    FlagsNonNegative(ArrivedFlags(s));
    if HasDone(s, r) {
      assert ArrivedFlags(s)[r] == 1;
    }
  }

  /** With two ranks both in round 0, rank 0 returns and enters again before rank 1 has left: arrivals
      pass the rank count and rank 0's second call waits on round 0's future. */
  lemma EarlyEntryBreaksCounters()
    ensures
      var a := Next(Start(2), Enter(0));
      var b := Next(a, Enter(1));
      var c := Next(b, Leave(0, false));
      var d := Next(c, Enter(0));
      && Enabled(Start(2), Enter(0)) && OnTime(Start(2), Enter(0))
      && Enabled(a, Enter(1)) && OnTime(a, Enter(1))
      && Enabled(b, Leave(0, false))
      && Enabled(c, Enter(0)) && !OnTime(c, Enter(0))
      && d.shared.arrive == 3 && d.calls[0] == 1 && d.ranks[0] == Sending(Some(0))
  {
    var a := Next(Start(2), Enter(0));
    assert a.shared == Shared(1, 0, Some(0), 1);
    var b := Next(a, Enter(1));
    assert b.shared == Shared(2, 0, Some(0), 1) && b.ranks[0].Sending?;
    var c := Next(b, Leave(0, false));
    assert c.shared == Shared(2, 1, Some(0), 1) && c.calls[0] == 1 && c.resets == 0;
  }
}
