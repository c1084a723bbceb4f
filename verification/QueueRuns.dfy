/** What every run of the admission queue keeps, and exactly when it loses it. */
module QueueRuns {
  import opened QueueModel

  // ---- the invariant survives every step, with limits changed at will ----

  lemma RemoveInv(s: State, t: Ticket)
    requires Inv(s) && Live(s, t)
    ensures Inv(Remove(s, t)) && !InLine(Remove(s, t), t)
  {
    WithoutKeeps(s.queued, t);
    WithoutKeeps(s.active, t);
    var r := Remove(s, t);
    forall x: Ticket ensures InLine(r, x) <==> Live(r, x) && !Rejected(r, x) {
      assert InLine(s, x) <==> Live(s, x) && !Rejected(s, x);
    }
  }

  lemma PopHeadInv(s: State)
    requires Inv(s) && s.queued != []
    ensures Inv(PopHead(s))
  {
    var r := PopHead(s);
    var head := s.queued[0];
    assert s.queued == [head] + s.queued[1..];
    assert InLine(s, head);
    NoDupConcat(s.active, [head]);
    forall x: Ticket ensures InLine(r, x) <==> Live(r, x) && !Rejected(r, x) {
      assert InLine(s, x) <==> Live(s, x) && !Rejected(s, x);
    }
  }

  lemma {:induction false} PopAllInv(s: State)
    requires Inv(s)
    ensures Inv(PopAll(s)) && Settled(PopAll(s))
    decreases |s.queued|
  {
    if s.queued != [] && HasRoom(s) {
      PopHeadInv(s);
      PopAllInv(PopHead(s));
    }
  }

  lemma BroadcastInv(s: State)
    requires Inv(s)
    ensures Inv(BroadcastFrom(s, 0))
    ensures Settled(s) ==> Settled(BroadcastFrom(s, 0))
  {
    var r := BroadcastFrom(s, 0);
    BroadcastFrame(s, 0);
    assert s.queued[0..] == s.queued;
    forall t | t in s.queued ensures t in r.published && !r.published[t].Final() {
      var j :| 0 <= j < |s.queued| && s.queued[j] == t;
      BroadcastAt(s, 0, j);
    }
    forall x: Ticket ensures InLine(r, x) <==> Live(r, x) && !Rejected(r, x) {
      assert InLine(s, x) <==> Live(s, x) && !Rejected(s, x);
    }
  }

  /** Every ticket that appears anywhere is older than the next one. */
  lemma AllOlder(s: State)
    requires Inv(s)
    ensures forall t: Ticket :: InLine(s, t) ==> t < s.next
    ensures forall j :: 0 <= j < |s.queued| ==> s.queued[j] < s.next
    ensures forall j :: 0 <= j < |s.active| ==> s.active[j] < s.next
  {
    forall t: Ticket | InLine(s, t) ensures t < s.next {
      assert Live(s, t);
    }
    forall j | 0 <= j < |s.queued| ensures s.queued[j] < s.next {
      assert InLine(s, s.queued[j]);
    }
    forall j | 0 <= j < |s.active| ensures s.active[j] < s.next {
      assert InLine(s, s.active[j]);
    }
  }

  lemma AcquireInv(s: State)
    requires Inv(s)
    ensures Inv(Acquire(s))
  {
    AllOlder(s);
    var r := Acquire(s);
    forall x: Ticket ensures InLine(r, x) <==> Live(r, x) && !Rejected(r, x) {
      assert InLine(s, x) <==> Live(s, x) && !Rejected(s, x);
    }
  }

  lemma ReleaseInv(s: State, t: Ticket)
    requires Inv(s) && t < s.next
    ensures Inv(Release(s, t))
    ensures t in Release(s, t).released
  {
    if t !in s.released {
      var m := Remove(s, t);
      RemoveInv(s, t);
      PopAllInv(m);
      PopAllShape(m);
      BroadcastInv(m);
      BroadcastInv(PopAll(m));
      BroadcastFrame(m, 0);
      BroadcastFrame(PopAll(m), 0);
    }
  }

  lemma StepInv(s: State, op: Op)
    requires Inv(s) && Allowed(s, op)
    ensures Inv(Step(s, op))
  {
    match op
    case AcquireOp => AcquireInv(s);
    case ReleaseOp(t) => ReleaseInv(s, t);
    case SetMaxOp(m, mq) =>
      forall x: Ticket ensures InLine(Step(s, op), x) <==> Live(Step(s, op), x) && !Rejected(Step(s, op), x) {
        assert InLine(s, x) <==> Live(s, x) && !Rejected(s, x);
      }
  }

  lemma {:induction false} RunInv(s: State, ops: seq<Op>)
    requires Inv(s) && AllowedRun(s, ops)
    ensures Inv(Run(s, ops))
    decreases |ops|
  {
    if ops != [] {
      StepInv(s, ops[0]);
      RunInv(Step(s, ops[0]), ops[1..]);
    }
  }

  // ---- single facts of the invariant, for proofs that need not see all of it ----

  lemma NextIsFresh(s: State)
    requires Inv(s)
    ensures s.next !in s.released && s.next !in s.published
  {
  }

  lemma WaiterOpen(s: State, j: nat)
    requires Inv(s) && j < |s.queued|
    ensures s.queued[j] in s.published && !s.published[s.queued[j]].Final()
  {
    assert s.queued[j] in s.queued;
  }

  lemma WaitersDistinct(s: State, i: nat, j: nat)
    requires Inv(s) && i < j < |s.queued|
    ensures s.queued[i] < s.queued[j]
  {
  }

  lemma RemoveCounts(s: State, t: Ticket)
    requires Inv(s)
    ensures |Without(s.queued, t)| != |s.queued| <==> t in s.queued
  {
    WithoutKeeps(s.queued, t);
  }

  // ---- what one Acquire does, under any limits ----

  /** The newcomer is admitted exactly if a slot is free or there is no limit; rejected exactly if otherwise the queue
      has a limit and is that long; else it waits at the end, behind the surplus and everybody who waits. Nobody else is
      moved or told anything. */
  lemma AcquireMeans(s: State)
    requires Inv(s)
    ensures var r := Step(s, AcquireOp);
      var full := s.maxQueued > 0 && |s.queued| >= s.maxQueued;
      && (if s.max == 0 || |s.active| < s.max then
            r.active == s.active + [s.next] && r.queued == s.queued && r.published[s.next] == Status(0, 0, true, false)
          else if full then
            r.active == s.active && r.queued == s.queued && r.published[s.next] == Status(0, 0, false, true)
          else
            && r.active == s.active && r.queued == s.queued + [s.next]
            && r.published[s.next] ==
               Status(|s.active| - s.max + |s.queued|, |s.active| - s.max + |s.queued| + 1, false, false))
      && (forall t :: t in s.published ==> t in r.published && r.published[t] == s.published[t])
      && (s.next !in r.active + r.queued <==> s.max != 0 && |s.active| >= s.max && full)
      && (s.maxQueued > 0 && |r.queued| > |s.queued| ==> |r.queued| <= s.maxQueued)
      && r.max == s.max && r.maxQueued == s.maxQueued && r.next == s.next + 1 && r.released == s.released
  {
    AllOlder(s);
    NextIsFresh(s);
    assert s.next !in s.active && s.next !in s.queued by {
      assert !InLine(s, s.next);
    }
    hide Inv;
  }

  // ---- the shape of one release ----

  /** How many waiters a release of `t` lets in. */
  function LetIn(s: State, t: Ticket): nat {
    if t in s.queued then 0 else Pops(Remove(s, t))
  }

  /** A release takes `t` out and lets in a prefix of the waiters, in arrival order. */
  lemma ReleaseShape(s: State, t: Ticket)
    requires Inv(s) && Live(s, t)
    ensures var m := Remove(s, t); var r := Release(s, t); var k := LetIn(s, t);
      && k <= |m.queued|
      && r.active == m.active + m.queued[..k] && r.queued == m.queued[k..]
      && r.max == s.max && r.maxQueued == s.maxQueued && r.next == s.next && r.released == s.released + {t}
  {
    var m := Remove(s, t);
    WithoutKeeps(s.queued, t);
    if t in s.queued {
      BroadcastFrame(m, 0);
    } else {
      WithoutAbsent(s.queued, t);
      PopAllShape(m);
      BroadcastFrame(PopAll(m), 0);
    }
  }

  lemma Regroup(xs: seq<Ticket>, ys: seq<Ticket>, k: nat)
    requires k <= |ys|
    ensures (xs + ys[..k]) + ys[k..] == xs + ys
  {
    assert ys == ys[..k] + ys[k..];
  }

  /** A newcomer joins the end of whichever list takes it. */
  lemma AcquireLine(s: State)
    requires Settled(s)
    ensures Acquire(s).active + Acquire(s).queued ==
            (s.active + s.queued) + (if FirstStatus(s) == FULL then [] else [s.next])
  {
    if HasRoom(s) {
      assert s.queued == [];
    }
  }

  /** A released ticket leaves the line; everyone else keeps their place in it. */
  lemma ReleaseLine(s: State, t: Ticket)
    requires Inv(s) && t < s.next
    ensures Release(s, t).active + Release(s, t).queued == Without(s.active + s.queued, t)
    ensures Release(s, t).next == s.next && Release(s, t).max == s.max
  {
    assert InLine(s, t) <==> Live(s, t) && !Rejected(s, t);
    WithoutConcat(s.active, s.queued, t);
    if t !in s.queued { WithoutAbsent(s.queued, t); }
    if t !in s.active { WithoutAbsent(s.active, t); }
    if t !in s.released {
      var m, r, k := Remove(s, t), Release(s, t), LetIn(s, t);
      ReleaseShape(s, t);
      Regroup(m.active, m.queued, k);
    }
  }

  // ---- slack: a free slot in front of waiting handles ----

  ghost predicate Settled(s: State) {
    s.queued == [] || !HasRoom(s)
  }

  lemma ReleaseSettles(s: State, t: Ticket)
    requires Inv(s) && Live(s, t) && t !in s.queued
    ensures Settled(Release(s, t))
  {
    RemoveInv(s, t);
    PopAllInv(Remove(s, t));
    BroadcastFrame(PopAll(Remove(s, t)), 0);
  }

  /** The one way to lose the settled state: a limit raised (or lifted) over the heads of waiting handles. */
  lemma SettledLostExactly(s: State, op: Op)
    requires Inv(s) && Allowed(s, op) && Settled(s)
    ensures !Settled(Step(s, op)) <==>
            op.SetMaxOp? && s.queued != [] && (op.max == 0 || op.max > |s.active|)
  {
    if op.ReleaseOp? && op.t !in s.released {
      ReleaseShape(s, op.t);
      if op.t !in s.queued {
        ReleaseSettles(s, op.t);
      } else {
        WithoutKeeps(s.queued, op.t);
      }
    }
  }

  /** Somebody is let in while an older handle still waits. */
  ghost predicate Overtakes(before: State, after: State) {
    exists a, w :: a in after.active && a !in before.active && w in after.queued && w < a
  }

  /** Only an `Acquire` that finds a free slot and a waiting handle overtakes: the branch at line 83
      looks at `active` alone. */
  lemma OvertakesExactly(s: State, op: Op)
    requires Inv(s) && Allowed(s, op)
    ensures Overtakes(s, Step(s, op)) <==> op.AcquireOp? && s.queued != [] && HasRoom(s)
  {
    var r := Step(s, op);
    match op
    case AcquireOp =>
      if s.queued != [] && HasRoom(s) {
        assert InLine(s, s.queued[0]) && !InLine(s, s.next);
        assert s.next in r.active && s.queued[0] in r.queued;
      }
    case SetMaxOp(_, _) =>
    case ReleaseOp(t) =>
      if t !in s.released {
        ReleaseShape(s, t);
        RemoveInv(s, t);
        WithoutKeeps(s.active, t);
        forall a, w | a in r.active && a !in s.active && w in r.queued ensures a < w {
          var m := Remove(s, t);
          assert a in m.queued && w in m.queued;
        }
      }
  }

  lemma GrowthCapped(s: State, op: Op)
    requires Inv(s) && Allowed(s, op) && |Step(s, op).active| > |s.active|
    ensures Step(s, op).max == 0 || |Step(s, op).active| <= Step(s, op).max
  {
    if op.ReleaseOp? {
      ReleaseShape(s, op.t);
      WithoutMembers(s.active, op.t);
    }
  }

  // ---- first come, first served among those who ever waited ----

  ghost predicate InOrder(s: State, older: Ticket, younger: Ticket) {
    older in s.released || older in s.active || (older in s.queued && younger !in s.active)
  }

  lemma InOrderStep(s: State, op: Op, older: Ticket, younger: Ticket)
    requires Inv(s) && Allowed(s, op) && older < younger < s.next && InOrder(s, older, younger)
    ensures InOrder(Step(s, op), older, younger)
  {
    var r := Step(s, op);
    if op.ReleaseOp? && op.t !in s.released {
      var t, m := op.t, Remove(s, op.t);
      ReleaseShape(s, t);
      RemoveInv(s, t);
      WithoutKeeps(s.queued, t);
      WithoutKeeps(s.active, t);
      if t != older {
        assert m.queued == m.queued[..|m.queued| - |r.queued|] + r.queued;
      }
    }
  }

  /** Two handles that wait together are admitted in arrival order, over any continuation and any limits. */
  lemma {:induction false} WaitersAdmittedInOrder(s: State, ops: seq<Op>, older: Ticket, younger: Ticket)
    requires Inv(s) && AllowedRun(s, ops) && older < younger < s.next && InOrder(s, older, younger)
    ensures var r := Run(s, ops); younger in r.active ==> older in r.active || older in r.released
    decreases |ops|
  {
    if ops != [] {
      InOrderStep(s, ops[0], older, younger);
      StepInv(s, ops[0]);
      NextGrows(s, ops[0]);
      WaitersAdmittedInOrder(Step(s, ops[0]), ops[1..], older, younger);
    }
  }

  lemma NextGrows(s: State, op: Op)
    requires Inv(s) && Allowed(s, op)
    ensures s.next <= Step(s, op).next && s.released <= Step(s, op).released
  {
    if op.ReleaseOp? && op.t !in s.released {
      ReleaseShape(s, op.t);
    }
  }

  // ---- limits that are never loosened ----

  ghost predicate Ordered(s: State) {
    Increasing(s.active + s.queued)
  }

  /** A limit may be kept, put on an unlimited queue, or lowered; it is not raised and not lifted. */
  predicate Tightens(s: State, op: Op) {
    op.SetMaxOp? ==> op.max == s.max || s.max == 0 || 0 < op.max <= s.max
  }

  predicate TightRun(s: State, ops: seq<Op>)
    decreases |ops|
  {
    ops == [] || (Allowed(s, ops[0]) && Tightens(s, ops[0]) && TightRun(Step(s, ops[0]), ops[1..]))
  }

  lemma OrderedStep(s: State, op: Op)
    requires Inv(s) && Allowed(s, op) && Tightens(s, op) && Settled(s) && Ordered(s)
    ensures Settled(Step(s, op)) && Ordered(Step(s, op))
  {
    SettledLostExactly(s, op);
    match op
    case AcquireOp =>
      forall j | 0 <= j < |s.active + s.queued| ensures (s.active + s.queued)[j] < s.next {
        assert InLine(s, (s.active + s.queued)[j]);
      }
      AcquireLine(s);
    case ReleaseOp(t) =>
      ReleaseLine(s, t);
      WithoutKeeps(s.active + s.queued, t);
    case SetMaxOp(_, _) =>
  }

  lemma {:induction false} TightRunKeeps(s: State, ops: seq<Op>)
    requires Inv(s) && Settled(s) && Ordered(s) && TightRun(s, ops)
    ensures var r := Run(s, ops); Inv(r) && Settled(r) && Ordered(r)
    decreases |ops|
  {
    if ops != [] {
      StepInv(s, ops[0]);
      OrderedStep(s, ops[0]);
      TightRunKeeps(Step(s, ops[0]), ops[1..]);
    }
  }

  /** With limits never loosened the two lists are one line in arrival order, nobody waits beside a free
      slot, and the next step, whatever it is, overtakes nobody. */
  lemma NeverLoosened(max: nat, maxQueued: int, ops: seq<Op>, op: Op)
    requires TightRun(Init(max, maxQueued), ops)
    requires var s := Run(Init(max, maxQueued), ops); Allowed(s, op)
    ensures var s := Run(Init(max, maxQueued), ops);
      Inv(s) && Settled(s) && Ordered(s) && !Overtakes(s, Step(s, op))
  {
    TightRunKeeps(Init(max, maxQueued), ops);
    OvertakesExactly(Run(Init(max, maxQueued), ops), op);
  }

  /** Raising the limit from 1 to 2 over a waiting handle lets the next arrival in first. */
  lemma RaisedLimitOvertakes()
    ensures var ops := [AcquireOp, AcquireOp, SetMaxOp(2, 0)];
      var s := Run(Init(1, 0), ops);
      AllowedRun(Init(1, 0), ops) && s.queued == [1] && Acquire(s).active == [0, 2] && Acquire(s).queued == [1]
      && Overtakes(s, Step(s, AcquireOp))
  {
    var s0 := Init(1, 0);
    var s1, s2 := Acquire(s0), Acquire(Acquire(s0));
    assert s1 == State(1, 0, [0], [], 1, map[0 := OK], {});
    assert s2.active == [0] && s2.queued == [1];
    var s3 := SetMax(s2, 2, 0);
    assert Run(s0, [AcquireOp, AcquireOp, SetMaxOp(2, 0)]) == s3 by {
      assert [AcquireOp, AcquireOp, SetMaxOp(2, 0)][1..] == [AcquireOp, SetMaxOp(2, 0)];
      assert [AcquireOp, SetMaxOp(2, 0)][1..] == [SetMaxOp(2, 0)];
      assert Run(s2, [SetMaxOp(2, 0)]) == Run(s3, []);
    }
    assert AllowedRun(s0, [AcquireOp, AcquireOp, SetMaxOp(2, 0)]);
    assert 2 in Acquire(s3).active && 2 !in s3.active && 1 in Acquire(s3).queued;
  }

  /** Giving up a waiting place re-announces the others behind `|active| - max`, which is below zero
      exactly when a raised limit has left free slots that nobody has been moved into. */
  lemma WaiterGivesUp(s: State, t: Ticket, j: nat)
    requires Inv(s) && t in s.queued && j + 1 < |s.queued|
    ensures var r := Release(s, t);
      && |r.queued| == |s.queued| - 1 && r.active == s.active
      && r.queued[j] in r.published
      && r.published[r.queued[j]] == Place(|s.active| - s.max + j, |s.active| - s.max + |s.queued| - 1)
      && (r.published[r.queued[j]].index < 0 <==> |s.active| + j < s.max)
  {
    var m := Remove(s, t);
    assert InLine(s, t);
    WithoutKeeps(s.queued, t);
    ReleaseShape(s, t);
    BroadcastAt(m, 0, j);
  }

  /** After any real release every remaining waiter has been told its place behind the surplus. */
  lemma Reannounced(s: State, t: Ticket, j: nat)
    requires Inv(s) && Live(s, t) && j < |Release(s, t).queued|
    ensures var r := Release(s, t);
      && r.queued[j] in r.published
      && r.published[r.queued[j]] == PlaceAt(r, j)
  {
    var m := Remove(s, t);
    RemoveInv(s, t);
    var b := if t in s.queued then m else PopAll(m);
    PopAllInv(m);
    BroadcastFrame(b, 0);
    BroadcastAt(b, 0, j);
  }

  // ---- when a negative index is published ----

  /** No waiter has been told a place below zero. */
  ghost predicate NoneBelowZero(s: State) {
    forall j :: 0 <= j < |s.queued| ==> s.queued[j] in s.published && s.published[s.queued[j]].index >= 0
  }

  /** Every waiter's newest index is its place behind the surplus. */
  ghost predicate Accurate(s: State) {
    forall j :: 0 <= j < |s.queued| ==>
      s.queued[j] in s.published && s.published[s.queued[j]].index == Surplus(s) + j
  }

  /** Exactly when published places go stale, under any limits: when the limit changes, or a newcomer is let in, over the
      heads of waiting handles. */
  lemma StaleExactly(s: State, op: Op)
    requires Inv(s) && Allowed(s, op) && Accurate(s)
    ensures !Accurate(Step(s, op)) <==>
            s.queued != [] && ((op.SetMaxOp? && op.max != s.max) || (op.AcquireOp? && HasRoom(s)))
  {
    match op
    case AcquireOp => AccurateAcquire(s);
    case SetMaxOp(max, maxQueued) =>
      if s.queued != [] {
        assert s.published[s.queued[0]].index == Surplus(s);
      }
    case ReleaseOp(t) =>
      if t !in s.released { ReleaseTellsPlaces(s, t); }
  }

  lemma AccurateAcquire(s: State)
    requires Inv(s) && Accurate(s)
    ensures !Accurate(Acquire(s)) <==> s.queued != [] && HasRoom(s)
  {
    AllOlder(s);
    var r := Acquire(s);
    if s.queued != [] && HasRoom(s) {
      assert r.published[r.queued[0]].index == Surplus(s) == Surplus(r) - 1;
    }
  }

  /** The one kind of step that publishes a negative index: a waiter gives up beside free slots, and others wait. */
  ghost predicate GivesUpBesideFreeSlots(s: State, op: Op) {
    op.ReleaseOp? && op.t in s.queued && |s.queued| > 1 && |s.active| < s.max
  }

  lemma ReleaseTellsPlaces(s: State, t: Ticket)
    requires Inv(s) && Live(s, t)
    ensures var r := Release(s, t);
      forall j :: 0 <= j < |r.queued| ==>
        r.queued[j] in r.published && r.published[r.queued[j]].index == Surplus(r) + j
  {
    var r := Release(s, t);
    forall j | 0 <= j < |r.queued|
      ensures r.queued[j] in r.published && r.published[r.queued[j]].index == Surplus(r) + j
    {
      Reannounced(s, t, j);
    }
  }

  lemma NegativeAfterRelease(s: State, t: Ticket)
    requires Inv(s) && Live(s, t)
    ensures NoneBelowZero(Release(s, t)) <==> !GivesUpBesideFreeSlots(s, ReleaseOp(t))
  {
    var r := Release(s, t);
    ReleaseTellsPlaces(s, t);
    ReleaseShape(s, t);
    WithoutKeeps(s.queued, t);
    WithoutKeeps(s.active, t);
    InOneListOnly(s, t);
    if t !in s.queued { ReleaseSettles(s, t); }
    hide Inv, Release;
    if r.queued != [] {
      assert r.published[r.queued[0]].index == Surplus(r);
    }
  }

  lemma InOneListOnly(s: State, t: Ticket)
    requires Inv(s)
    ensures t in s.queued ==> t !in s.active
    ensures t in s.active ==> t !in s.queued
    ensures t in s.released ==> t !in s.active && t !in s.queued
  {
    assert InLine(s, t) <==> Live(s, t) && !Rejected(s, t);
  }

  lemma NoneBelowZeroAcquire(s: State)
    requires Inv(s) && NoneBelowZero(s)
    ensures NoneBelowZero(Acquire(s))
  {
    AllOlder(s);
  }

  /** Exactly when a step publishes a negative index, under any limits: when it releases a waiter, other handles
      wait, and a raised limit has left free slots. */
  lemma NegativeIndexExactly(s: State, op: Op)
    requires Inv(s) && Allowed(s, op) && NoneBelowZero(s)
    ensures NoneBelowZero(Step(s, op)) <==> !GivesUpBesideFreeSlots(s, op)
  {
    match op
    case AcquireOp => NoneBelowZeroAcquire(s);
    case SetMaxOp(_, _) =>
    case ReleaseOp(t) =>
      if t in s.released {
        InOneListOnly(s, t);
      } else {
        NegativeAfterRelease(s, t);
      }
  }

  /** A run that gets there: two handles wait behind one, the limit is raised to 5, and the first of them gives
      up; the other is told place -4. */
  lemma NegativeIndexReached()
    ensures var ops := [AcquireOp, AcquireOp, AcquireOp, SetMaxOp(5, 0)];
      AllowedRun(Init(1, 0), ops)
      && var s := Run(Init(1, 0), ops);
      && s.queued == [1, 2] && NoneBelowZero(s) && Allowed(s, ReleaseOp(1))
      && var r := Release(s, 1);
      && r.queued == [2] && 2 in r.published && r.published[2] == Place(-4, -3)
  {
    var ops := [AcquireOp, AcquireOp, AcquireOp, SetMaxOp(5, 0)];
    var s0 := Init(1, 0);
    var s1 := Acquire(s0);
    var s2 := Acquire(s1);
    var s3 := Acquire(s2);
    var s4 := SetMax(s3, 5, 0);
    UnfoldRun(s0, ops);
    UnfoldRun(s1, ops[1..]);
    UnfoldRun(s2, ops[2..]);
    UnfoldRun(s3, ops[3..]);
    UnfoldRun(s4, ops[4..]);
    assert s1 == State(1, 0, [0], [], 1, map[0 := OK], {});
    assert s2 == State(1, 0, [0], [1], 2, map[0 := OK, 1 := Place(0, 1)], {});
    assert s3 == State(1, 0, [0], [1, 2], 3, map[0 := OK, 1 := Place(0, 1), 2 := Place(1, 2)], {});
    FirstGivesUp(s4);
  }

  lemma FirstGivesUp(s: State)
    requires s.active == [0] && s.queued == [1, 2] && s.max == 5 && s.released == {}
    ensures var r := Release(s, 1); r.queued == [2] && 2 in r.published && r.published[2] == Place(-4, -3)
  {
    var m := Remove(s, 1);
    WithoutAt([1, 2], 0);
    assert m.queued == [2] && m.active == [0];
    BroadcastFrame(m, 0);
    BroadcastAt(m, 0, 0);
  }

  lemma UnfoldRun(s: State, ops: seq<Op>)
    ensures ops == [] ==> Run(s, ops) == s && AllowedRun(s, ops)
    ensures ops != [] ==> Run(s, ops) == Run(Step(s, ops[0]), ops[1..])
    ensures ops != [] ==> (AllowedRun(s, ops) <==> Allowed(s, ops[0]) && AllowedRun(Step(s, ops[0]), ops[1..]))
  {
  }
}
