/** With a fixed limit the scheduler is one line of people of which the first `max` are let in. */
module QueueLine {
  import opened QueueModel
  import opened QueueRuns

  /** The reference: a single line in arrival order, with no notion of two lists, statuses or pops. */
  datatype Line = Line(people: seq<Ticket>, next: Ticket, maxQueued: int)

  function LineStep(max: nat, l: Line, op: Op): Line {
    match op
    case AcquireOp =>
      if l.maxQueued > 0 && |l.people| >= max + l.maxQueued then l.(next := l.next + 1)
      else l.(people := l.people + [l.next], next := l.next + 1)
    case ReleaseOp(t) => l.(people := Without(l.people, t))
    case SetMaxOp(_, maxQueued) => l.(maxQueued := maxQueued)
  }

  function RunLine(max: nat, l: Line, ops: seq<Op>): Line
    decreases |ops|
  {
    if ops == [] then l else RunLine(max, LineStep(max, l, ops[0]), ops[1..])
  }

  /** Limits may be set again, as every reload does, but to the same `max`; `maxQueued` may change. */
  predicate MaxConstant(max: nat, ops: seq<Op>) {
    forall i :: 0 <= i < |ops| ==> ops[i].SetMaxOp? ==> ops[i].max == max
  }

  function Min(a: int, b: int): int {
    if a <= b then a else b
  }

  /** How many tickets of the line are older than `t`. */
  function CountBelow(xs: seq<Ticket>, t: Ticket): nat {
    if xs == [] then 0
    else CountBelow(xs[..|xs| - 1], t) + if xs[|xs| - 1] < t then 1 else 0
  }

  lemma {:induction false} CountBelowAll(xs: seq<Ticket>, t: Ticket)
    requires forall i :: 0 <= i < |xs| ==> xs[i] < t
    ensures CountBelow(xs, t) == |xs|
  {
    if xs == [] {
    } else {
      CountBelowAll(xs[..|xs| - 1], t);
    }
  }

  lemma {:induction false} CountBelowAt(xs: seq<Ticket>, i: nat)
    requires Increasing(xs) && i < |xs|
    ensures CountBelow(xs, xs[i]) == i
  {
    var last := |xs| - 1;
    if i == last {
      CountBelowAll(xs[..last], xs[i]);
    } else {
      CountBelowAt(xs[..last], i);
    }
  }

  // ---- the refinement ----

  ghost predicate Matches(s: State, l: Line) {
    && l.people == s.active + s.queued
    && l.next == s.next && l.maxQueued == s.maxQueued
    && |s.active| == Min(s.max, |l.people|)
  }

  lemma MatchesAcquire(s: State, l: Line)
    requires s.max > 0 && Matches(s, l)
    ensures Matches(Acquire(s), LineStep(s.max, l, AcquireOp))
  {
    AcquireLine(s);
  }

  lemma MatchesRelease(s: State, l: Line, t: Ticket)
    requires Inv(s) && s.max > 0 && Matches(s, l) && t < s.next
    ensures Matches(Release(s, t), LineStep(s.max, l, ReleaseOp(t)))
  {
    ReleaseLine(s, t);
    if t !in s.released {
      ReleaseShape(s, t);
      WithoutKeeps(s.queued, t);
      WithoutKeeps(s.active, t);
      InOneList(s, t);
      hide Inv;
    }
  }

  lemma InOneList(s: State, t: Ticket)
    requires Inv(s)
    ensures InLine(s, t) <==> Live(s, t) && !Rejected(s, t)
    ensures t in s.active ==> t !in s.queued
  {
  }

  lemma LimitKept(s: State, op: Op)
    requires Inv(s) && Allowed(s, op) && (op.SetMaxOp? ==> op.max == s.max)
    ensures Step(s, op).max == s.max
    ensures !op.SetMaxOp? ==> Step(s, op).maxQueued == s.maxQueued
  {
    hide Inv;
    if op.ReleaseOp? && op.t !in s.released { ReleaseShape(s, op.t); }
  }

  lemma MatchesStep(s: State, l: Line, op: Op)
    requires Inv(s) && s.max > 0 && Matches(s, l) && Allowed(s, op) && (op.SetMaxOp? ==> op.max == s.max)
    ensures Matches(Step(s, op), LineStep(s.max, l, op))
    ensures Step(s, op).max == s.max
  {
    LimitKept(s, op);
    hide Inv;
    match op
    case AcquireOp => MatchesAcquire(s, l);
    case ReleaseOp(t) => MatchesRelease(s, l, t);
    case SetMaxOp(_, _) =>
  }

  /** The newest position published to each waiter is its true position, and the published queue length
      is at least that position, at most the present length, and non-decreasing along the queue. */
  ghost predicate Positions(s: State) {
    && (forall j :: 0 <= j < |s.queued| ==>
          && s.queued[j] in s.published
          && s.published[s.queued[j]] == Place(j, s.published[s.queued[j]].max)
          && j + 1 <= s.published[s.queued[j]].max <= |s.queued|)
    && (forall i, j :: 0 <= i < j < |s.queued| ==>
          && s.queued[i] in s.published && s.queued[j] in s.published
          && s.published[s.queued[i]].max <= s.published[s.queued[j]].max)
  }

  lemma PositionsAcquire(s: State, l: Line)
    requires Inv(s) && s.max > 0 && Matches(s, l) && Positions(s)
    ensures Positions(Acquire(s))
  {
    forall j | 0 <= j < |s.queued| ensures s.queued[j] != s.next {
      assert InLine(s, s.queued[j]);
    }
  }

  lemma PositionsRelease(s: State, l: Line, t: Ticket)
    requires Inv(s) && s.max > 0 && Matches(s, l) && Positions(s) && t < s.next
    ensures Positions(Release(s, t))
  {
    if t !in s.released {
      var r := Release(s, t);
      hide Inv;
      forall j | 0 <= j < |r.queued|
        ensures r.queued[j] in r.published && r.published[r.queued[j]] == Place(j, |r.queued|)
      {
        ReleaseTells(s, l, t, j);
      }
    }
  }

  lemma {:induction false} LineRun(s: State, l: Line, ops: seq<Op>)
    requires Inv(s) && s.max > 0 && Matches(s, l) && Positions(s) && Ordered(s)
    requires MaxConstant(s.max, ops) && AllowedRun(s, ops)
    ensures var r := Run(s, ops);
      && Inv(r) && Matches(r, RunLine(s.max, l, ops)) && Positions(r) && Ordered(r)
      && r.max == s.max
    decreases |ops|
  {
    if ops != [] {
      var op := ops[0];
      StepInv(s, op);
      MatchesStep(s, l, op);
      OrderedStep(s, op);
      if op.AcquireOp? { PositionsAcquire(s, l); }
      if op.ReleaseOp? { PositionsRelease(s, l, op.t); }
      LineRun(Step(s, op), LineStep(s.max, l, op), ops[1..]);
    }
  }

  /** Who stands in front of place `max` has been told so, and nobody else. */
  lemma FrontAdmitted(s: State, l: Line, i: nat)
    requires Inv(s) && Matches(s, l) && i < |l.people|
    ensures var t := l.people[i];
      && (t in s.active <==> i < s.max)
      && t in s.published && (s.published[t] == OK <==> i < s.max)
  {
    var t := l.people[i];
    if i < |s.active| {
      assert t == s.active[i];
    } else {
      assert t == s.queued[i - |s.active|];
    }
  }

  /** For every run in which every `SetMax` repeats the same limit: the two lists are the line cut after its first
      `max` people; a handle is admitted exactly when fewer than `max` older live handles exist; and the last
      status published to each waiter is its true position. */
  lemma FixedLimitIsOneLine(max: nat, maxQueued: int, ops: seq<Op>)
    requires max > 0 && MaxConstant(max, ops) && AllowedRun(Init(max, maxQueued), ops)
    ensures var s := Run(Init(max, maxQueued), ops);
      var line := RunLine(max, Line([], 0, maxQueued), ops).people;
      var cut := Min(max, |line|);
      && Increasing(line)
      && s.active == line[..cut] && s.queued == line[cut..]
      && (forall t: Ticket :: t in line ==> (t in s.active <==> CountBelow(line, t) < max))
      && (forall t: Ticket :: t in line ==> t in s.published && (s.published[t] == OK <==> CountBelow(line, t) < max))
      && Positions(s)
  {
    var s := Run(Init(max, maxQueued), ops);
    var line := RunLine(max, Line([], 0, maxQueued), ops).people;
    LineRun(Init(max, maxQueued), Line([], 0, maxQueued), ops);
    hide Inv, Positions, Run, RunLine;
    forall t: Ticket | t in line
      ensures t in s.active <==> CountBelow(line, t) < max
      ensures t in s.published && (s.published[t] == OK <==> CountBelow(line, t) < max)
    {
      var i :| 0 <= i < |line| && line[i] == t;
      CountBelowAt(line, i);
      FrontAdmitted(s, RunLine(max, Line([], 0, maxQueued), ops), i);
    }
  }

  /** Right after any handle is first released, each remaining waiter's newest status is its place in the
      queue and the length of the queue; right after an arrival that has to wait, so is the newcomer's. */
  lemma AnnouncedExactly(max: nat, maxQueued: int, ops: seq<Op>, t: Ticket, j: nat)
    requires max > 0 && MaxConstant(max, ops) && AllowedRun(Init(max, maxQueued), ops)
    requires Live(Run(Init(max, maxQueued), ops), t)
    ensures var s := Run(Init(max, maxQueued), ops); var r, a := Release(s, t), Acquire(s);
      && (j < |r.queued| ==> r.queued[j] in r.published && r.published[r.queued[j]] == Status(j, |r.queued|, false, false))
      && (s.next in a.queued ==>
            s.next in a.published && a.published[s.next] == Status(|s.queued|, |s.queued| + 1, false, false))
  {
    var s, l := Run(Init(max, maxQueued), ops), RunLine(max, Line([], 0, maxQueued), ops);
    LineRun(Init(max, maxQueued), Line([], 0, maxQueued), ops);
    hide Inv, Matches, Run, RunLine, Positions, Acquire, Release, AllowedRun;
    if j < |Release(s, t).queued| { ReleaseTells(s, l, t, j); }
    AcquireTells(s, l);
  }

  lemma ReleaseTells(s: State, l: Line, t: Ticket, j: nat)
    requires Inv(s) && s.max > 0 && Matches(s, l) && Live(s, t) && j < |Release(s, t).queued|
    ensures var r := Release(s, t);
      r.queued[j] in r.published && r.published[r.queued[j]] == Place(j, |r.queued|)
  {
    MatchesStep(s, l, ReleaseOp(t));
    hide Inv;
    Reannounced(s, t, j);
  }

  lemma AcquireTells(s: State, l: Line)
    requires Inv(s) && s.max > 0 && Matches(s, l)
    ensures var a := Acquire(s);
      s.next in a.queued ==> s.next in a.published && a.published[s.next] == Place(|s.queued|, |s.queued| + 1)
  {
    NextNotQueued(s);
    hide Inv;
  }

  lemma NextNotQueued(s: State)
    requires Inv(s)
    ensures s.next !in s.queued
  {
    AllOlder(s);
    if s.next in s.queued { assert InLine(s, s.next); }
  }

  // ---- the exact waiting bound ----

  /** `t` stands somewhere in front of `w`. */
  ghost predicate Ahead(line: seq<Ticket>, t: Ticket, w: Ticket) {
    exists j :: 0 <= j < |line| && line[j] == w && t in line[..j]
  }

  ghost predicate LeavesAhead(s: State, w: Ticket, op: Op) {
    op.ReleaseOp? && Ahead(s.active + s.queued, op.t, w)
  }

  /** Releases, along a run, of handles that stand in front of `w` when released. */
  ghost function AheadReleases(s: State, w: Ticket, ops: seq<Op>): nat
    decreases |ops|
  {
    if ops == [] then 0
    else (if LeavesAhead(s, w, ops[0]) then 1 else 0) + AheadReleases(Step(s, ops[0]), w, ops[1..])
  }

  lemma {:induction false} ReleasedStays(s: State, ops: seq<Op>, t: Ticket)
    requires Inv(s) && AllowedRun(s, ops) && t in s.released
    ensures t in Run(s, ops).released
    decreases |ops|
  {
    if ops != [] {
      StepInv(s, ops[0]);
      NextGrows(s, ops[0]);
      ReleasedStays(Step(s, ops[0]), ops[1..], t);
    }
  }

  /** `w` stands at place `p` of the line, and an admitted `w` has fewer than `max` people before it. */
  ghost predicate StandsAt(s: State, w: Ticket, p: int) {
    && 0 <= p < |s.active + s.queued| && (s.active + s.queued)[p] == w
    && (w in s.active ==> p < s.max)
  }

  /** In a line without repetitions, to stand in front of `w` is to be found before its place. */
  lemma AheadAt(line: seq<Ticket>, t: Ticket, w: Ticket, p: nat)
    requires NoDup(line) && p < |line| && line[p] == w
    ensures Ahead(line, t, w) <==> t in line[..p]
  {
  }

  lemma LineNoDup(s: State)
    requires Inv(s)
    ensures NoDup(s.active + s.queued)
    ensures forall t: Ticket :: t in s.released ==> t !in s.active + s.queued
  {
    NoDupConcat(s.active, s.queued);
    forall t: Ticket | t in s.released ensures t !in s.active + s.queued {
      assert InLine(s, t) <==> Live(s, t) && !Rejected(s, t);
    }
  }

  lemma StandsAtAcquire(s: State, w: Ticket, p: nat)
    requires Inv(s) && Settled(s) && StandsAt(s, w, p)
    ensures StandsAt(Acquire(s), w, p)
  {
    AcquireLine(s);
    NextNotQueued(s);
    AllOlder(s);
    assert InLine(s, w);
  }

  lemma StandsAtRelease(s: State, w: Ticket, p: nat, t: Ticket)
    requires Inv(s) && s.max > 0 && StandsAt(s, w, p) && t < s.next && t != w
    ensures StandsAt(Release(s, t), w, if Ahead(s.active + s.queued, t, w) then p - 1 else p)
  {
    var line := s.active + s.queued;
    LineNoDup(s);
    AheadAt(line, t, w, p);
    if t in s.released {
      assert t !in line[..p];
    } else {
      hide Inv;
      ReleaseLine(s, t);
      PlaceAfterLeave(line, t, w, p);
      AdmittedWithin(s, t, w, p);
    }
  }

  lemma StandsAtStep(s: State, w: Ticket, p: nat, op: Op)
    requires Inv(s) && Settled(s) && s.max > 0 && StandsAt(s, w, p)
    requires Allowed(s, op) && (op.SetMaxOp? ==> op.max == s.max) && op != ReleaseOp(w)
    ensures StandsAt(Step(s, op), w, if LeavesAhead(s, w, op) then p - 1 else p)
  {
    match op
    case SetMaxOp(_, _) =>
    case AcquireOp => StandsAtAcquire(s, w, p);
    case ReleaseOp(t) => StandsAtRelease(s, w, p, t);
  }

  /** A departure from in front moves `w` up by one; any other departure leaves it where it was. */
  lemma PlaceAfterLeave(line: seq<Ticket>, t: Ticket, w: Ticket, p: nat)
    requires NoDup(line) && p < |line| && line[p] == w && t != w
    ensures var q := if t in line[..p] then p - 1 else p;
      && 0 <= q < |Without(line, t)| && Without(line, t)[q] == w
  {
    if t in line {
      var i :| 0 <= i < |line| && line[i] == t;
      WithoutAt(line, i);
      assert i < p ==> line[..p][i] == t;
    } else {
      WithoutAbsent(line, t);
    }
  }

  /** A release never admits anyone to a place at or beyond `max`. */
  lemma AdmittedWithin(s: State, t: Ticket, w: Ticket, p: nat)
    requires Inv(s) && s.max > 0 && StandsAt(s, w, p) && Live(s, t) && t != w
    ensures var r := Release(s, t);
      w in r.active ==> (if t in (s.active + s.queued)[..p] then p - 1 else p) < s.max
  {
    var r, line := Release(s, t), s.active + s.queued;
    if w in r.active && w !in s.active {
      LineNoDup(s);
      ReleaseLine(s, t);
      ReleaseInv(s, t);
      LineNoDup(r);
      AdmittedCapped(s, t, w);
      PlaceAfterLeave(line, t, w, p);
      var q :| 0 <= q < |r.active| && r.active[q] == w;
      assert (r.active + r.queued)[q] == w;
    }
  }

  /** A release that lets `w` in has filled at most the free slots. */
  lemma AdmittedCapped(s: State, t: Ticket, w: Ticket)
    requires Inv(s) && s.max > 0 && Live(s, t) && w in Release(s, t).active && w !in s.active
    ensures |Release(s, t).active| <= s.max
  {
    var m := Remove(s, t);
    ReleaseShape(s, t);
    WithoutKeeps(s.active, t);
    assert LetIn(s, t) > 0;
  }

  lemma SettledStep(s: State, op: Op)
    requires Inv(s) && Settled(s) && s.max > 0 && Allowed(s, op) && (op.SetMaxOp? ==> op.max == s.max)
    ensures Settled(Step(s, op)) && Step(s, op).max == s.max
  {
    SettledLostExactly(s, op);
    LimitKept(s, op);
  }

  /** In a settled line, who stands at place `p` is admitted exactly if `p` is within the limit. */
  lemma AdmittedAt(s: State, w: Ticket, p: nat)
    requires Inv(s) && Settled(s) && s.max > 0 && StandsAt(s, w, p)
    ensures w in s.active <==> p < s.max
    ensures w in s.active || w in s.queued
  {
    if w !in s.active {
      assert p >= |s.active|;
      assert s.queued[p - |s.active|] == w;
    }
  }

  lemma {:induction false} WaitingRun(s: State, w: Ticket, p: nat, ops: seq<Op>)
    requires Inv(s) && Settled(s) && s.max > 0 && StandsAt(s, w, p)
    requires AllowedRun(s, ops) && MaxConstant(s.max, ops) && w !in Run(s, ops).released
    ensures var r := Run(s, ops);
      && (w in r.active <==> p - AheadReleases(s, w, ops) < s.max)
      && (w in r.active || w in r.queued)
    decreases |ops|
  {
    if ops == [] {
      AdmittedAt(s, w, p);
    } else {
      var op, s' := ops[0], Step(s, ops[0]);
      StepInv(s, op);
      SettledStep(s, op);
      if op == ReleaseOp(w) {
        ReleaseInv(s, w);
        ReleasedStays(s', ops[1..], w);
        assert false;
      } else {
        StandsAtStep(s, w, p, op);
        WaitingRun(s', w, if LeavesAhead(s, w, op) then p - 1 else p, ops[1..]);
      }
    }
  }

  /** From any reachable state without a free slot, whatever the limits were before: the waiter at queue
      position `i` behind a surplus of `|active| - max` is admitted exactly when surplus + i + 1 handles that
      stood in front of it have been released; arrivals and releases behind it never change this. */
  lemma ExactWaitingBound(max: nat, maxQueued: int, history: seq<Op>, i: nat, ops: seq<Op>)
    requires AllowedRun(Init(max, maxQueued), history)
    requires var s := Run(Init(max, maxQueued), history);
      && !HasRoom(s) && i < |s.queued| && AllowedRun(s, ops) && MaxConstant(s.max, ops)
      && s.queued[i] !in Run(s, ops).released
    ensures var s := Run(Init(max, maxQueued), history);
      var w := s.queued[i];
      && Surplus(s) >= 0
      && (w in Run(s, ops).active <==> AheadReleases(s, w, ops) >= Surplus(s) + i + 1)
      && (w !in Run(s, ops).active <==> w in Run(s, ops).queued)
  {
    RunInv(Init(max, maxQueued), history);
    var s := Run(Init(max, maxQueued), history);
    var w := s.queued[i];
    assert (s.active + s.queued)[|s.active| + i] == w;
    assert w !in s.active;
    WaitingRun(s, w, |s.active| + i, ops);
    RunInv(s, ops);
  }

  // ---- in arrival order, ahead is older ----

  /** Releases, along a run, of live handles older than `w` that are in the line when released. */
  function OlderReleases(s: State, w: Ticket, ops: seq<Op>): nat
    decreases |ops|
  {
    if ops == [] then 0
    else
      (if ops[0].ReleaseOp? && ops[0].t < w && ops[0].t in s.active + s.queued then 1 else 0)
      + OlderReleases(Step(s, ops[0]), w, ops[1..])
  }

  /** Who stands before place `p` is older than `w`, who stands behind it is younger. */
  ghost predicate Parted(line: seq<Ticket>, p: int, w: Ticket) {
    forall q :: 0 <= q < |line| ==> (q < p ==> line[q] < w) && (q > p ==> line[q] > w)
  }

  lemma PartedAhead(line: seq<Ticket>, t: Ticket, w: Ticket, p: nat)
    requires NoDup(line) && p < |line| && line[p] == w && Parted(line, p, w)
    ensures Ahead(line, t, w) <==> t < w && t in line
  {
    AheadAt(line, t, w, p);
    if t < w && t in line {
      var i :| 0 <= i < |line| && line[i] == t;
      assert line[..p][i] == t;
    }
  }

  lemma PartedWithout(line: seq<Ticket>, t: Ticket, w: Ticket, p: nat)
    requires NoDup(line) && p < |line| && line[p] == w && t != w && Parted(line, p, w)
    ensures Parted(Without(line, t), if t in line[..p] then p - 1 else p, w)
  {
    if t in line {
      var i :| 0 <= i < |line| && line[i] == t;
      WithoutAt(line, i);
      assert i < p ==> line[..p][i] == t;
    } else {
      WithoutAbsent(line, t);
    }
  }

  lemma PartedStep(s: State, w: Ticket, p: nat, op: Op)
    requires Inv(s) && Settled(s) && s.max > 0 && StandsAt(s, w, p) && Parted(s.active + s.queued, p, w)
    requires Allowed(s, op) && (op.SetMaxOp? ==> op.max == s.max) && op != ReleaseOp(w)
    ensures Parted(Step(s, op).active + Step(s, op).queued, if LeavesAhead(s, w, op) then p - 1 else p, w)
  {
    var line := s.active + s.queued;
    LineNoDup(s);
    match op
    case SetMaxOp(_, _) =>
    case AcquireOp =>
      AllOlder(s);
      assert InLine(s, w);
      AcquireLine(s);
    case ReleaseOp(t) =>
      ReleaseLine(s, t);
      AheadAt(line, t, w, p);
      PartedWithout(line, t, w, p);
  }

  lemma {:induction false} AheadReleasesAreOlder(s: State, w: Ticket, p: nat, ops: seq<Op>)
    requires Inv(s) && Settled(s) && s.max > 0 && StandsAt(s, w, p) && Parted(s.active + s.queued, p, w)
    requires AllowedRun(s, ops) && MaxConstant(s.max, ops) && w !in Run(s, ops).released
    ensures AheadReleases(s, w, ops) == OlderReleases(s, w, ops)
    decreases |ops|
  {
    if ops != [] {
      var op, s' := ops[0], Step(s, ops[0]);
      StepInv(s, op);
      SettledStep(s, op);
      if op == ReleaseOp(w) {
        ReleaseInv(s, w);
        ReleasedStays(s', ops[1..], w);
        assert false;
      } else {
        StandsAtStep(s, w, p, op);
        PartedStep(s, w, p, op);
        LineNoDup(s);
        if op.ReleaseOp? { PartedAhead(s.active + s.queued, op.t, w, p); }
        AheadReleasesAreOlder(s', w, if LeavesAhead(s, w, op) then p - 1 else p, ops[1..]);
      }
    }
  }

  /** Nobody has overtaken `w` and is still admitted. */
  ghost predicate NoneYoungerActive(s: State, w: Ticket) {
    forall a :: a in s.active ==> a < w
  }

  /** After a continuation, `w` is admitted exactly if `n` older live handles have been released along it. */
  ghost predicate OlderCount(s: State, w: Ticket, n: int, ops: seq<Op>) {
    w in Run(s, ops).active <==> OlderReleases(s, w, ops) >= n
  }

  /** The waiting bound in terms of older handles: it holds for every continuation with the same limit in which
      `w` is not itself released. */
  ghost predicate OlderBound(s: State, w: Ticket, n: int) {
    forall ops :: AllowedRun(s, ops) && MaxConstant(s.max, ops) && w !in Run(s, ops).released ==> OlderCount(s, w, n, ops)
  }

  lemma WaiterStands(s: State, i: nat)
    requires Inv(s) && !HasRoom(s) && i < |s.queued|
    ensures Settled(s) && s.max > 0 && Surplus(s) >= 0
    ensures StandsAt(s, s.queued[i], |s.active| + i) && s.queued[i] !in s.active
  {
    assert (s.active + s.queued)[|s.active| + i] == s.queued[i];
  }

  lemma LinePartedAt(s: State, i: nat)
    requires Inv(s) && i < |s.queued| && NoneYoungerActive(s, s.queued[i])
    ensures Parted(s.active + s.queued, |s.active| + i, s.queued[i])
  {
    var line, p := s.active + s.queued, |s.active| + i;
    forall q | 0 <= q < |line| ensures (q < p ==> line[q] < s.queued[i]) && (q > p ==> line[q] > s.queued[i]) {
      if q < |s.active| {
        assert line[q] in s.active;
      } else {
        assert line[q] == s.queued[q - |s.active|];
      }
    }
  }

  lemma BoundSuffices(s: State, i: nat)
    requires Inv(s) && !HasRoom(s) && i < |s.queued| && NoneYoungerActive(s, s.queued[i])
    ensures OlderBound(s, s.queued[i], Surplus(s) + i + 1)
  {
    var w, p := s.queued[i], |s.active| + i;
    WaiterStands(s, i);
    LinePartedAt(s, i);
    forall ops | AllowedRun(s, ops) && MaxConstant(s.max, ops) && w !in Run(s, ops).released
      ensures OlderCount(s, w, Surplus(s) + i + 1, ops)
    {
      WaitingRun(s, w, p, ops);
      AheadReleasesAreOlder(s, w, p, ops);
    }
  }

  lemma {:induction false} AtMostOneEach(s: State, w: Ticket, ops: seq<Op>)
    ensures OlderReleases(s, w, ops) <= |ops|
    decreases |ops|
  {
    if ops != [] { AtMostOneEach(Step(s, ops[0]), w, ops[1..]); }
  }

  /** Releasing a handle in front of `w` is a step that brings it up by one and leaves it live. */
  lemma FrontLeaves(s: State, w: Ticket, p: nat, t: Ticket)
    requires Inv(s) && Settled(s) && s.max > 0 && StandsAt(s, w, p) && t in (s.active + s.queued)[..p]
    ensures Allowed(s, ReleaseOp(t)) && t != w && LeavesAhead(s, w, ReleaseOp(t)) && p > 0
    ensures var r := Release(s, t); Inv(r) && Settled(r) && r.max == s.max && StandsAt(r, w, p - 1)
  {
    var line := s.active + s.queued;
    LineNoDup(s);
    AheadAt(line, t, w, p);
    var q :| 0 <= q < p && line[..p][q] == t;
    assert line[q] == t && line[q] != line[p];
    AllOlder(s);
    assert InLine(s, t);
    StepInv(s, ReleaseOp(t));
    SettledStep(s, ReleaseOp(t));
    StandsAtStep(s, w, p, ReleaseOp(t));
  }

  lemma StandingIsLive(s: State, w: Ticket, p: nat)
    requires Inv(s) && StandsAt(s, w, p)
    ensures w !in s.released
  {
    LineNoDup(s);
  }

  /** The run in which whoever stands first leaves, `k` times over. */
  lemma {:induction false} FrontRun(s: State, w: Ticket, p: nat, k: nat) returns (ops: seq<Op>)
    requires Inv(s) && Settled(s) && s.max > 0 && StandsAt(s, w, p) && k <= p
    ensures |ops| == k && AllowedRun(s, ops) && MaxConstant(s.max, ops)
    ensures w !in Run(s, ops).released && AheadReleases(s, w, ops) == k
    decreases k
  {
    if k == 0 {
      ops := [];
      StandingIsLive(s, w, p);
    } else {
      var t := (s.active + s.queued)[0];
      assert (s.active + s.queued)[..p][0] == t;
      FrontLeaves(s, w, p, t);
      var rest := FrontRun(Release(s, t), w, p - 1, k - 1);
      ops := PrependRelease(s, w, t, rest);
    }
  }

  lemma PrependRelease(s: State, w: Ticket, t: Ticket, rest: seq<Op>) returns (ops: seq<Op>)
    requires Allowed(s, ReleaseOp(t)) && LeavesAhead(s, w, ReleaseOp(t)) && Release(s, t).max == s.max
    requires AllowedRun(Release(s, t), rest) && MaxConstant(s.max, rest)
    ensures ops == [ReleaseOp(t)] + rest && AllowedRun(s, ops) && MaxConstant(s.max, ops)
    ensures Run(s, ops) == Run(Release(s, t), rest)
    ensures AheadReleases(s, w, ops) == 1 + AheadReleases(Release(s, t), w, rest)
    ensures w < t ==> OlderReleases(s, w, ops) == OlderReleases(Release(s, t), w, rest)
  {
    ops := [ReleaseOp(t)] + rest;
    assert ops[0] == ReleaseOp(t) && ops[1..] == rest;
  }

  /** With a younger handle admitted, the run in which it leaves first and then the front of the line breaks the bound. */
  lemma BoundNeeds(s: State, i: nat, a: Ticket)
    requires Inv(s) && !HasRoom(s) && i < |s.queued| && a in s.active && a > s.queued[i]
    ensures !OlderBound(s, s.queued[i], Surplus(s) + i + 1)
  {
    var w, p, n := s.queued[i], |s.active| + i, Surplus(s) + i + 1;
    WaiterStands(s, i);
    var q :| 0 <= q < |s.active| && s.active[q] == a;
    assert (s.active + s.queued)[..p][q] == a;
    FrontLeaves(s, w, p, a);
    var rest := FrontRun(Release(s, a), w, p - 1, n - 1);
    var ops := PrependRelease(s, w, a, rest);
    WaitingRun(s, w, p, ops);
    AtMostOneEach(Release(s, a), w, rest);
    assert !OlderCount(s, w, n, ops);
  }

  /** Exactly when the handles in front are counted by age: in any reachable state without a free slot, a waiter is
      admitted by the departure of surplus + i + 1 older live handles, over every continuation, if and only if no
      younger handle is admitted already. */
  lemma OlderBoundExactly(max: nat, maxQueued: int, history: seq<Op>, i: nat)
    requires AllowedRun(Init(max, maxQueued), history)
    requires var s := Run(Init(max, maxQueued), history); !HasRoom(s) && i < |s.queued|
    ensures var s := Run(Init(max, maxQueued), history);
      OlderBound(s, s.queued[i], Surplus(s) + i + 1) <==> NoneYoungerActive(s, s.queued[i])
  {
    RunInv(Init(max, maxQueued), history);
    var s := Run(Init(max, maxQueued), history);
    var w := s.queued[i];
    WaiterStands(s, i);
    if NoneYoungerActive(s, w) {
      BoundSuffices(s, i);
    } else {
      var a :| a in s.active && a >= w;
      BoundNeeds(s, i, a);
    }
  }

  /** In particular with limits never loosened: the waiter is admitted exactly when surplus + i + 1 older live
      handles have been released. */
  lemma ArrivalOrderBound(max: nat, maxQueued: int, history: seq<Op>, i: nat, ops: seq<Op>)
    requires TightRun(Init(max, maxQueued), history)
    requires var s := Run(Init(max, maxQueued), history);
      && i < |s.queued| && AllowedRun(s, ops) && MaxConstant(s.max, ops)
      && s.queued[i] !in Run(s, ops).released
    ensures var s := Run(Init(max, maxQueued), history);
      var w := s.queued[i];
      && Surplus(s) >= 0
      && (w in Run(s, ops).active <==> OlderReleases(s, w, ops) >= Surplus(s) + i + 1)
  {
    TightRunKeeps(Init(max, maxQueued), history);
    TightRunAllowed(Init(max, maxQueued), history);
    var s := Run(Init(max, maxQueued), history);
    var w := s.queued[i];
    OlderBoundExactly(max, maxQueued, history, i);
    assert NoneYoungerActive(s, w) by {
      forall a | a in s.active ensures a < w {
        var q :| 0 <= q < |s.active| && s.active[q] == a;
        assert (s.active + s.queued)[q] < (s.active + s.queued)[|s.active| + i];
      }
    }
    assert OlderCount(s, w, Surplus(s) + i + 1, ops);
  }

  lemma {:induction false} TightRunAllowed(s: State, ops: seq<Op>)
    requires TightRun(s, ops)
    ensures AllowedRun(s, ops)
    decreases |ops|
  {
    if ops != [] { TightRunAllowed(Step(s, ops[0]), ops[1..]); }
  }

  /** After a raise and a lowering of the limit, who stands in front may be younger: behind a surplus of 1, the
      first waiter is let in by the departures of the older handle 0 and the younger handle 2. */
  lemma AheadMayBeYounger()
    ensures var history := [AcquireOp, AcquireOp, SetMaxOp(2, 0), AcquireOp, SetMaxOp(1, 0)];
      var ops := [ReleaseOp(0), ReleaseOp(2)];
      AllowedRun(Init(1, 0), history)
      && var s := Run(Init(1, 0), history);
      && s.active == [0, 2] && s.queued == [1] && Surplus(s) == 1
      && AllowedRun(s, ops) && 1 in Run(s, ops).active
      && AheadReleases(s, 1, ops) == 2 && OlderReleases(s, 1, ops) == 1
  {
    var s0 := Init(1, 0);
    var s1, s2 := Acquire(s0), Acquire(Acquire(s0));
    var s4 := Acquire(SetMax(s2, 2, 0));
    var s5 := SetMax(s4, 1, 0);
    var history := [AcquireOp, AcquireOp, SetMaxOp(2, 0), AcquireOp, SetMaxOp(1, 0)];
    UnfoldRun(s0, history);
    UnfoldRun(s1, history[1..]);
    UnfoldRun(s2, history[2..]);
    UnfoldRun(SetMax(s2, 2, 0), history[3..]);
    UnfoldRun(s4, history[4..]);
    UnfoldRun(s5, history[5..]);
    assert s5.active == [0, 2] && s5.queued == [1] && s5.max == 1 && s5.released == {} && s5.next == 3;
    TwoDepartures(s5);
  }

  lemma TwoDepartures(s: State)
    requires s.active == [0, 2] && s.queued == [1] && s.max == 1 && s.released == {} && s.next == 3
    ensures var ops := [ReleaseOp(0), ReleaseOp(2)];
      && AllowedRun(s, ops) && 1 in Run(s, ops).active
      && AheadReleases(s, 1, ops) == 2 && OlderReleases(s, 1, ops) == 1
  {
    var ops: seq<Op> := [ReleaseOp(0), ReleaseOp(2)];
    var a, b := Release(s, 0), Release(Release(s, 0), 2);
    FirstDeparture(s);
    SecondDeparture(a);
    assert ops[1..] == [ReleaseOp(2)] && ops[1..][1..] == [];
    UnfoldRun(s, ops);
    UnfoldRun(a, ops[1..]);
    UnfoldRun(b, []);
    assert LeavesAhead(s, 1, ops[0]) by {
      var line := s.active + s.queued;
      assert line[2] == 1 && line[..2][0] == 0;
    }
    assert LeavesAhead(a, 1, ops[1]) by {
      var line := a.active + a.queued;
      assert line[1] == 1 && line[..1][0] == 2;
    }
    assert AheadReleases(b, 1, []) == 0 && OlderReleases(b, 1, []) == 0;
    assert AheadReleases(a, 1, ops[1..]) == 1 && OlderReleases(a, 1, ops[1..]) == 0;
    assert 0 in s.active + s.queued;
  }

  lemma FirstOfTwoLeaves()
    ensures Without([0, 2], 0) == [2]
  {
    WithoutAt([0, 2], 0);
    assert [0, 2][..0] + [0, 2][1..] == [2];
  }

  lemma FirstDeparture(s: State)
    requires s.active == [0, 2] && s.queued == [1] && s.max == 1 && s.released == {} && s.next == 3
    ensures var r := Release(s, 0); r.active == [2] && r.queued == [1] && r.max == 1 && r.released == {0} && r.next == 3
  {
    FirstOfTwoLeaves();
    hide Without, BroadcastFrom;
    var m := Remove(s, 0);
    assert PopAll(m) == m;
    BroadcastFrame(m, 0);
  }

  lemma SecondDeparture(s: State)
    requires s.active == [2] && s.queued == [1] && s.max == 1 && s.released == {0} && s.next == 3
    ensures var r := Release(s, 2); r.active == [1] && r.queued == []
  {
    var m := Remove(s, 2);
    WithoutAt([2], 0);
    assert m.active == [] && m.queued == [1];
    PopAllShape(m);
    BroadcastFrame(PopAll(m), 0);
  }
}
