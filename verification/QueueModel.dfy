/** The admission queue of `pkg/queue/queue.go` as a pure state machine.

A `State` is what the mutex protects, with two additions kept for the proofs: every `Acquire` gets the
next ticket number, and `published` remembers the newest status written to each ticket's channel.
The class in `AdmissionQueue` is proved equal to these functions, one call at a time. */
module QueueModel {

  type Ticket = nat

  datatype Status = Status(index: int, max: int, ok: bool, full: bool) {
    /** The statuses after which the channel is closed and the owner stops receiving. */
    predicate Final() { ok || full }
  }

  const OK := Status(0, 0, true, false)
  const FULL := Status(0, 0, false, true)

  function Place(index: int, max: int): Status {
    Status(index, max, false, false)
  }

  datatype State = State(
    max: nat,
    maxQueued: int,
    active: seq<Ticket>,
    queued: seq<Ticket>,
    next: Ticket,
    published: map<Ticket, Status>,
    released: set<Ticket>)

  function Init(max: nat, maxQueued: int): State {
    State(max, maxQueued, [], [], 0, map[], {})
  }

  predicate HasRoom(s: State) {
    |s.active| < s.max || s.max == 0
  }

  function Surplus(s: State): int {
    |s.active| - s.max
  }

  /** The lists after `Acquire`, before anything is sent on the new channel. */
  function Enlist(s: State): State {
    if HasRoom(s) then s.(active := s.active + [s.next], next := s.next + 1)
    else if s.maxQueued > 0 && |s.queued| >= s.maxQueued then s.(next := s.next + 1)
    else s.(queued := s.queued + [s.next], next := s.next + 1)
  }

  /** The status `Acquire` sends on the new channel. */
  function FirstStatus(s: State): Status {
    if HasRoom(s) then OK
    else if s.maxQueued > 0 && |s.queued| >= s.maxQueued then FULL
    else Place(Surplus(s) + |s.queued|, Surplus(s) + |s.queued| + 1)
  }

  function Publish(s: State, t: Ticket, status: Status): State {
    s.(published := s.published[t := status])
  }

  function Acquire(s: State): State {
    Publish(Enlist(s), s.next, FirstStatus(s))
  }

  /** The rebuilt list of the two filter loops of `releaseFromHandle`. */
  function Without(xs: seq<Ticket>, t: Ticket): seq<Ticket> {
    if xs == [] then []
    else
      var rest := Without(xs[..|xs| - 1], t);
      if xs[|xs| - 1] == t then rest else rest + [xs[|xs| - 1]]
  }

  function PopHead(s: State): State
    requires s.queued != []
  {
    Publish(s, s.queued[0], OK).(active := s.active + [s.queued[0]], queued := s.queued[1..])
  }

  function PopAll(s: State): State
    decreases |s.queued|
  {
    if s.queued != [] && HasRoom(s) then PopAll(PopHead(s)) else s
  }

  function PlaceAt(s: State, i: int): Status {
    Place(Surplus(s) + i, Surplus(s) + |s.queued|)
  }

  function BroadcastFrom(s: State, i: nat): State
    requires i <= |s.queued|
    decreases |s.queued| - i
  {
    if i == |s.queued| then s
    else BroadcastFrom(Publish(s, s.queued[i], PlaceAt(s, i)), i + 1)
  }

  /** The lists after the release has taken `t` out of whichever list holds it. */
  function Remove(s: State, t: Ticket): State {
    if t in s.queued then s.(queued := Without(s.queued, t), released := s.released + {t})
    else s.(active := Without(s.active, t), released := s.released + {t})
  }

  /** Releasing a waiter returns early, before the pop loop. */
  function Settle(s: State, wasQueued: bool): State {
    if wasQueued then BroadcastFrom(s, 0) else BroadcastFrom(PopAll(s), 0)
  }

  function Release(s: State, t: Ticket): State {
    if t in s.released then s else Settle(Remove(s, t), t in s.queued)
  }

  function SetMax(s: State, max: nat, maxQueued: int): State {
    s.(max := max, maxQueued := maxQueued)
  }

  datatype Op = AcquireOp | ReleaseOp(t: Ticket) | SetMaxOp(max: nat, maxQueued: int)

  /** Only a handle that `Acquire` returned can be released. */
  predicate Allowed(s: State, op: Op) {
    op.ReleaseOp? ==> op.t < s.next
  }

  function Step(s: State, op: Op): State {
    match op
    case AcquireOp => Acquire(s)
    case ReleaseOp(t) => Release(s, t)
    case SetMaxOp(m, mq) => SetMax(s, m, mq)
  }

  predicate AllowedRun(s: State, ops: seq<Op>)
    decreases |ops|
  {
    ops == [] || (Allowed(s, ops[0]) && AllowedRun(Step(s, ops[0]), ops[1..]))
  }

  function Run(s: State, ops: seq<Op>): State
    decreases |ops|
  {
    if ops == [] then s else Run(Step(s, ops[0]), ops[1..])
  }

  // ---- sequences of tickets ----

  ghost predicate Increasing(xs: seq<Ticket>) {
    forall i, j :: 0 <= i < j < |xs| ==> xs[i] < xs[j]
  }

  ghost predicate NoDup(xs: seq<Ticket>) {
    forall i, j :: 0 <= i < j < |xs| ==> xs[i] != xs[j]
  }

  lemma NoDupConcat(xs: seq<Ticket>, ys: seq<Ticket>)
    requires NoDup(xs) && NoDup(ys) && forall x :: x in xs ==> x !in ys
    ensures NoDup(xs + ys)
  {
    forall i, j | 0 <= i < j < |xs + ys| ensures (xs + ys)[i] != (xs + ys)[j] {
      if i < |xs| <= j { assert xs[i] in xs && ys[j - |xs|] in ys; }
    }
  }

  lemma {:induction false} WithoutAbsent(xs: seq<Ticket>, t: Ticket)
    requires t !in xs
    ensures Without(xs, t) == xs
  {
    if xs == [] {
    } else {
      WithoutAbsent(xs[..|xs| - 1], t);
    }
  }

  lemma {:induction false} WithoutAt(xs: seq<Ticket>, i: nat)
    requires NoDup(xs) && i < |xs|
    ensures Without(xs, xs[i]) == xs[..i] + xs[i + 1..]
  {
    var last := |xs| - 1;
    if i == last {
      WithoutAbsent(xs[..last], xs[i]);
    } else {
      WithoutAt(xs[..last], i);
      assert xs[..last][..i] + xs[..last][i + 1..] + [xs[last]] == xs[..i] + xs[i + 1..];
    }
  }

  lemma {:induction false} WithoutMembers(xs: seq<Ticket>, t: Ticket)
    ensures forall x :: x in Without(xs, t) <==> x in xs && x != t
    ensures |Without(xs, t)| <= |xs|
  {
    if xs == [] {
    } else {
      var last := |xs| - 1;
      WithoutMembers(xs[..last], t);
      assert forall x :: x in xs <==> x in xs[..last] || x == xs[last];
    }
  }

  lemma {:induction false} WithoutConcat(xs: seq<Ticket>, ys: seq<Ticket>, t: Ticket)
    ensures Without(xs + ys, t) == Without(xs, t) + Without(ys, t)
  {
    if ys == [] {
      assert xs + ys == xs;
    } else {
      var last := |ys| - 1;
      assert (xs + ys)[..|xs + ys| - 1] == xs + ys[..last];
      WithoutConcat(xs, ys[..last], t);
    }
  }

  /** Removing keeps arrival order, takes exactly one entry if there is one, and none otherwise. */
  lemma WithoutKeeps(xs: seq<Ticket>, t: Ticket)
    requires NoDup(xs)
    ensures NoDup(Without(xs, t))
    ensures Increasing(xs) ==> Increasing(Without(xs, t))
    ensures |Without(xs, t)| == if t in xs then |xs| - 1 else |xs|
    ensures forall x :: x in Without(xs, t) <==> x in xs && x != t
  {
    WithoutMembers(xs, t);
    if t in xs {
      var i :| 0 <= i < |xs| && xs[i] == t;
      WithoutAt(xs, i);
    } else {
      WithoutAbsent(xs, t);
    }
  }

  // ---- closed forms of the two loops ----

  /** How many waiters the pop loop admits. */
  function Pops(s: State): nat {
    if s.max == 0 || |s.active| + |s.queued| <= s.max then |s.queued|
    else if |s.active| < s.max then s.max - |s.active|
    else 0
  }

  lemma {:induction false} PopAllShape(s: State)
    requires NoDup(s.queued)
    ensures var k := Pops(s); var r := PopAll(s);
      && k <= |s.queued|
      && r.active == s.active + s.queued[..k] && r.queued == s.queued[k..]
      && r == s.(active := r.active, queued := r.queued, published := r.published)
      && (forall t :: t in r.published <==> t in s.published || t in s.queued[..k])
      && (forall t :: t in s.queued[..k] ==> r.published[t] == OK)
      && (forall t :: t in s.published && t !in s.queued[..k] ==> r.published[t] == s.published[t])
    decreases |s.queued|
  {
    var k := Pops(s);
    if s.queued != [] && HasRoom(s) {
      var p := PopHead(s);
      PopAllShape(p);
      assert Pops(p) == k - 1;
      assert s.queued[..k] == [s.queued[0]] + s.queued[1..][..k - 1];
      assert s.active + s.queued[..k] == p.active + p.queued[..k - 1];
      assert s.queued[k..] == p.queued[k - 1..];
    } else {
      assert s.queued[..0] == [];
      assert s.active + s.queued[..0] == s.active;
    }
  }

  /** Broadcasting writes the published statuses and nothing else. */
  lemma {:induction false} BroadcastFrame(s: State, i: nat)
    requires i <= |s.queued|
    ensures var r := BroadcastFrom(s, i);
      && r == s.(published := r.published)
      && (forall t :: t in r.published <==> t in s.published || t in s.queued[i..])
      && (forall t :: t in s.published && t !in s.queued[i..] ==> r.published[t] == s.published[t])
    decreases |s.queued| - i
  {
    if i < |s.queued| {
      BroadcastFrame(Publish(s, s.queued[i], PlaceAt(s, i)), i + 1);
      assert s.queued[i..] == [s.queued[i]] + s.queued[i + 1..];
    }
  }

  /** The waiter at position j is told exactly position j, counted behind the surplus. */
  lemma {:induction false} BroadcastAt(s: State, i: nat, j: nat)
    requires NoDup(s.queued) && i <= j < |s.queued|
    ensures s.queued[j] in BroadcastFrom(s, i).published
    ensures BroadcastFrom(s, i).published[s.queued[j]] == PlaceAt(s, j)
    decreases |s.queued| - i
  {
    var p := Publish(s, s.queued[i], PlaceAt(s, i));
    if i < j {
      BroadcastAt(p, i + 1, j);
    } else {
      BroadcastFrame(p, i + 1);
      assert s.queued[i] !in s.queued[i + 1..];
    }
  }

  // ---- the invariant of every run, whatever SetMax does ----

  ghost predicate InLine(s: State, t: Ticket) {
    t in s.active || t in s.queued
  }

  ghost predicate Live(s: State, t: Ticket) {
    t < s.next && t !in s.released
  }

  ghost predicate Rejected(s: State, t: Ticket) {
    t in s.published && s.published[t] == FULL
  }

  ghost predicate Inv(s: State) {
    && NoDup(s.active) && Increasing(s.queued)
    && (forall t :: t in s.active ==> t !in s.queued)
    && (forall t: Ticket :: t in s.published <==> t < s.next)
    && (forall t: Ticket :: InLine(s, t) <==> Live(s, t) && !Rejected(s, t))
    && (forall t :: t in s.active ==> t in s.published && s.published[t] == OK)
    && (forall t :: t in s.queued ==> t in s.published && !s.published[t].Final())
    && (forall t :: t in s.released ==> t < s.next)
    && (forall t :: t in s.published && s.published[t].Final() ==> s.published[t] == OK || s.published[t] == FULL)
  }
}
