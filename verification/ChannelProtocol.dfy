/** The status channels at single-step granularity.

The holder of `q.mu` runs one channel operation at a time: `trySend` is a drain step and a send step, and the
owners of the handles may receive between any two. Lists and limits are touched only under the mutex, so they
change at the step that owns them. Every reachable state is safe, and the whole system refines the atomic
operations of `QueueModel`. */
module ChannelProtocol {
  import opened QueueModel
  import opened QueueRuns
  import opened QueueLine

  datatype Slot = Empty | Holding(status: Status)
  datatype Chan = Chan(slot: Slot, closed: bool)

  /** What the mutex holder does next. */
  datatype Pc =
    | Idle
    | SendFirst(t: Ticket, status: Status)
    | CloseFirst(t: Ticket)
    | PopTest
    | PopDrain
    | PopSend
    | PopClose
    | PopMove
    | CastTest(i: nat)
    | CastDrain(i: nat)
    | CastSend(i: nat)

  /** `seen` is what each owner has received most recently. */
  datatype Sys = Sys(q: State, chans: map<Ticket, Chan>, seen: map<Ticket, Status>, pc: Pc)

  datatype Action =
    | BeginAcquire
    | BeginRelease(t: Ticket)
    | SetLimits(max: nat, maxQueued: int)
    | Holder
    | Receive(t: Ticket)

  function Start(max: nat, maxQueued: int): Sys {
    Sys(Init(max, maxQueued), map[], map[], Idle)
  }

  // ---- the steps ----

  predicate Popping(s: Sys) {
    s.pc.PopTest? || s.pc.PopDrain? || s.pc.PopSend? || s.pc.PopClose? || s.pc.PopMove?
  }

  /** The channel the holder is about to send on, if it is about to send. */
  predicate AtSend(s: Sys, t: Ticket) {
    match s.pc
    case SendFirst(u, _) => t == u
    case PopSend => s.q.queued != [] && t == s.q.queued[0]
    case CastSend(i) => i < |s.q.queued| && t == s.q.queued[i]
    case _ => false
  }

  predicate AtClose(s: Sys, t: Ticket) {
    match s.pc
    case CloseFirst(u) => t == u
    case PopClose => s.q.queued != [] && t == s.q.queued[0]
    case _ => false
  }

  /** A send on a closed channel, or a second close, panics. */
  ghost predicate Panics(s: Sys) {
    exists t :: t in s.chans && s.chans[t].closed && (AtSend(s, t) || AtClose(s, t))
  }

  /** A send on a full channel would block with the mutex held. */
  ghost predicate Blocks(s: Sys) {
    exists t :: t in s.chans && s.chans[t].slot.Holding? && AtSend(s, t)
  }

  /** The owner is still in its receive loop: it has not seen a final status and has not released. */
  predicate OwnerReads(s: Sys, t: Ticket) {
    && t in s.chans && t !in s.q.released
    && s.pc != CloseFirst(t) && !(s.pc.SendFirst? && s.pc.t == t)
    && (t in s.seen ==> !s.seen[t].Final())
  }

  /** Receiving now would yield the zero value of a closed, drained channel. */
  predicate ReadsZero(s: Sys, t: Ticket) {
    OwnerReads(s, t) && s.chans[t] == Chan(Empty, true)
  }

  predicate PcInRange(s: Sys) {
    match s.pc
    case SendFirst(t, _) => t in s.chans
    case CloseFirst(t) => t in s.chans
    case PopDrain | PopSend | PopClose | PopMove => s.q.queued != [] && s.q.queued[0] in s.chans && HasRoom(s.q)
    case CastTest(i) => i <= |s.q.queued|
    case CastDrain(i) => i < |s.q.queued| && s.q.queued[i] in s.chans
    case CastSend(i) => i < |s.q.queued| && s.q.queued[i] in s.chans
    case _ => true
  }

  ghost predicate Enabled(s: Sys, a: Action) {
    match a
    case BeginAcquire => s.pc.Idle?
    case BeginRelease(t) => s.pc.Idle? && t in s.chans && t !in s.q.released
    case SetLimits(_, _) => s.pc.Idle?
    case Holder => !s.pc.Idle? && PcInRange(s) && !Panics(s) && !Blocks(s)
    case Receive(t) => OwnerReads(s, t) && s.chans[t].slot.Holding?
  }

  function Drain(s: Sys, t: Ticket): Sys
    requires t in s.chans
  {
    s.(chans := s.chans[t := s.chans[t].(slot := Empty)])
  }

  function Send(s: Sys, t: Ticket, status: Status): Sys
    requires t in s.chans
  {
    s.(chans := s.chans[t := s.chans[t].(slot := Holding(status))], q := Publish(s.q, t, status))
  }

  function Close(s: Sys, t: Ticket): Sys
    requires t in s.chans
  {
    s.(chans := s.chans[t := s.chans[t].(closed := true)])
  }

  function HolderStep(s: Sys): Sys
    requires PcInRange(s)
  {
    match s.pc
    case Idle => s
    case SendFirst(t, status) => Send(s, t, status).(pc := if status.Final() then CloseFirst(t) else Idle)
    case CloseFirst(t) => Close(s, t).(pc := Idle)
    case PopTest => s.(pc := if s.q.queued != [] && HasRoom(s.q) then PopDrain else CastTest(0))
    case PopDrain => Drain(s, s.q.queued[0]).(pc := PopSend)
    case PopSend => Send(s, s.q.queued[0], OK).(pc := PopClose)
    case PopClose => Close(s, s.q.queued[0]).(pc := PopMove)
    case PopMove => s.(q := s.q.(active := s.q.active + [s.q.queued[0]], queued := s.q.queued[1..]), pc := PopTest)
    case CastTest(i) => s.(pc := if i < |s.q.queued| then CastDrain(i) else Idle)
    case CastDrain(i) => Drain(s, s.q.queued[i]).(pc := CastSend(i))
    case CastSend(i) => Send(s, s.q.queued[i], PlaceAt(s.q, i)).(pc := CastTest(i + 1))
  }

  function Next(s: Sys, a: Action): Sys
    requires a.Holder? ==> PcInRange(s)
    requires a.Receive? ==> a.t in s.chans && s.chans[a.t].slot.Holding?
  {
    match a
    case BeginAcquire =>
      s.(q := Enlist(s.q), chans := s.chans[s.q.next := Chan(Empty, false)], pc := SendFirst(s.q.next, FirstStatus(s.q)))
    case BeginRelease(t) =>
      s.(q := Remove(s.q, t), pc := if t in s.q.queued then CastTest(0) else PopTest)
    case SetLimits(m, mq) => s.(q := QueueModel.SetMax(s.q, m, mq))
    case Holder => HolderStep(s)
    case Receive(t) => Drain(s, t).(seen := s.seen[t := s.chans[t].slot.status])
  }

  // ---- the invariant ----

  /** The scheduler state with the step in progress rounded up to where `Inv` speaks about it. */
  function Core(s: Sys): State {
    match s.pc
    case SendFirst(t, status) => Publish(s.q, t, status)
    case PopClose | PopMove => if s.q.queued != [] then QueueModel.PopHead(s.q) else s.q
    case _ => s.q
  }

  /** Drained by the holder and not yet written again. */
  predicate Drained(s: Sys, t: Ticket) {
    !s.pc.SendFirst? && AtSend(s, t)
  }

  ghost predicate ChanOk(s: Sys, t: Ticket)
    requires t in s.chans
  {
    var c := s.chans[t];
    if s.pc.SendFirst? && s.pc.t == t then
      c == Chan(Empty, false) && t !in s.seen && t !in s.q.published
    else
      && t in s.q.published
      && (c.closed <==> s.q.published[t].Final() && !AtClose(s, t))
      && (if Drained(s, t) then c.slot == Empty
          else c.slot == Holding(s.q.published[t])
               || (c.slot == Empty && t in s.seen && s.seen[t] == s.q.published[t]))
  }

  ghost predicate Safe(s: Sys) {
    && PcInRange(s)
    && Inv(Core(s))
    && (forall t: Ticket :: t in s.chans <==> t < s.q.next)
    && (forall t: Ticket :: t in s.seen ==> t in s.chans)
    && (forall t: Ticket :: t in s.chans ==> ChanOk(s, t))
    && (s.pc.PopClose? || s.pc.PopMove? ==> s.q.queued[0] in s.q.published && s.q.published[s.q.queued[0]] == OK)
    && (s.pc.SendFirst? ==> s.pc.t !in s.q.published)
    && (s.pc.CloseFirst? ==> s.pc.t in s.q.published && s.q.published[s.pc.t].Final())
  }

  // ---- every step keeps it ----

  lemma SafeReceive(s: Sys, t: Ticket)
    requires Safe(s) && Enabled(s, Receive(t))
    ensures Safe(Next(s, Receive(t)))
  {
    hide Inv;
    var r := Next(s, Receive(t));
    assert ChanOk(s, t);
    forall u: Ticket | u in r.chans ensures ChanOk(r, u) {
      assert ChanOk(s, u);
    }
  }

  lemma SafeEnlist(s: Sys)
    requires Safe(s) && Enabled(s, BeginAcquire)
    ensures Safe(Next(s, BeginAcquire))
  {
    hide Inv;
    var r := Next(s, BeginAcquire);
    AcquireInv(s.q);
    NextIsFresh(s.q);
    forall u: Ticket | u in r.chans ensures ChanOk(r, u) {
      assert u in s.chans ==> ChanOk(s, u);
    }
  }

  lemma SafeBegin(s: Sys, a: Action)
    requires Safe(s) && Enabled(s, a) && (a.BeginRelease? || a.SetLimits?)
    ensures Safe(Next(s, a))
  {
    hide Inv;
    var r := Next(s, a);
    match a {
      case BeginRelease(t) => RemoveInv(s.q, t);
      case SetLimits(m, mq) => StepInv(s.q, SetMaxOp(m, mq));
    }
    forall u: Ticket | u in r.chans ensures ChanOk(r, u) {
      assert ChanOk(s, u);
    }
  }

  /** Re-announcing a place to a waiter keeps the scheduler's invariant. */
  lemma PublishPlaceInv(q: State, j: nat, status: Status)
    requires Inv(q) && j < |q.queued| && !status.Final()
    ensures Inv(Publish(q, q.queued[j], status))
  {
    var r, t := Publish(q, q.queued[j], status), q.queued[j];
    assert InLine(q, t);
    forall x: Ticket ensures InLine(r, x) <==> Live(r, x) && !Rejected(r, x) {
      assert InLine(q, x) <==> Live(q, x) && !Rejected(q, x);
    }
  }

  lemma SafePop(s: Sys)
    requires Safe(s) && !Panics(s) && (s.pc.PopDrain? || s.pc.PopSend? || s.pc.PopClose? || s.pc.PopMove?)
    ensures Safe(HolderStep(s))
  {
    hide Inv;
    var r, head := HolderStep(s), s.q.queued[0];
    if s.pc.PopSend? {
      PopHeadInv(s.q);
      assert Publish(s.q, head, OK).published[head := OK] == Publish(s.q, head, OK).published;
      assert Core(r) == PopHead(s.q);
    }
    if s.pc.PopClose? {
      assert Core(r) == Core(s);
    }
    if s.pc.PopMove? {
      assert s.q.published[head := OK] == s.q.published;
      assert Core(s) == r.q;
    }
    forall u: Ticket | u in r.chans ensures ChanOk(r, u) {
      assert ChanOk(s, u);
    }
  }

  lemma SafeAnnounce(s: Sys)
    requires Safe(s) && s.pc.CastSend?
    ensures Safe(HolderStep(s))
  {
    hide Inv;
    var r, i := HolderStep(s), s.pc.i;
    PublishPlaceInv(s.q, i, PlaceAt(s.q, i));
    WaiterOpen(s.q, i);
    forall j | i < j < |s.q.queued| ensures s.q.queued[j] != s.q.queued[i] {
      WaitersDistinct(s.q, i, j);
    }
    forall u: Ticket | u in r.chans ensures ChanOk(r, u) {
      assert ChanOk(s, u);
    }
  }

  lemma SafeCast(s: Sys)
    requires Safe(s) && (s.pc.CastTest? || s.pc.CastDrain? || s.pc.PopTest?)
    ensures Safe(HolderStep(s))
  {
    hide Inv;
    var r := HolderStep(s);
    if r.q.queued != [] && (r.pc.PopDrain? || r.pc.CastDrain?) {
      WaiterKnown(s.q, if r.pc.PopDrain? then 0 else r.pc.i);
    }
    forall u: Ticket | u in r.chans ensures ChanOk(r, u) {
      assert ChanOk(s, u);
    }
  }

  lemma WaiterKnown(q: State, j: nat)
    requires Inv(q) && j < |q.queued|
    ensures q.queued[j] < q.next && q.queued[j] !in q.released
  {
    assert InLine(q, q.queued[j]);
  }

  lemma SafeFirst(s: Sys)
    requires Safe(s) && (s.pc.SendFirst? || s.pc.CloseFirst?)
    ensures Safe(HolderStep(s))
  {
    hide Inv;
    var r := HolderStep(s);
    forall u: Ticket | u in r.chans ensures ChanOk(r, u) {
      assert ChanOk(s, u);
    }
  }

  /** In a safe state the holder neither panics nor blocks. */
  lemma SafeMeans(s: Sys)
    requires Safe(s)
    ensures !Panics(s) && !Blocks(s)
    ensures forall t :: !ReadsZero(s, t)
  {
    forall t: Ticket | t in s.chans
      ensures !(s.chans[t].closed && (AtSend(s, t) || AtClose(s, t)))
      ensures !(s.chans[t].slot.Holding? && AtSend(s, t))
      ensures !ReadsZero(s, t)
    {
      assert ChanOk(s, t);
      if Drained(s, t) { SendTargetOpen(s, t); }
    }
  }

  lemma SendTargetOpen(s: Sys, t: Ticket)
    requires Safe(s) && t in s.chans && Drained(s, t)
    ensures t in s.q.published && !s.q.published[t].Final()
  {
    match s.pc
    case PopSend => WaiterOpen(s.q, 0);
    case CastSend(i) => WaiterOpen(s.q, i);
  }

  lemma SafeStep(s: Sys, a: Action)
    requires Safe(s) && Enabled(s, a)
    ensures Safe(Next(s, a))
  {
    hide Inv;
    match a
    case Receive(t) => SafeReceive(s, t);
    case Holder =>
      if s.pc.SendFirst? || s.pc.CloseFirst? { SafeFirst(s); }
      else if s.pc.PopDrain? || s.pc.PopSend? || s.pc.PopClose? || s.pc.PopMove? { SafePop(s); }
      else if s.pc.CastSend? { SafeAnnounce(s); }
      else { SafeCast(s); }
    case BeginAcquire => SafeEnlist(s);
    case _ => SafeBegin(s, a);
  }

  // ---- the refinement: a locked operation takes effect when it begins ----

  /** The scheduler state once the holder has finished what it is doing. */
  function Outcome(s: Sys): State
    requires PcInRange(s)
  {
    match s.pc
    case Idle | CloseFirst(_) => s.q
    case SendFirst(t, status) => Publish(s.q, t, status)
    case PopTest | PopDrain | PopSend => BroadcastFrom(PopAll(s.q), 0)
    case PopClose | PopMove => BroadcastFrom(PopAll(PopHead(s.q)), 0)
    case CastTest(i) => BroadcastFrom(s.q, i)
    case CastDrain(i) => BroadcastFrom(s.q, i)
    case CastSend(i) => BroadcastFrom(s.q, i)
  }

  function OpOf(a: Action): seq<Op> {
    match a
    case BeginAcquire => [AcquireOp]
    case BeginRelease(t) => [ReleaseOp(t)]
    case SetLimits(m, mq) => [SetMaxOp(m, mq)]
    case _ => []
  }

  lemma OutcomeBegin(s: Sys, a: Action)
    requires Safe(s) && Enabled(s, a) && OpOf(a) != [] && Safe(Next(s, a))
    ensures Outcome(Next(s, a)) == Step(s.q, OpOf(a)[0]) && Allowed(s.q, OpOf(a)[0])
  {
    hide Inv, ChanOk;
  }

  lemma OutcomePop(s: Sys)
    requires Safe(s) && Popping(s) && Safe(HolderStep(s))
    ensures Outcome(HolderStep(s)) == Outcome(s)
  {
    hide Inv, ChanOk, BroadcastFrom;
    if s.pc.PopSend? || s.pc.PopMove? {
      var head := s.q.queued[0];
      assert s.q.published[head := OK][head := OK] == s.q.published[head := OK];
      if s.pc.PopMove? {
        assert s.q.published[head := OK] == s.q.published;
      }
    }
  }

  lemma OutcomeCast(s: Sys)
    requires Safe(s) && !s.pc.Idle? && !Popping(s) && Safe(HolderStep(s))
    ensures Outcome(HolderStep(s)) == Outcome(s)
  {
    hide Inv, ChanOk, PopAll;
  }

  /** Starting an operation performs it on the outcome; the holder's steps and receives leave it alone. */
  lemma OutcomeStep(s: Sys, a: Action)
    requires Safe(s) && Enabled(s, a) && Safe(Next(s, a))
    ensures Outcome(Next(s, a)) == Run(Outcome(s), OpOf(a)) && AllowedRun(Outcome(s), OpOf(a))
  {
    hide Inv, ChanOk, PopAll, BroadcastFrom, Step, Allowed;
    if OpOf(a) != [] {
      OutcomeBegin(s, a);
      assert OpOf(a)[1..] == [];
    } else if a.Holder? {
      if Popping(s) { OutcomePop(s); } else { OutcomeCast(s); }
    }
  }

  ghost predicate ValidTrace(s: Sys, acts: seq<Action>)
    decreases |acts|
  {
    acts == [] || (Enabled(s, acts[0]) && ValidTrace(Next(s, acts[0]), acts[1..]))
  }

  ghost function After(s: Sys, acts: seq<Action>): Sys
    requires ValidTrace(s, acts)
    decreases |acts|
  {
    if acts == [] then s else After(Next(s, acts[0]), acts[1..])
  }

  function OpsOf(acts: seq<Action>): seq<Op> {
    if acts == [] then [] else OpOf(acts[0]) + OpsOf(acts[1..])
  }

  lemma {:induction false} RunConcat(s: State, xs: seq<Op>, ys: seq<Op>)
    requires AllowedRun(s, xs) && AllowedRun(Run(s, xs), ys)
    ensures AllowedRun(s, xs + ys) && Run(s, xs + ys) == Run(Run(s, xs), ys)
    decreases |xs|
  {
    if xs == [] {
      assert xs + ys == ys;
    } else {
      assert (xs + ys)[1..] == xs[1..] + ys;
      RunConcat(Step(s, xs[0]), xs[1..], ys);
    }
  }

  lemma {:induction false} TraceKeeps(s: Sys, acts: seq<Action>)
    requires Safe(s) && ValidTrace(s, acts)
    ensures var r := After(s, acts);
      && Safe(r)
      && AllowedRun(Outcome(s), OpsOf(acts)) && Outcome(r) == Run(Outcome(s), OpsOf(acts))
    decreases |acts|
  {
    hide Inv;
    if acts != [] {
      var s' := Next(s, acts[0]);
      SafeStep(s, acts[0]);
      OutcomeStep(s, acts[0]);
      TraceKeeps(s', acts[1..]);
      RunConcat(Outcome(s), OpOf(acts[0]), OpsOf(acts[1..]));
    }
  }

  /** Over every interleaving of callers, the lock holder's single steps and receiving owners: no send or
      close hits a closed channel, no send blocks with the mutex held, no owner reads the zero value of a
      closed channel, and whenever the mutex is free the scheduler is where the atomic operations, in the
      order they took the mutex, put it. */
  lemma EveryInterleaving(max: nat, maxQueued: int, acts: seq<Action>)
    requires ValidTrace(Start(max, maxQueued), acts)
    ensures var s := After(Start(max, maxQueued), acts);
      && !Panics(s) && !Blocks(s) && (forall t :: !ReadsZero(s, t))
      && AllowedRun(Init(max, maxQueued), OpsOf(acts))
      && (s.pc.Idle? ==> s.q == Run(Init(max, maxQueued), OpsOf(acts)))
  {
    TraceKeeps(Start(max, maxQueued), acts);
    SafeMeans(After(Start(max, maxQueued), acts));
  }

  /** No wake-up is lost: in every reachable state, between any two steps of the lock holder, the newest status
      of every handle is in its channel or is what its owner saw last, unless the holder is about to write it;
      so an admitted handle whose owner has not seen Ok has Ok waiting for it. */
  lemma NoLostWakeUp(max: nat, maxQueued: int, acts: seq<Action>, t: Ticket)
    requires ValidTrace(Start(max, maxQueued), acts)
    requires var s := After(Start(max, maxQueued), acts); t in s.chans && !AtSend(s, t)
    ensures var s := After(Start(max, maxQueued), acts);
      && t in s.q.published
      && (s.chans[t].slot == Holding(s.q.published[t]) || (t in s.seen && s.seen[t] == s.q.published[t]))
      && (t in s.q.active && (t in s.seen ==> s.seen[t] != OK) ==> s.chans[t].slot == Holding(OK))
      && (OwnerReads(s, t) && t !in s.q.queued ==> s.chans[t].slot.Holding? && s.chans[t].slot.status.Final())
  {
    TraceKeeps(Start(max, maxQueued), acts);
    hide Safe, ValidTrace, After, AtSend, OwnerReads;
    NewestThere(After(Start(max, maxQueued), acts), t);
  }

  lemma NewestThere(s: Sys, t: Ticket)
    requires Safe(s) && t in s.chans && !AtSend(s, t)
    ensures t in s.q.published
    ensures s.chans[t].slot == Holding(s.q.published[t]) || (t in s.seen && s.seen[t] == s.q.published[t])
    ensures t in s.q.active && (t in s.seen ==> s.seen[t] != OK) ==> s.chans[t].slot == Holding(OK)
    ensures OwnerReads(s, t) && t !in s.q.queued ==> s.chans[t].slot.Holding? && s.chans[t].slot.status.Final()
  {
    assert ChanOk(s, t);
    InOneList(Core(s), t);
    ActiveTold(Core(s), t);
    hide Inv, ChanOk;
  }

  lemma ActiveTold(q: State, t: Ticket)
    requires Inv(q)
    ensures t in q.active ==> t in q.published && q.published[t] == OK
    ensures t in q.queued ==> t in q.published && !q.published[t].Final()
  {
  }

  // ---- what is received in the middle of an operation ----

  /** The rest of an operation does not take back a final status. */
  lemma PoppingKeeps(q: State, t: Ticket)
    requires Inv(q) && t in q.published && q.published[t].Final()
    ensures var r := BroadcastFrom(PopAll(q), 0); t in r.published && r.published[t] == q.published[t]
  {
    assert t !in q.queued;
    PopAllShape(q);
    BroadcastFrame(PopAll(q), 0);
  }

  lemma CastingKeeps(q: State, i: nat, t: Ticket)
    requires Inv(q) && i <= |q.queued| && t in q.published && q.published[t].Final()
    ensures var r := BroadcastFrom(q, i); t in r.published && r.published[t] == q.published[t]
  {
    assert t !in q.queued;
    BroadcastFrame(q, i);
  }

  lemma FinalKept(s: Sys, t: Ticket)
    requires Safe(s) && t in s.q.published && s.q.published[t].Final()
    ensures t in Outcome(s).published && Outcome(s).published[t] == s.q.published[t]
  {
    hide Inv, ChanOk, PopAll, BroadcastFrom;
    match s.pc
    case PopTest | PopDrain | PopSend => PoppingKeeps(s.q, t);
    case PopClose | PopMove =>
      assert Core(s) == PopHead(s.q);
      PoppingKeeps(PopHead(s.q), t);
    case CastTest(i) => CastingKeeps(s.q, i, t);
    case CastDrain(i) => CastingKeeps(s.q, i, t);
    case CastSend(i) => CastingKeeps(s.q, i, t);
    case _ =>
  }

  /** A final status that an owner receives, even in the middle of an operation, is the newest status its ticket
      has in the state that the atomic operations, in the order they took the mutex, lead to. So reading it is
      reading the published status of the atomic system, and reading a place changes nothing there. */
  lemma ReceivedIsPublished(max: nat, maxQueued: int, acts: seq<Action>, t: Ticket)
    requires ValidTrace(Start(max, maxQueued), acts) && Enabled(After(Start(max, maxQueued), acts), Receive(t))
    ensures var s := After(Start(max, maxQueued), acts);
      var status := s.chans[t].slot.status;
      && AllowedRun(Init(max, maxQueued), OpsOf(acts))
      && var r := Run(Init(max, maxQueued), OpsOf(acts));
      && t < r.next && t !in r.released
      && (status.Final() ==> t in r.published && r.published[t] == status)
  {
    TraceKeeps(Start(max, maxQueued), acts);
    var s := After(Start(max, maxQueued), acts);
    assert ChanOk(s, t);
    if s.chans[t].slot.status.Final() { FinalKept(s, t); }
    OutcomeFrame(s);
  }

  lemma OutcomeFrame(s: Sys)
    requires Safe(s)
    ensures Outcome(s).next == s.q.next && Outcome(s).released == s.q.released
  {
    hide Inv, ChanOk;
    match s.pc
    case PopTest | PopDrain | PopSend => SettleFrame(s.q);
    case PopClose | PopMove => SettleFrame(PopHead(s.q));
    case CastTest(i) => BroadcastFrame(s.q, i);
    case CastDrain(i) => BroadcastFrame(s.q, i);
    case CastSend(i) => BroadcastFrame(s.q, i);
    case _ =>
  }

  lemma {:induction false} SettleFrame(q: State)
    ensures var r := BroadcastFrom(PopAll(q), 0); r.next == q.next && r.released == q.released
    decreases |q.queued|
  {
    if q.queued != [] && HasRoom(q) {
      SettleFrame(PopHead(q));
    } else {
      BroadcastFrame(q, 0);
    }
  }

  // ---- every locked operation finishes ----

  /** Steps the holder still has to make before it unlocks, at most. */
  function Remaining(s: Sys): int {
    var n := |s.q.queued|;
    match s.pc
    case Idle => 0
    case CloseFirst(_) => 1
    case SendFirst(_, _) => 2
    case PopTest => 8 * n + 2
    case PopDrain => 8 * n + 1
    case PopSend => 8 * n
    case PopClose => 8 * n - 1
    case PopMove => 8 * n - 2
    case CastTest(i) => 3 * (n - i) + 1
    case CastDrain(i) => 3 * (n - i)
    case CastSend(i) => 3 * (n - i) - 1
  }

  lemma HolderProgress(s: Sys)
    requires Safe(s)
    ensures !s.pc.Idle? ==> Enabled(s, Holder) && 0 <= Remaining(HolderStep(s)) < Remaining(s)
    ensures Remaining(s) <= 8 * |s.q.queued| + 2
  {
    hide Inv, ChanOk;
    SafeMeans(s);
  }

  /** In every reachable state the holder can move, each move brings the unlock nearer, receives neither
      help nor delay it, and the way to the unlock is linear in the queue length. */
  lemma LockedStepsBounded(max: nat, maxQueued: int, acts: seq<Action>, t: Ticket)
    requires ValidTrace(Start(max, maxQueued), acts)
    ensures var s := After(Start(max, maxQueued), acts);
      && (!s.pc.Idle? ==> Enabled(s, Holder) && 0 <= Remaining(HolderStep(s)) < Remaining(s))
      && Remaining(s) <= 8 * |s.q.queued| + 2
      && (Enabled(s, Receive(t)) ==>
            Next(s, Receive(t)).pc == s.pc && Remaining(Next(s, Receive(t))) == Remaining(s))
  {
    TraceKeeps(Start(max, maxQueued), acts);
    HolderProgress(After(Start(max, maxQueued), acts));
  }

  // ---- what a waiting client is shown, with the limit fixed ----

  /** Limits may be set again, as every reload does, but to the same `max`. */
  predicate SameMax(max: nat, acts: seq<Action>) {
    forall i :: 0 <= i < |acts| ==> acts[i].SetLimits? ==> acts[i].max == max
  }

  /** The published position of the waiter at place `j` has not sunk below `j`, and its owner has not seen
      a smaller one. */
  ghost predicate ToldAt(s: Sys, j: nat)
    requires j < |s.q.queued|
  {
    var t := s.q.queued[j];
    t in s.q.published && !s.q.published[t].Final() ==>
      && j <= s.q.published[t].index
      && (t in s.seen ==> s.q.published[t].index <= s.seen[t].index)
  }

  ghost predicate Told(s: Sys) {
    && 0 < s.q.max && |s.q.active| <= s.q.max
    && (Popping(s) || s.q.queued == [] || |s.q.active| == s.q.max)
    && (forall j :: 0 <= j < |s.q.queued| ==> ToldAt(s, j))
    && (s.pc.SendFirst? && !s.pc.status.Final() ==>
          && s.q.queued != [] && s.q.queued[|s.q.queued| - 1] == s.pc.t
          && s.pc.status.index == |s.q.queued| - 1)
  }

  /** Dropping one waiter moves the others forward or leaves them. */
  lemma PlaceAfterDrop(xs: seq<Ticket>, t: Ticket, j: nat) returns (i: nat)
    requires Increasing(xs) && j < |Without(xs, t)|
    ensures j <= i < |xs| && xs[i] == Without(xs, t)[j]
  {
    if t in xs {
      var k :| 0 <= k < |xs| && xs[k] == t;
      WithoutAt(xs, k);
      i := if j < k then j else j + 1;
    } else {
      WithoutAbsent(xs, t);
      i := j;
    }
  }

  lemma ToldBegin(s: Sys, a: Action)
    requires Safe(s) && Told(s) && Enabled(s, a) && (a.BeginAcquire? || a.BeginRelease?)
    ensures Told(Next(s, a))
  {
    var r := Next(s, a);
    if a.BeginRelease? {
      WithoutKeeps(s.q.active, a.t);
      WithoutKeeps(s.q.queued, a.t);
      forall j | 0 <= j < |r.q.queued| ensures ToldAt(r, j) {
        if a.t in s.q.queued {
          var i := PlaceAfterDrop(s.q.queued, a.t, j);
          assert ToldAt(s, i);
        } else {
          assert ToldAt(s, j);
        }
      }
    } else {
      NextIsFresh(s.q);
      forall j | 0 <= j < |r.q.queued| ensures ToldAt(r, j) {
        if j < |s.q.queued| { assert ToldAt(s, j); }
      }
    }
  }

  lemma ToldHolder(s: Sys)
    requires Safe(s) && Told(s) && !s.pc.Idle?
    ensures Told(HolderStep(s))
  {
    hide Inv;
    var r := HolderStep(s);
    forall j | 0 <= j < |r.q.queued| ensures ToldAt(r, j) {
      var i := if s.pc.PopMove? then j + 1 else j;
      assert ToldAt(s, i);
      if s.pc.CastSend? {
        assert ToldAt(s, s.pc.i);
        if s.pc.i < j { WaitersDistinct(s.q, s.pc.i, j); }
        if j < s.pc.i { WaitersDistinct(s.q, j, s.pc.i); }
        WaiterOpen(s.q, s.pc.i);
      }
      if s.pc.SendFirst? {
        assert ChanOk(s, s.pc.t);
        if !s.pc.status.Final() && j < |s.q.queued| - 1 {
          CoreDistinct(s, j);
        }
      }
    }
  }

  /** A ticket being enlisted is not already in the queue. */
  lemma CoreDistinct(s: Sys, j: nat)
    requires Safe(s) && s.pc.SendFirst? && j < |s.q.queued| - 1
    ensures s.q.queued[j] != s.q.queued[|s.q.queued| - 1]
  {
    WaitersDistinct(Core(s), j, |s.q.queued| - 1);
  }

  /** What an owner that still reads finds in its channel: a final status, or its place in the queue. */
  lemma ReaderWaits(s: Sys, t: Ticket) returns (j: nat)
    requires Safe(s) && Enabled(s, Receive(t)) && !s.chans[t].slot.status.Final()
    ensures j < |s.q.queued| && s.q.queued[j] == t && t in s.q.published && s.q.published[t] == s.chans[t].slot.status
  {
    assert ChanOk(s, t);
    var c := Core(s);
    assert InLine(c, t) <==> Live(c, t) && !Rejected(c, t);
    assert t in s.q.queued;
    j :| 0 <= j < |s.q.queued| && s.q.queued[j] == t;
  }

  lemma ToldReceive(s: Sys, t: Ticket)
    requires Safe(s) && Told(s) && Enabled(s, Receive(t))
    ensures Told(Next(s, Receive(t)))
  {
    hide Inv;
    assert ChanOk(s, t);
    var r := Next(s, Receive(t));
    forall j | 0 <= j < |r.q.queued| ensures ToldAt(r, j) {
      assert ToldAt(s, j);
    }
  }

  lemma ToldSet(s: Sys, max: nat, maxQueued: int)
    requires Told(s) && s.pc.Idle? && max == s.q.max
    ensures Told(Next(s, SetLimits(max, maxQueued)))
  {
    var r := Next(s, SetLimits(max, maxQueued));
    forall j | 0 <= j < |r.q.queued| ensures ToldAt(r, j) {
      assert ToldAt(s, j);
    }
  }

  lemma MaxKept(s: Sys, a: Action)
    requires Enabled(s, a) && (a.SetLimits? ==> a.max == s.q.max)
    ensures Next(s, a).q.max == s.q.max
  {
  }

  lemma {:induction false} ToldTrace(s: Sys, acts: seq<Action>)
    requires Safe(s) && Told(s) && ValidTrace(s, acts) && SameMax(s.q.max, acts)
    ensures Safe(After(s, acts)) && Told(After(s, acts))
    decreases |acts|
  {
    hide Inv;
    if acts != [] {
      SafeStep(s, acts[0]);
      if acts[0].Receive? { ToldReceive(s, acts[0].t); }
      if acts[0].Holder? { ToldHolder(s); }
      if acts[0].SetLimits? { ToldSet(s, acts[0].max, acts[0].maxQueued); }
      MaxKept(s, acts[0]);
      if acts[0].BeginAcquire? || acts[0].BeginRelease? { ToldBegin(s, acts[0]); }
      ToldTrace(Next(s, acts[0]), acts[1..]);
    }
  }

  /** While every setting repeats the same limit, the positions a client receives never increase over its whole
      wait, however many published values are overwritten before it reads them, and none is negative. */
  lemma PositionsNeverIncrease(max: nat, maxQueued: int, acts: seq<Action>, t: Ticket)
    requires 0 < max && ValidTrace(Start(max, maxQueued), acts) && SameMax(max, acts)
    requires Enabled(After(Start(max, maxQueued), acts), Receive(t))
    ensures var s := After(Start(max, maxQueued), acts);
      var status := s.chans[t].slot.status;
      !status.Final() ==> 0 <= status.index && (t in s.seen ==> status.index <= s.seen[t].index)
  {
    ToldTrace(Start(max, maxQueued), acts);
    var s := After(Start(max, maxQueued), acts);
    if !s.chans[t].slot.status.Final() {
      var j := ReaderWaits(s, t);
      assert ToldAt(s, j);
    }
  }
}
