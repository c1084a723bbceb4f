/** Many relays and configuration reloads around the queues.

Each relay looks up its targets and its queue under separate read locks, acquires, waits, dials and leaves by
its deferred calls; a reload holds the write lock, re-limits the surviving queues one at a time and then swaps
the tables. Queue operations are the atomic ones of `QueueModel`, which `ChannelProtocol` refines. */
module RelaySystem {
  import opened QueueModel
  import opened QueueRuns
  import opened Routing
  import opened Sorting

  type QueueId = nat

  /** Where a relay stands. `Leaving` is after `upConn.Close` and before the deferred `Release`. */
  datatype Relay =
    | Arrived
    | Routed(target: Target)
    | Bound(target: Target, q: QueueId)
    | Waiting(target: Target, q: QueueId, t: Ticket)
    | Admitted(target: Target, q: QueueId, t: Ticket)
    | Open(target: Target, q: QueueId, t: Ticket)
    | Leaving(target: Target, q: QueueId, t: Ticket)
    | Gone
  {
    predicate Holds() { Waiting? || Admitted? || Open? || Leaving? }
  }

  datatype Reload = NoReload | Limiting(ups: seq<Upstream>, done: nat, built: map<string, QueueId>)

  /** `owner`, `ceiling` and `unlimited` are history: who acquired each ticket, the largest limit each queue
      ever had, and the queues that were ever given the limit 0. */
  datatype World = World(
    modules: map<string, seq<Target>>,
    table: map<string, QueueId>,
    queues: seq<State>,
    relays: seq<Relay>,
    reload: Reload,
    owner: map<(QueueId, Ticket), nat>,
    ceiling: seq<nat>,
    unlimited: set<QueueId>)

  const BOOT := World(map[], map[], [], [], NoReload, map[], [], {})

  datatype Action =
    | Arrive
    | LookUp(r: nat, m: string, ip: seq<Byte>)
    | FindQueue(r: nat)
    | TakeTicket(r: nat)
    | SeeStatus(r: nat)
    | GiveUp(r: nat)
    | Dial(r: nat)
    | CloseUp(r: nat)
    | FreeSlot(r: nat)
    | BeginReload(ups: seq<Upstream>)
    | Relimit
    | EndReload(modules: map<string, seq<Target>>)

  // ---- steps ----

  function Set(w: World, r: nat, relay: Relay): World
    requires r < |w.relays|
  {
    w.(relays := w.relays[r := relay])
  }

  ghost predicate Enabled(w: World, a: Action) {
    match a
    case Arrive => true
    case LookUp(r, m, ip) =>
      r < |w.relays| && w.relays[r].Arrived? && w.reload.NoReload?
      && (m in w.modules ==> DivisorOk(|w.modules[m]|))
    case FindQueue(r) => r < |w.relays| && w.relays[r].Routed? && w.reload.NoReload?
    case TakeTicket(r) => r < |w.relays| && w.relays[r].Bound? && w.relays[r].q < |w.queues|
    case SeeStatus(r) =>
      r < |w.relays| && w.relays[r].Waiting? && w.relays[r].q < |w.queues|
      && w.relays[r].t in w.queues[w.relays[r].q].published
    case GiveUp(r) => r < |w.relays| && (w.relays[r].Waiting? || w.relays[r].Admitted?)
    case Dial(r) => r < |w.relays| && w.relays[r].Admitted?
    case CloseUp(r) => r < |w.relays| && w.relays[r].Open?
    case FreeSlot(r) => r < |w.relays| && w.relays[r].Leaving? && w.relays[r].q < |w.queues|
    case BeginReload(ups) => w.reload.NoReload? && DistinctNames(ups)
    case Relimit =>
      w.reload.Limiting? && w.reload.done < |w.reload.ups|
      && (w.reload.ups[w.reload.done].name in w.table ==>
            w.table[w.reload.ups[w.reload.done].name] < |w.ceiling| == |w.queues|)
    case EndReload(modules) =>
      w.reload.Limiting? && w.reload.done == |w.reload.ups| && IsModuleTable(w.reload.ups, modules)
  }

  /** Indexing past the end of a target list would panic. */
  predicate LookUpPanics(w: World, m: string, ip: seq<Byte>) {
    m in w.modules && DivisorOk(|w.modules[m]|) && ChooseTarget(ip, |w.modules[m]|) >= |w.modules[m]|
  }

  function DoLookUp(w: World, r: nat, m: string, ip: seq<Byte>): World
    requires r < |w.relays| && (m in w.modules ==> DivisorOk(|w.modules[m]|))
  {
    if m !in w.modules || LookUpPanics(w, m, ip) then Set(w, r, Gone)
    else
      assert 0 <= ChooseTarget(ip, |w.modules[m]|);
      Set(w, r, Routed(w.modules[m][ChooseTarget(ip, |w.modules[m]|)]))
  }

  function DoTake(w: World, r: nat): World
    requires r < |w.relays| && w.relays[r].Bound? && w.relays[r].q < |w.queues|
  {
    var q := w.relays[r].q;
    var t := w.queues[q].next;
    Set(w, r, Waiting(w.relays[r].target, q, t)).(
      queues := w.queues[q := Acquire(w.queues[q])], owner := w.owner[(q, t) := r])
  }

  function DoSee(w: World, r: nat, status: Status): World
    requires r < |w.relays| && w.relays[r].Waiting?
  {
    var x := w.relays[r];
    if status.full then Set(w, r, Leaving(x.target, x.q, x.t))
    else if status.ok then Set(w, r, Admitted(x.target, x.q, x.t))
    else w
  }

  function DoFree(w: World, r: nat): World
    requires r < |w.relays| && w.relays[r].Leaving? && w.relays[r].q < |w.queues|
  {
    var x := w.relays[r];
    Set(w, r, Gone).(queues := w.queues[x.q := Release(w.queues[x.q], x.t)])
  }

  /** One turn of the loop of `updateUpstreamQueuesLocked`. */
  function DoRelimit(w: World): World
    requires w.reload.Limiting? && w.reload.done < |w.reload.ups|
    requires w.reload.ups[w.reload.done].name in w.table ==>
      w.table[w.reload.ups[w.reload.done].name] < |w.ceiling| == |w.queues|
  {
    var u := w.reload.ups[w.reload.done];
    var kept := u.name in w.table;
    var q := if kept then w.table[u.name] else |w.queues|;
    w.(
      queues := if kept then w.queues[q := QueueModel.SetMax(w.queues[q], u.maxActive, u.maxQueued)]
                else w.queues + [Init(u.maxActive, u.maxQueued)],
      ceiling := if kept then w.ceiling[q := if u.maxActive > w.ceiling[q] then u.maxActive else w.ceiling[q]]
                 else w.ceiling + [u.maxActive],
      unlimited := if u.maxActive == 0 then w.unlimited + {q} else w.unlimited,
      reload := Limiting(w.reload.ups, w.reload.done + 1, w.reload.built[u.name := q]))
  }

  function Next(w: World, a: Action): World
    requires Enabled(w, a)
  {
    match a
    case Arrive => w.(relays := w.relays + [Arrived])
    case LookUp(r, m, ip) => DoLookUp(w, r, m, ip)
    case FindQueue(r) =>
      var target := w.relays[r].target;
      Set(w, r, if target.upstream in w.table then Bound(target, w.table[target.upstream]) else Gone)
    case TakeTicket(r) => DoTake(w, r)
    case SeeStatus(r) => DoSee(w, r, w.queues[w.relays[r].q].published[w.relays[r].t])
    case GiveUp(r) => Set(w, r, Leaving(w.relays[r].target, w.relays[r].q, w.relays[r].t))
    case Dial(r) => Set(w, r, Open(w.relays[r].target, w.relays[r].q, w.relays[r].t))
    case CloseUp(r) => Set(w, r, Leaving(w.relays[r].target, w.relays[r].q, w.relays[r].t))
    case FreeSlot(r) => DoFree(w, r)
    case BeginReload(ups) => w.(reload := Limiting(ups, 0, map[]))
    case Relimit => DoRelimit(w)
    case EndReload(modules) => w.(table := w.reload.built, modules := modules, reload := NoReload)
  }

  ghost predicate ValidTrace(w: World, acts: seq<Action>)
    decreases |acts|
  {
    acts == [] || (Enabled(w, acts[0]) && ValidTrace(Next(w, acts[0]), acts[1..]))
  }

  ghost function After(w: World, acts: seq<Action>): World
    requires ValidTrace(w, acts)
    decreases |acts|
  {
    if acts == [] then w else After(Next(w, acts[0]), acts[1..])
  }

  // ---- the invariant ----

  /** A queue object stays within the largest limit it was ever given, unless it was ever unlimited. */
  ghost predicate QueueOk(w: World, q: QueueId)
    requires q < |w.queues| == |w.ceiling|
  {
    && Inv(w.queues[q])
    && w.queues[q].max <= w.ceiling[q]
    && (w.queues[q].max == 0 ==> q in w.unlimited)
    && (q in w.unlimited || |w.queues[q].active| <= w.ceiling[q])
  }

  /** A relay holds only a ticket it acquired and has not given back; past the wait it was admitted. */
  ghost predicate RelayOk(w: World, r: nat)
    requires r < |w.relays|
  {
    var x := w.relays[r];
    && (x.Bound? ==> x.q < |w.queues|)
    && (x.Holds() ==>
          && x.q < |w.queues| && x.t < w.queues[x.q].next && x.t !in w.queues[x.q].released
          && (x.q, x.t) in w.owner && w.owner[(x.q, x.t)] == r)
    && (x.Admitted? || x.Open? ==> x.t in w.queues[x.q].published && w.queues[x.q].published[x.t] == OK)
  }

  /** Every ticket a queue has not got back is held by the relay that took it. */
  ghost predicate TicketOk(w: World, q: QueueId, t: Ticket)
    requires q < |w.queues|
  {
    t < w.queues[q].next && t !in w.queues[q].released ==>
      && (q, t) in w.owner && w.owner[(q, t)] < |w.relays|
      && w.relays[w.owner[(q, t)]].Holds()
      && w.relays[w.owner[(q, t)]].q == q && w.relays[w.owner[(q, t)]].t == t
  }

  ghost predicate TablesOk(w: World) {
    && (forall name :: name in w.table ==> w.table[name] < |w.queues|)
    && (forall m :: m in w.modules ==> w.modules[m] != [])
    && (forall m, k :: m in w.modules && 0 <= k < |w.modules[m]| ==> w.modules[m][k].upstream in w.table)
    && (w.reload.Limiting? ==>
          && w.reload.done <= |w.reload.ups| && DistinctNames(w.reload.ups)
          && (forall i :: 0 <= i < w.reload.done ==> w.reload.ups[i].name in w.reload.built)
          && (forall name :: name in w.reload.built ==> Lists(w.reload.ups, name))
          && (forall name :: name in w.reload.built ==>
                w.reload.built[name] < |w.queues| && (name in w.table ==> w.reload.built[name] == w.table[name])))
  }

  ghost predicate WorldOk(w: World) {
    && |w.queues| == |w.ceiling|
    && (forall q :: 0 <= q < |w.queues| ==> QueueOk(w, q))
    && (forall r :: 0 <= r < |w.relays| ==> RelayOk(w, r))
    && (forall q, t: Ticket :: 0 <= q < |w.queues| ==> TicketOk(w, q, t))
    && TablesOk(w)
  }

  // ---- what one queue operation does to other tickets ----

  lemma AcquireEffect(s: State)
    requires Inv(s)
    ensures var r := Acquire(s);
      && Inv(r) && r.max == s.max && r.next == s.next + 1 && r.released == s.released
      && s.next !in s.released && s.next in r.published && r.published[s.next] == FirstStatus(s)
      && (forall x :: x in s.published ==> x != s.next && x in r.published && r.published[x] == s.published[x])
      && (|r.active| > |s.active| ==> r.max == 0 || |r.active| <= r.max)
  {
    AcquireInv(s);
  }

  lemma ReleaseEffect(s: State, t: Ticket)
    requires Inv(s) && Live(s, t)
    ensures var r := Release(s, t);
      && Inv(r) && r.max == s.max && r.next == s.next && r.released == s.released + {t}
      && (forall x :: x in s.published && s.published[x] == OK ==> x in r.published && r.published[x] == OK)
      && (|r.active| > |s.active| ==> r.max == 0 || |r.active| <= r.max)
  {
    ReleaseInv(s, t);
    ReleaseShape(s, t);
    if |Release(s, t).active| > |s.active| { GrowthCapped(s, ReleaseOp(t)); }
    forall x | x in s.published && s.published[x] == OK
      ensures x in Release(s, t).published && Release(s, t).published[x] == OK
    {
      FinalStays(s, t, x);
    }
  }

  lemma FinalNotQueued(s: State, x: Ticket)
    requires Inv(s) && x in s.published && s.published[x].Final()
    ensures x !in s.queued && NoDup(s.queued)
  {
  }

  /** Popping and announcing leave alone whatever is not in the queue. */
  lemma SettleLeaves(m: State, early: bool, x: Ticket)
    requires NoDup(m.queued) && x in m.published && x !in m.queued
    ensures x in Settle(m, early).published && Settle(m, early).published[x] == m.published[x]
  {
    if early {
      BroadcastFrame(m, 0);
    } else {
      PopAllShape(m);
      BroadcastFrame(PopAll(m), 0);
    }
  }

  lemma FinalStays(s: State, t: Ticket, x: Ticket)
    requires Inv(s) && Live(s, t) && x in s.published && s.published[x].Final()
    ensures x in Release(s, t).published && Release(s, t).published[x] == s.published[x]
  {
    hide Inv, Settle;
    RemoveInv(s, t);
    FinalNotQueued(Remove(s, t), x);
    SettleLeaves(Remove(s, t), t in s.queued, x);
  }

  // ---- every step keeps the invariant ----

  /** Steps that move one relay between phases without touching any queue. */
  lemma QuietStep(w: World, r: nat, x: Relay)
    requires WorldOk(w) && r < |w.relays| && RelayOk(Set(w, r, x), r)
    requires w.relays[r].Holds() ==> x.Holds() && x.q == w.relays[r].q && x.t == w.relays[r].t
    ensures WorldOk(Set(w, r, x))
  {
    hide Inv;
    var v := Set(w, r, x);
    forall i | 0 <= i < |v.relays| ensures RelayOk(v, i) {
      assert RelayOk(w, i);
    }
    forall q, t: Ticket | 0 <= q < |v.queues| ensures TicketOk(v, q, t) {
      assert TicketOk(w, q, t);
    }
    forall q | 0 <= q < |v.queues| ensures QueueOk(v, q) {
      assert QueueOk(w, q);
    }
  }

  lemma ArriveStep(w: World)
    requires WorldOk(w)
    ensures WorldOk(Next(w, Arrive))
  {
    hide Inv;
    var v := Next(w, Arrive);
    forall i | 0 <= i < |v.relays| ensures RelayOk(v, i) {
      if i < |w.relays| { assert RelayOk(w, i); }
    }
    forall q, t: Ticket | 0 <= q < |v.queues| ensures TicketOk(v, q, t) {
      assert TicketOk(w, q, t);
    }
    forall q | 0 <= q < |v.queues| ensures QueueOk(v, q) {
      assert QueueOk(w, q);
    }
  }

  lemma TakeTickets(w: World, r: nat)
    requires WorldOk(w) && Enabled(w, TakeTicket(r))
    ensures forall i, t: Ticket :: 0 <= i < |w.queues| ==> TicketOk(DoTake(w, r), i, t)
  {
    hide Inv, QueueOk, RelayOk, TablesOk;
    var v, q := DoTake(w, r), w.relays[r].q;
    forall i, t: Ticket | 0 <= i < |w.queues| ensures TicketOk(v, i, t) {
      assert TicketOk(w, i, t);
    }
  }

  lemma TakeStep(w: World, r: nat)
    requires WorldOk(w) && Enabled(w, TakeTicket(r))
    ensures WorldOk(DoTake(w, r))
  {
    TakeTickets(w, r);
    hide Inv, TicketOk;
    var v, q := DoTake(w, r), w.relays[r].q;
    assert QueueOk(w, q);
    AcquireEffect(w.queues[q]);
    hide Acquire;
    forall i | 0 <= i < |v.queues| ensures QueueOk(v, i) {
      assert QueueOk(w, i);
    }
    hide QueueOk;
    forall i | 0 <= i < |v.relays| ensures RelayOk(v, i) {
      assert RelayOk(w, i);
    }
    hide RelayOk;
  }

  lemma FreeStep(w: World, r: nat)
    requires WorldOk(w) && Enabled(w, FreeSlot(r))
    ensures WorldOk(DoFree(w, r))
  {
    hide Inv;
    var v, q := DoFree(w, r), w.relays[r].q;
    assert QueueOk(w, q) && RelayOk(w, r);
    ReleaseEffect(w.queues[q], w.relays[r].t);
    hide Release;
    forall i | 0 <= i < |v.queues| ensures QueueOk(v, i) {
      assert QueueOk(w, i);
    }
    hide QueueOk;
    forall i | 0 <= i < |v.relays| ensures RelayOk(v, i) {
      assert RelayOk(w, i);
    }
    hide RelayOk;
    forall i, t: Ticket | 0 <= i < |v.queues| ensures TicketOk(v, i, t) {
      assert TicketOk(w, i, t);
    }
  }

  lemma RelimitedQueues(w: World)
    requires WorldOk(w) && Enabled(w, Relimit)
    ensures var v := DoRelimit(w);
      |v.queues| == |v.ceiling| && forall i :: 0 <= i < |v.queues| ==> QueueOk(v, i)
  {
    hide Inv, RelayOk, TicketOk, TablesOk, QueueModel.SetMax;
    var v, u := DoRelimit(w), w.reload.ups[w.reload.done];
    if u.name in w.table {
      var q := w.table[u.name];
      assert QueueOk(w, q);
      StepInvSetMax(w.queues[q], u.maxActive, u.maxQueued);
    }
    InitInv(u.maxActive, u.maxQueued);
    forall i | 0 <= i < |v.queues| ensures QueueOk(v, i) {
      assert i < |w.queues| ==> QueueOk(w, i);
    }
  }

  lemma RelimitStep(w: World)
    requires WorldOk(w) && Enabled(w, Relimit)
    ensures WorldOk(DoRelimit(w))
  {
    hide Inv, QueueOk;
    var v := DoRelimit(w);
    RelimitedQueues(w);
    forall i | 0 <= i < |v.relays| ensures RelayOk(v, i) {
      assert RelayOk(w, i);
    }
    hide RelayOk;
    forall i, t: Ticket | 0 <= i < |v.queues| ensures TicketOk(v, i, t) {
      if i < |w.queues| { assert TicketOk(w, i, t); }
    }
  }

  lemma InitInv(max: nat, maxQueued: int)
    ensures Inv(Init(max, maxQueued)) && Init(max, maxQueued).max == max && Init(max, maxQueued).active == []
  {
  }

  lemma StepInvSetMax(s: State, max: nat, maxQueued: int)
    requires Inv(s)
    ensures var r := QueueModel.SetMax(s, max, maxQueued); Inv(r) && r.max == max && r.active == s.active
  {
    StepInv(s, SetMaxOp(max, maxQueued));
  }

  lemma TableStep(w: World, a: Action)
    requires WorldOk(w) && Enabled(w, a) && (a.BeginReload? || a.EndReload?)
    ensures WorldOk(Next(w, a))
  {
    hide Inv;
    var v := Next(w, a);
    forall i | 0 <= i < |v.queues| ensures QueueOk(v, i) {
      assert QueueOk(w, i);
    }
    forall i | 0 <= i < |v.relays| ensures RelayOk(v, i) {
      assert RelayOk(w, i);
    }
    forall i, t: Ticket | 0 <= i < |v.queues| ensures TicketOk(v, i, t) {
      assert TicketOk(w, i, t);
    }
    if a.EndReload? { SwappedTables(w, a.modules); }
  }

  lemma SwappedTables(w: World, modules: map<string, seq<Target>>)
    requires TablesOk(w) && Enabled(w, EndReload(modules))
    ensures TablesOk(Next(w, EndReload(modules)))
  {
    var ups := w.reload.ups;
    forall m | m in modules
      ensures modules[m] != []
      ensures forall k :: 0 <= k < |modules[m]| ==> modules[m][k].upstream in w.reload.built
    {
      TableListsNonEmpty(ups, modules, m);
      forall k | 0 <= k < |modules[m]| ensures modules[m][k].upstream in w.reload.built {
        var i :| 0 <= i < |ups| && ups[i].target == modules[m][k] && m in ups[i].modules;
        assert ups[i].name in w.reload.built;
      }
    }
  }

  /** Steps of a relay that leave the queues alone. */
  predicate Quiet(a: Action) {
    a.LookUp? || a.FindQueue? || a.SeeStatus? || a.GiveUp? || a.Dial? || a.CloseUp?
  }

  lemma SeeStep(w: World, r: nat)
    requires WorldOk(w) && Enabled(w, SeeStatus(r))
    ensures WorldOk(Next(w, SeeStatus(r)))
  {
    var x := w.relays[r];
    assert RelayOk(w, r) && QueueOk(w, x.q);
    StatusKinds(w.queues[x.q], x.t);
    hide Inv, WorldOk;
    if w.queues[x.q].published[x.t].full { QuietStep(w, r, Leaving(x.target, x.q, x.t)); }
    else if w.queues[x.q].published[x.t].ok { QuietStep(w, r, Admitted(x.target, x.q, x.t)); }
  }

  lemma RelayStep(w: World, a: Action)
    requires WorldOk(w) && Enabled(w, a) && Quiet(a)
    ensures WorldOk(Next(w, a))
  {
    hide Inv, QueueOk, TicketOk;
    var x := w.relays[a.r];
    assert RelayOk(w, a.r);
    match a {
      case LookUp(r, m, ip) =>
        if m !in w.modules || LookUpPanics(w, m, ip) {
          QuietStep(w, r, Gone);
        } else {
          QuietStep(w, r, Routed(w.modules[m][ChooseTarget(ip, |w.modules[m]|)]));
        }
      case FindQueue(r) =>
        QuietStep(w, r, if x.target.upstream in w.table then Bound(x.target, w.table[x.target.upstream]) else Gone);
      case SeeStatus(r) => SeeStep(w, r);
      case GiveUp(r) => QuietStep(w, r, Leaving(x.target, x.q, x.t));
      case Dial(r) => QuietStep(w, r, Open(x.target, x.q, x.t));
      case CloseUp(r) => QuietStep(w, r, Leaving(x.target, x.q, x.t));
    }
  }

  lemma WorldStep(w: World, a: Action)
    requires WorldOk(w) && Enabled(w, a)
    ensures WorldOk(Next(w, a))
  {
    hide WorldOk;
    if Quiet(a) {
      RelayStep(w, a);
    } else {
      match a {
        case Arrive => ArriveStep(w);
        case TakeTicket(r) => TakeStep(w, r);
        case FreeSlot(r) => FreeStep(w, r);
        case Relimit => RelimitStep(w);
        case _ => TableStep(w, a);
      }
    }
  }

  lemma StatusKinds(s: State, t: Ticket)
    requires Inv(s) && t in s.published
    ensures s.published[t].Final() ==> s.published[t] == OK || s.published[t] == FULL
  {
  }

  lemma {:induction false} TraceKeeps(w: World, acts: seq<Action>)
    requires WorldOk(w) && ValidTrace(w, acts)
    ensures WorldOk(After(w, acts))
    decreases |acts|
  {
    hide Inv;
    if acts != [] {
      WorldStep(w, acts[0]);
      TraceKeeps(Next(w, acts[0]), acts[1..]);
    }
  }

  // ---- the theorems ----

  /** Relays with an open upstream connection that they opened through queue object `q`. */
  ghost function OpenOn(w: World, q: QueueId): set<nat> {
    set r: nat | r < |w.relays| && w.relays[r].Open? && w.relays[r].q == q
  }

  /** An open relay's ticket is in its queue's `active` list, and nobody else's relay holds it. */
  lemma OpenOwnsSlot(w: World, r: nat)
    requires WorldOk(w) && r < |w.relays| && w.relays[r].Open?
    ensures w.relays[r].q < |w.queues| && w.relays[r].t in w.queues[w.relays[r].q].active
    ensures forall i :: 0 <= i < |w.relays| && i != r && w.relays[i].Holds() ==>
              (w.relays[i].q, w.relays[i].t) != (w.relays[r].q, w.relays[r].t)
  {
    assert RelayOk(w, r);
    var s, t := w.queues[w.relays[r].q], w.relays[r].t;
    assert QueueOk(w, w.relays[r].q);
    assert InLine(s, t) <==> Live(s, t) && !Rejected(s, t);
    forall i | 0 <= i < |w.relays| && i != r && w.relays[i].Holds()
      ensures (w.relays[i].q, w.relays[i].t) != (w.relays[r].q, w.relays[r].t)
    {
      assert RelayOk(w, i);
    }
  }

  /** A set of relays with pairwise distinct tickets from `tickets` is no larger than `tickets`. */
  lemma {:induction false} FewerThanTickets(w: World, rs: set<nat>, tickets: set<Ticket>)
    requires forall r :: r in rs ==> r < |w.relays| && w.relays[r].Open? && w.relays[r].t in tickets
    requires forall i, j :: i in rs && j in rs && i != j ==> w.relays[i].t != w.relays[j].t
    ensures |rs| <= |tickets|
    decreases |rs|
  {
    if rs != {} {
      var r := Pick(rs);
      FewerThanTickets(w, rs - {r}, tickets - {w.relays[r].t});
    }
  }

  ghost function Elements(xs: seq<Ticket>): (s: set<Ticket>)
    ensures |s| <= |xs| && forall t :: t in s <==> t in xs
  {
    if xs == [] then {} else Elements(xs[1..]) + {xs[0]}
  }

  lemma OpenBounded(w: World, q: QueueId)
    requires WorldOk(w) && q < |w.queues|
    ensures |OpenOn(w, q)| <= |w.queues[q].active|
    ensures q !in w.unlimited ==> |OpenOn(w, q)| <= w.ceiling[q]
  {
    var tickets := Elements(w.queues[q].active);
    forall r | r in OpenOn(w, q)
      ensures w.relays[r].t in tickets
      ensures forall i :: i in OpenOn(w, q) && i != r ==> w.relays[i].t != w.relays[r].t
    {
      OpenOwnsSlot(w, r);
    }
    FewerThanTickets(w, OpenOn(w, q), tickets);
    assert QueueOk(w, q);
  }

  /** Over every interleaving of relays and reloads: each relay with an open upstream connection owns its
      own entry of the `active` list of one queue object, so the connections open through a queue never
      outnumber its `active` entries nor, unless its limit was ever 0, the largest limit it was given. */
  lemma OpenConnectionsBounded(acts: seq<Action>, q: QueueId)
    requires ValidTrace(BOOT, acts) && q < |After(BOOT, acts).queues|
    ensures var w := After(BOOT, acts);
      && |w.ceiling| == |w.queues|
      && |OpenOn(w, q)| <= |w.queues[q].active|
      && (q !in w.unlimited ==> |OpenOn(w, q)| <= w.ceiling[q])
      && (forall r :: r in OpenOn(w, q) ==> w.relays[r].t in w.queues[q].active)
      && (forall r, i :: r in OpenOn(w, q) && 0 <= i < |w.relays| && i != r && w.relays[i].Holds() ==>
            (w.relays[i].q, w.relays[i].t) != (q, w.relays[r].t))
  {
    TraceKeeps(BOOT, acts);
    var w := After(BOOT, acts);
    OpenBounded(w, q);
    forall r | r in OpenOn(w, q)
      ensures w.relays[r].t in w.queues[q].active
      ensures forall i :: 0 <= i < |w.relays| && i != r && w.relays[i].Holds() ==>
            (w.relays[i].q, w.relays[i].t) != (q, w.relays[r].t)
    {
      OpenOwnsSlot(w, r);
    }
  }

  /** Slots are conserved: every ticket a queue has out is held by exactly the relay that took it, so when
      all relays have gone every queue is empty again, whatever path each of them left by. */
  lemma SlotsConserved(acts: seq<Action>, q: QueueId)
    requires ValidTrace(BOOT, acts) && q < |After(BOOT, acts).queues|
    ensures var w := After(BOOT, acts); var s := w.queues[q];
      && (forall t: Ticket :: t in s.active || t in s.queued ==>
            (q, t) in w.owner && w.owner[(q, t)] < |w.relays| && w.relays[w.owner[(q, t)]].Holds()
            && w.relays[w.owner[(q, t)]].q == q && w.relays[w.owner[(q, t)]].t == t)
      && ((forall r :: 0 <= r < |w.relays| ==> !w.relays[r].Holds()) ==> s.active == [] && s.queued == [])
  {
    TraceKeeps(BOOT, acts);
    var w := After(BOOT, acts);
    var s := w.queues[q];
    assert QueueOk(w, q);
    forall t: Ticket | t in s.active || t in s.queued
      ensures (q, t) in w.owner && w.owner[(q, t)] < |w.relays| && w.relays[w.owner[(q, t)]].Holds()
      ensures w.relays[w.owner[(q, t)]].q == q && w.relays[w.owner[(q, t)]].t == t
    {
      assert InLine(s, t);
      assert TicketOk(w, q, t);
    }
    if s.active != [] { assert s.active[0] in s.active; }
    if s.queued != [] { assert s.queued[0] in s.queued; }
  }

  /** A ticket is given back once: `FreeSlot` finds it unreleased, releases it, and its relay is gone. */
  lemma GivenBackOnce(acts: seq<Action>, r: nat)
    requires ValidTrace(BOOT, acts) && Enabled(After(BOOT, acts), FreeSlot(r))
    ensures var w := After(BOOT, acts); var v := Next(w, FreeSlot(r)); var x := w.relays[r];
      x.t !in w.queues[x.q].released && x.t in v.queues[x.q].released && v.relays[r] == Gone
  {
    TraceKeeps(BOOT, acts);
    var w := After(BOOT, acts);
    assert RelayOk(w, r) && QueueOk(w, w.relays[r].q);
    ReleaseInv(w.queues[w.relays[r].q], w.relays[r].t);
  }

  /** The steps by which a relay that has a ticket leaves, from wherever it stands. */
  function ExitSteps(x: Relay, r: nat): seq<Action> {
    match x
    case Waiting(_, _, _) => [GiveUp(r)] + ([FreeSlot(r)] + [])
    case Admitted(_, _, _) => [GiveUp(r)] + ([FreeSlot(r)] + [])
    case Open(_, _, _) => [CloseUp(r)] + ([FreeSlot(r)] + [])
    case Leaving(_, _, _) => [FreeSlot(r)] + []
    case _ => []
  }

  /** No exit path gets stuck: in every reachable state, even in the middle of a reload, a relay that has a ticket
      can leave by its own next steps, which give the ticket back. */
  lemma EveryExitGivesBack(acts: seq<Action>, r: nat)
    requires ValidTrace(BOOT, acts) && r < |After(BOOT, acts).relays| && After(BOOT, acts).relays[r].Holds()
    ensures var w := After(BOOT, acts); var x := w.relays[r]; var out := ExitSteps(x, r);
      && ValidTrace(w, out)
      && var v := After(w, out);
      && v.relays == w.relays[r := Gone] && x.q < |w.queues|
      && v.queues == w.queues[x.q := Step(w.queues[x.q], ReleaseOp(x.t))]
      && x.t !in w.queues[x.q].released && x.t in v.queues[x.q].released
  {
    TraceKeeps(BOOT, acts);
    hide ValidTrace, After, ExitSteps;
    ExitFrom(After(BOOT, acts), r);
  }

  lemma ExitFrom(w: World, r: nat)
    requires WorldOk(w) && r < |w.relays| && w.relays[r].Holds()
    ensures var x := w.relays[r]; var out := ExitSteps(x, r);
      && ValidTrace(w, out)
      && var v := After(w, out);
      && v.relays == w.relays[r := Gone] && x.q < |w.queues|
      && v.queues == w.queues[x.q := Step(w.queues[x.q], ReleaseOp(x.t))]
      && x.t !in w.queues[x.q].released && x.t in v.queues[x.q].released
  {
    var x := w.relays[r];
    HolderHasTicket(w, r);
    hide Inv, WorldOk, Release, ValidTrace, After;
    if x.Leaving? {
      LeaveNow(w, r);
    } else {
      var first := if x.Open? then CloseUp(r) else GiveUp(r);
      var v := Set(w, r, Leaving(x.target, x.q, x.t));
      assert Next(w, first) == v;
      LeaveNow(v, r);
      OneStep(w, first, [FreeSlot(r)] + []);
      assert v.relays[r := Gone] == w.relays[r := Gone];
    }
    TicketBack(w.queues[x.q], x.t);
  }

  lemma TicketBack(s: State, t: Ticket)
    requires Inv(s) && Live(s, t)
    ensures t !in s.released && t in Step(s, ReleaseOp(t)).released
  {
    ReleaseInv(s, t);
  }

  lemma HolderHasTicket(w: World, r: nat)
    requires WorldOk(w) && r < |w.relays| && w.relays[r].Holds()
    ensures var x := w.relays[r]; x.q < |w.queues| && Inv(w.queues[x.q]) && Live(w.queues[x.q], x.t)
  {
    hide Inv;
    assert RelayOk(w, r);
    assert QueueOk(w, w.relays[r].q);
  }

  lemma LeaveNow(w: World, r: nat)
    requires r < |w.relays| && w.relays[r].Leaving? && w.relays[r].q < |w.queues|
    requires Inv(w.queues[w.relays[r].q]) && Live(w.queues[w.relays[r].q], w.relays[r].t)
    ensures var x := w.relays[r]; var out := [FreeSlot(r)] + [];
      && ValidTrace(w, out)
      && var v := After(w, out);
      && v.relays == w.relays[r := Gone] && v.queues == w.queues[x.q := Step(w.queues[x.q], ReleaseOp(x.t))]
      && x.t in v.queues[x.q].released
  {
    ReleaseInv(w.queues[w.relays[r].q], w.relays[r].t);
    hide Inv, Release;
    OneStep(w, FreeSlot(r), []);
  }

  // ---- how a relay gets on ----

  /** A client that asks for a known module while no reload is under way gets to wait in the queue that the table has for
      the upstream its address is hashed to, by its own next steps; nobody else is touched, and the queue sees one
      `Acquire`. A client that asks for an unknown module is gone at once. */
  lemma RequestGetsInLine(acts: seq<Action>, r: nat, m: string, ip: seq<Byte>)
    requires ValidTrace(BOOT, acts)
    requires var w := After(BOOT, acts);
      && r < |w.relays| && w.relays[r].Arrived? && w.reload.NoReload?
      && (m in w.modules ==> DivisorOk(|w.modules[m]|))
    ensures var w := After(BOOT, acts);
      if m in w.modules then
        && 0 <= ChooseTarget(ip, |w.modules[m]|) < |w.modules[m]|
        && var target := w.modules[m][ChooseTarget(ip, |w.modules[m]|)];
        && target.upstream in w.table && w.table[target.upstream] < |w.queues|
        && var q := w.table[target.upstream];
        && var more := [LookUp(r, m, ip)] + ([FindQueue(r)] + ([TakeTicket(r)] + []));
        && ValidTrace(w, more)
        && var v := After(w, more);
        && v.relays == w.relays[r := Waiting(target, q, w.queues[q].next)]
        && v.queues == w.queues[q := Step(w.queues[q], AcquireOp)]
        && v.table == w.table && v.modules == w.modules
      else
        && ValidTrace(w, [LookUp(r, m, ip)] + [])
        && After(w, [LookUp(r, m, ip)] + []) == w.(relays := w.relays[r := Gone])
  {
    TraceKeeps(BOOT, acts);
    var w := After(BOOT, acts);
    if m in w.modules {
      RoutesTo(w, m, ip);
      var target := w.modules[m][ChooseTarget(ip, |w.modules[m]|)];
      hide WorldOk, ChooseTarget, Acquire, ValidTrace, After, DivisorOk;
      GetsInLine(w, r, m, ip, target);
    } else {
      OneStep(w, LookUp(r, m, ip), []);
    }
  }

  lemma RoutesTo(w: World, m: string, ip: seq<Byte>)
    requires WorldOk(w) && m in w.modules && DivisorOk(|w.modules[m]|)
    ensures 0 <= ChooseTarget(ip, |w.modules[m]|) < |w.modules[m]|
    ensures var u := w.modules[m][ChooseTarget(ip, |w.modules[m]|)].upstream; u in w.table && w.table[u] < |w.queues|
  {
    hide Inv;
    assert w.modules[m] != [];
    ChoiceInRange(ip, |w.modules[m]|);
  }

  lemma GetsInLine(w: World, r: nat, m: string, ip: seq<Byte>, target: Target)
    requires r < |w.relays| && w.relays[r].Arrived? && w.reload.NoReload?
    requires m in w.modules && DivisorOk(|w.modules[m]|) && 0 <= ChooseTarget(ip, |w.modules[m]|) < |w.modules[m]|
    requires target == w.modules[m][ChooseTarget(ip, |w.modules[m]|)]
    requires target.upstream in w.table && w.table[target.upstream] < |w.queues|
    ensures var q := w.table[target.upstream];
      var more := [LookUp(r, m, ip)] + ([FindQueue(r)] + ([TakeTicket(r)] + []));
      && ValidTrace(w, more)
      && var v := After(w, more);
      && v.relays == w.relays[r := Waiting(target, q, w.queues[q].next)]
      && v.queues == w.queues[q := Step(w.queues[q], AcquireOp)]
      && v.table == w.table && v.modules == w.modules
  {
    hide ChooseTarget, DivisorOk, Acquire, ValidTrace, After;
    var w1 := Next(w, LookUp(r, m, ip));
    assert w1 == Set(w, r, Routed(target));
    var w2 := Next(w1, FindQueue(r));
    NoSteps(Next(w2, TakeTicket(r)));
    OneStep(w2, TakeTicket(r), []);
    OneStep(w1, FindQueue(r), [TakeTicket(r)] + []);
    OneStep(w, LookUp(r, m, ip), [FindQueue(r)] + ([TakeTicket(r)] + []));
  }

  lemma NoSteps(w: World)
    ensures ValidTrace(w, []) && After(w, []) == w
  {
  }

  /** A waiting relay that reads its status goes on as the status says: on Ok it can dial, and then has its connection open
      under the same ticket; on Full it leaves; otherwise it still waits, and nothing has changed. */
  lemma StatusDecides(acts: seq<Action>, r: nat)
    requires ValidTrace(BOOT, acts) && r < |After(BOOT, acts).relays| && After(BOOT, acts).relays[r].Waiting?
    ensures var w := After(BOOT, acts); var x := w.relays[r];
      && x.q < |w.queues| && x.t in w.queues[x.q].published
      && var newest := w.queues[x.q].published[x.t];
      && ValidTrace(w, [SeeStatus(r)] + [])
      && var v := After(w, [SeeStatus(r)] + []);
      && (newest.ok ==>
            && ValidTrace(w, [SeeStatus(r)] + ([Dial(r)] + []))
            && After(w, [SeeStatus(r)] + ([Dial(r)] + [])) == w.(relays := w.relays[r := Open(x.target, x.q, x.t)]))
      && (newest.full ==> v == w.(relays := w.relays[r := Leaving(x.target, x.q, x.t)]))
      && (!newest.ok && !newest.full ==> v == w)
      && !(newest.ok && newest.full)
  {
    TraceKeeps(BOOT, acts);
    var w := After(BOOT, acts);
    var x := w.relays[r];
    HolderHasTicket(w, r);
    StatusKnown(w.queues[x.q], x.t);
    StatusKinds(w.queues[x.q], x.t);
    hide Inv, WorldOk, ValidTrace, After;
    var v := Next(w, SeeStatus(r));
    NoSteps(v);
    OneStep(w, SeeStatus(r), []);
    if w.queues[x.q].published[x.t].ok {
      NoSteps(Next(v, Dial(r)));
      OneStep(v, Dial(r), []);
      OneStep(w, SeeStatus(r), [Dial(r)] + []);
    }
  }

  lemma StatusKnown(s: State, t: Ticket)
    requires Inv(s) && Live(s, t)
    ensures t in s.published
  {
  }

  /** No target list in the table is ever empty and every target's upstream has a queue, so the index chosen
      from the client address never panics and a relay that meets no reload finds its queue. */
  lemma LookUpsSucceed(acts: seq<Action>, m: string, ip: seq<Byte>)
    requires ValidTrace(BOOT, acts)
    ensures var w := After(BOOT, acts);
      && !LookUpPanics(w, m, ip)
      && (m in w.modules && DivisorOk(|w.modules[m]|) ==>
            w.modules[m][ChooseTarget(ip, |w.modules[m]|)].upstream in w.table)
  {
    TraceKeeps(BOOT, acts);
    var w := After(BOOT, acts);
    if m in w.modules && DivisorOk(|w.modules[m]|) {
      ChoiceInRange(ip, |w.modules[m]|);
    }
  }

  // ---- one upstream name, from reload to reload ----

  /** A reload that does not list `u` takes effect while the table has `u`. */
  ghost predicate Drops(w: World, a: Action, u: string) {
    a.EndReload? && u in w.table && w.reload.Limiting? && !Lists(w.reload.ups, u)
  }

  /** No reload that takes effect along the run drops `u`. Reloads before `u` is first listed do not matter, and
      neither do reloads that are begun and not finished. */
  ghost predicate NeverDropped(w: World, acts: seq<Action>, u: string)
    requires ValidTrace(w, acts)
    decreases |acts|
  {
    acts == [] || (!Drops(w, acts[0], u) && NeverDropped(Next(w, acts[0]), acts[1..], u))
  }

  /** A relay bound for `u` uses the queue the table has for `u`. */
  ghost predicate SameQueue(w: World, u: string) {
    forall r ::
      0 <= r < |w.relays| && (w.relays[r].Bound? || w.relays[r].Holds()) && w.relays[r].target.upstream == u ==>
      u in w.table && w.relays[r].q == w.table[u]
  }

  /** The entry of a kept upstream survives the exchange of the tables. */
  lemma KeptEntry(w: World, modules: map<string, seq<Target>>, u: string)
    requires TablesOk(w) && Enabled(w, EndReload(modules)) && Lists(w.reload.ups, u)
    ensures u in w.reload.built && (u in w.table ==> w.reload.built[u] == w.table[u])
  {
    var i :| 0 <= i < |w.reload.ups| && w.reload.ups[i].name == u;
    assert w.reload.ups[i].name in w.reload.built;
  }

  lemma EntryStays(w: World, a: Action, u: string)
    requires TablesOk(w) && Enabled(w, a) && !Drops(w, a, u)
    ensures u in w.table ==> u in Next(w, a).table && Next(w, a).table[u] == w.table[u]
    ensures !a.EndReload? ==> Next(w, a).table == w.table
  {
    hide Lists, IsModuleTable;
    if a.EndReload? && u in w.table {
      KeptEntry(w, a.modules, u);
    }
  }

  lemma SameQueueStep(w: World, a: Action, u: string)
    requires WorldOk(w) && Enabled(w, a) && SameQueue(w, u) && !Drops(w, a, u)
    ensures SameQueue(Next(w, a), u)
  {
    EntryStays(w, a, u);
    hide RelayOk, TicketOk, QueueOk, Lists, IsModuleTable, TablesOk, Drops;
  }

  lemma {:induction false} SameQueueTrace(w: World, acts: seq<Action>, u: string)
    requires WorldOk(w) && ValidTrace(w, acts) && SameQueue(w, u) && NeverDropped(w, acts, u)
    ensures WorldOk(After(w, acts)) && SameQueue(After(w, acts), u)
    decreases |acts|
  {
    hide Inv;
    if acts != [] {
      WorldStep(w, acts[0]);
      SameQueueStep(w, acts[0], u);
      SameQueueTrace(Next(w, acts[0]), acts[1..], u);
    }
  }

  /** Any queue that `u` has, or is about to get, is one made since there were `n` of them. */
  ghost predicate StartedOver(w: World, u: string, n: nat) {
    && n <= |w.queues|
    && (u in w.table ==> n <= w.table[u])
    && (w.reload.Limiting? && u in w.reload.built ==> n <= w.reload.built[u])
  }

  lemma QueuesGrow(w: World, a: Action)
    requires Enabled(w, a)
    ensures |w.queues| <= |Next(w, a).queues|
  {
  }

  lemma StartedOverStep(w: World, a: Action, u: string, n: nat)
    requires Enabled(w, a) && StartedOver(w, u, n)
    ensures StartedOver(Next(w, a), u, n)
  {
    QueuesGrow(w, a);
    hide Lists, IsModuleTable, DistinctNames;
  }

  lemma {:induction false} StartedOverTrace(w: World, acts: seq<Action>, u: string, n: nat)
    requires ValidTrace(w, acts) && StartedOver(w, u, n)
    ensures StartedOver(After(w, acts), u, n)
    decreases |acts|
  {
    hide StartedOver;
    if acts != [] {
      StartedOverStep(w, acts[0], u, n);
      StartedOverTrace(Next(w, acts[0]), acts[1..], u, n);
    }
  }

  lemma DropStartsOver(w: World, a: Action, u: string)
    requires TablesOk(w) && Enabled(w, a) && Drops(w, a, u)
    ensures StartedOver(Next(w, a), u, |w.queues|)
  {
    hide Lists, IsModuleTable;
  }

  /** Along a run that never drops `u` its entry stays; after a drop, any later entry is a newer queue. */
  lemma {:induction false} EntryTrace(w: World, acts: seq<Action>, u: string)
    requires WorldOk(w) && ValidTrace(w, acts)
    ensures var v := After(w, acts);
      && (NeverDropped(w, acts, u) && u in w.table ==> u in v.table && v.table[u] == w.table[u])
      && (!NeverDropped(w, acts, u) && u in v.table ==> |w.queues| <= v.table[u])
    decreases |acts|
  {
    if acts != [] {
      var a, next := acts[0], Next(w, acts[0]);
      WorldStep(w, a);
      QueuesGrow(w, a);
      if Drops(w, a, u) {
        DropStartsOver(w, a, u);
        StartedOverTrace(next, acts[1..], u, |w.queues|);
      } else {
        hide WorldOk, Drops;
        EntryStaysWorld(w, a, u);
        EntryTrace(next, acts[1..], u);
      }
    }
  }

  lemma EntryStaysWorld(w: World, a: Action, u: string)
    requires WorldOk(w) && Enabled(w, a) && !Drops(w, a, u)
    ensures u in w.table ==> u in Next(w, a).table && Next(w, a).table[u] == w.table[u]
  {
    EntryStays(w, a, u);
  }

  /** Between two points of a run at which the table has `u`, the queue object of `u` is the same if and only if no
      reload in between dropped `u`. */
  lemma SameObjectExactly(acts: seq<Action>, more: seq<Action>, u: string)
    requires ValidTrace(BOOT, acts) && u in After(BOOT, acts).table
    requires ValidTrace(After(BOOT, acts), more) && u in After(After(BOOT, acts), more).table
    ensures var w := After(BOOT, acts);
      After(w, more).table[u] == w.table[u] <==> NeverDropped(w, more, u)
  {
    TraceKeeps(BOOT, acts);
    var w := After(BOOT, acts);
    EntryTrace(w, more, u);
    EntryInRange(w, u);
  }

  lemma EntryInRange(w: World, u: string)
    requires WorldOk(w) && u in w.table
    ensures w.table[u] < |w.queues|
  {
  }

  ghost function OpenTo(w: World, u: string): set<nat> {
    set r: nat | r < |w.relays| && w.relays[r].Open? && w.relays[r].target.upstream == u
  }

  lemma {:induction false} SubsetSize(xs: set<nat>, ys: set<nat>)
    requires xs <= ys
    ensures |xs| <= |ys|
    decreases |xs|
  {
    if xs != {} {
      var x := Pick(xs);
      SubsetSize(xs - {x}, ys - {x});
    }
  }

  /** As long as no reload has dropped upstream `u`, whenever it was first listed, the connections open to `u` stay
      within the `active` entries of its one queue object and within the largest limit configured for it so far,
      provided 0 never was; and before it is listed there are none. */
  lemma UpstreamConnectionsBounded(acts: seq<Action>, u: string)
    requires ValidTrace(BOOT, acts) && NeverDropped(BOOT, acts, u)
    ensures var w := After(BOOT, acts);
      && (u !in w.table ==> OpenTo(w, u) == {})
      && (u in w.table ==>
            && w.table[u] < |w.queues| == |w.ceiling|
            && |OpenTo(w, u)| <= |w.queues[w.table[u]].active|
            && (w.table[u] !in w.unlimited ==> |OpenTo(w, u)| <= w.ceiling[w.table[u]]))
  {
    SameQueueTrace(BOOT, acts, u);
    var w := After(BOOT, acts);
    if u in w.table {
      EntryInRange(w, u);
      OpenBounded(w, w.table[u]);
      SubsetSize(OpenTo(w, u), OpenOn(w, w.table[u]));
    }
  }

  // ---- two names never share a queue ----

  ghost predicate Separate(w: World) {
    && (forall q :: q in w.unlimited ==> q < |w.queues|)
    && (forall x, y :: x in w.table && y in w.table && w.table[x] == w.table[y] ==> x == y)
    && (w.reload.Limiting? ==>
          && (forall x, y :: x in w.reload.built && y in w.table && w.reload.built[x] == w.table[y] ==> x == y)
          && (forall x, y :: x in w.reload.built && y in w.reload.built && w.reload.built[x] == w.reload.built[y] ==> x == y))
  }

  lemma SeparateRelimit(w: World)
    requires TablesOk(w) && Separate(w) && |w.queues| == |w.ceiling| && Enabled(w, Relimit)
    ensures Separate(DoRelimit(w))
  {
    hide Lists, DistinctNames, IsModuleTable, QueueModel.SetMax;
  }

  lemma SeparateStep(w: World, a: Action)
    requires WorldOk(w) && Separate(w) && Enabled(w, a)
    ensures Separate(Next(w, a))
  {
    if a.Relimit? {
      SeparateRelimit(w);
    } else {
      hide WorldOk, Lists, DistinctNames, IsModuleTable, ChooseTarget, Acquire, Release, TablesOk;
    }
  }

  // ---- the bound in terms of the configurations ----

  /** Wherever `u` is listed, its limit is at least 1 and at most `limit`. */
  ghost predicate ListedWithin(ups: seq<Upstream>, u: string, limit: nat) {
    forall i :: 0 <= i < |ups| && ups[i].name == u ==> 0 < ups[i].maxActive <= limit
  }

  ghost predicate ConfiguredWithin(acts: seq<Action>, u: string, limit: nat) {
    forall i :: 0 <= i < |acts| && acts[i].BeginReload? ==> ListedWithin(acts[i].ups, u, limit)
  }

  ghost predicate QueueWithin(w: World, q: QueueId, limit: nat) {
    q < |w.queues| == |w.ceiling| && w.ceiling[q] <= limit && q !in w.unlimited
  }

  ghost predicate Within(w: World, u: string, limit: nat) {
    && (u in w.table ==> QueueWithin(w, w.table[u], limit))
    && (w.reload.Limiting? ==>
          ListedWithin(w.reload.ups, u, limit) && (u in w.reload.built ==> QueueWithin(w, w.reload.built[u], limit)))
  }

  lemma WithinRelimit(w: World, u: string, limit: nat)
    requires TablesOk(w) && Separate(w) && |w.queues| == |w.ceiling| && Enabled(w, Relimit) && Within(w, u, limit)
    ensures Within(DoRelimit(w), u, limit)
  {
    hide Lists, DistinctNames, IsModuleTable, QueueModel.SetMax;
  }

  lemma WithinStep(w: World, a: Action, u: string, limit: nat)
    requires WorldOk(w) && Separate(w) && Enabled(w, a) && Within(w, u, limit)
    requires a.BeginReload? ==> ListedWithin(a.ups, u, limit)
    ensures Within(Next(w, a), u, limit)
  {
    if a.Relimit? {
      WithinRelimit(w, u, limit);
    } else {
      hide WorldOk, Lists, ListedWithin, DistinctNames, IsModuleTable, ChooseTarget, Acquire, Release, TablesOk, Separate;
    }
  }

  lemma {:induction false} WithinTrace(w: World, acts: seq<Action>, u: string, limit: nat)
    requires WorldOk(w) && Separate(w) && Within(w, u, limit)
    requires ValidTrace(w, acts) && ConfiguredWithin(acts, u, limit)
    ensures Separate(After(w, acts)) && Within(After(w, acts), u, limit)
    decreases |acts|
  {
    hide WorldOk, Separate, Within, ListedWithin;
    if acts != [] {
      WorldStep(w, acts[0]);
      SeparateStep(w, acts[0]);
      WithinStep(w, acts[0], u, limit);
      WithinTrace(Next(w, acts[0]), acts[1..], u, limit);
    }
  }

  /** In terms of the configurations alone: as long as no reload drops upstream `u`, and wherever `u` is listed its limit is
      between 1 and `limit`, at most `limit` connections to it are open at any moment. */
  lemma ConfiguredBound(acts: seq<Action>, u: string, limit: nat)
    requires ValidTrace(BOOT, acts) && NeverDropped(BOOT, acts, u) && ConfiguredWithin(acts, u, limit)
    ensures |OpenTo(After(BOOT, acts), u)| <= limit
  {
    WithinTrace(BOOT, acts, u, limit);
    UpstreamConnectionsBounded(acts, u);
    hide ValidTrace, After, NeverDropped, ConfiguredWithin, ListedWithin, Separate, OpenTo;
  }

  // ---- what a whole reload installs ----

  function ReloadSteps(n: nat, modules: map<string, seq<Target>>): seq<Action> {
    if n == 0 then [EndReload(modules)] + [] else [Relimit] + ReloadSteps(n - 1, modules)
  }

  /** The queue of one listed upstream: the old one, with nothing but its limits changed, or a new and empty one. */
  ghost predicate Installed(w: World, queues: seq<State>, q: QueueId, u: Upstream) {
    if u.name in w.table then
      && q == w.table[u.name] && q < |queues| && q < |w.queues|
      && queues[q] == w.queues[q].(max := u.maxActive, maxQueued := u.maxQueued)
    else
      |w.queues| <= q < |queues| && queues[q] == State(u.maxActive, u.maxQueued, [], [], 0, map[], {})
  }

  /** No upstream of the list had queue `q`. */
  ghost predicate NotListed(w: World, ups: seq<Upstream>, q: QueueId) {
    forall i :: 0 <= i < |ups| && ups[i].name in w.table ==> w.table[ups[i].name] != q
  }

  /** A reload that started in `w` has re-limited the first `k` upstreams. */
  ghost predicate Halfway(w: World, v: World, ups: seq<Upstream>, k: nat)
    requires k <= |ups|
  {
    && v.reload.Limiting? && v.reload.ups == ups && v.reload.done == k
    && v.table == w.table && v.modules == w.modules && v.relays == w.relays
    && |w.queues| <= |v.queues| == |v.ceiling|
    && (forall name :: name in v.reload.built ==> Lists(ups, name))
    && (forall i :: 0 <= i < k ==>
          ups[i].name in v.reload.built && Installed(w, v.queues, v.reload.built[ups[i].name], ups[i]))
    && (forall q :: 0 <= q < |w.queues| && NotListed(w, ups[..k], q) ==> v.queues[q] == w.queues[q])
  }

  lemma NotYetListed(w: World, ups: seq<Upstream>, k: nat)
    requires Separate(w) && DistinctNames(ups) && k < |ups| && ups[k].name in w.table
    ensures NotListed(w, ups[..k], w.table[ups[k].name])
    ensures forall i :: 0 <= i < k && ups[i].name in w.table ==> w.table[ups[i].name] != w.table[ups[k].name]
  {
  }

  lemma HalfwayStep(w: World, v: World, ups: seq<Upstream>, k: nat)
    requires TablesOk(w) && Separate(w) && DistinctNames(ups) && k < |ups| && Halfway(w, v, ups, k)
    ensures Enabled(v, Relimit) && Halfway(w, Next(v, Relimit), ups, k + 1)
  {
    var u, x := ups[k], Next(v, Relimit);
    assert Lists(ups, u.name);
    if u.name in w.table { NotYetListed(w, ups, k); }
    forall i | 0 <= i < k + 1
      ensures ups[i].name in x.reload.built && Installed(w, x.queues, x.reload.built[ups[i].name], ups[i])
    {
      if i < k { assert Installed(w, v.queues, v.reload.built[ups[i].name], ups[i]); }
    }
    forall q | 0 <= q < |w.queues| && NotListed(w, ups[..k + 1], q) ensures x.queues[q] == w.queues[q] {
      LessListed(w, ups, k, q);
    }
  }

  lemma LessListed(w: World, ups: seq<Upstream>, k: nat, q: QueueId)
    requires k < |ups| && NotListed(w, ups[..k + 1], q)
    ensures NotListed(w, ups[..k], q) && (ups[k].name in w.table ==> w.table[ups[k].name] != q)
  {
    assert ups[..k + 1][k] == ups[k];
    forall i | 0 <= i < k && ups[..k][i].name in w.table ensures w.table[ups[..k][i].name] != q {
      assert ups[..k + 1][i] == ups[..k][i];
    }
  }

  lemma {:induction false} HalfwayRun(w: World, v: World, ups: seq<Upstream>, k: nat, modules: map<string, seq<Target>>)
    requires TablesOk(w) && Separate(w) && DistinctNames(ups) && IsModuleTable(ups, modules)
    requires k <= |ups| && Halfway(w, v, ups, k)
    ensures ValidTrace(v, ReloadSteps(|ups| - k, modules))
    ensures ReloadDone(w, After(v, ReloadSteps(|ups| - k, modules)), ups, modules)
    decreases |ups| - k
  {
    hide TablesOk, Separate, DistinctNames, IsModuleTable, ValidTrace, After, Installed, NotListed;
    if k == |ups| {
      var x := Next(v, EndReload(modules));
      assert ups[..k] == ups;
      NoSteps(x);
      OneStep(v, EndReload(modules), []);
    } else {
      HalfwayStep(w, v, ups, k);
      hide Halfway;
      HalfwayRun(w, Next(v, Relimit), ups, k + 1, modules);
      OneStep(v, Relimit, ReloadSteps(|ups| - k - 1, modules));
    }
  }

  /** A reload of `ups` that started in `w` has ended in `v`. */
  ghost predicate ReloadDone(w: World, v: World, ups: seq<Upstream>, modules: map<string, seq<Target>>) {
    && v.reload == NoReload && v.modules == modules && v.relays == w.relays
    && |w.queues| <= |v.queues|
    && (forall name :: name in v.table ==> Lists(ups, name))
    && (forall i :: 0 <= i < |ups| ==> ups[i].name in v.table && Installed(w, v.queues, v.table[ups[i].name], ups[i]))
    && (forall q :: 0 <= q < |w.queues| && NotListed(w, ups, q) ==> v.queues[q] == w.queues[q])
  }

  /** A whole reload, from any reachable state: exactly the listed names get queues, with their configured limits; a surviving
      name keeps its queue with everybody in it, a new one gets an empty queue; the module table is installed; queues that are
      not listed, and all relays, are left alone. */
  lemma ReloadInstalls(acts: seq<Action>, ups: seq<Upstream>, modules: map<string, seq<Target>>)
    requires ValidTrace(BOOT, acts) && After(BOOT, acts).reload.NoReload?
    requires DistinctNames(ups) && IsModuleTable(ups, modules)
    ensures var w := After(BOOT, acts); var more := [BeginReload(ups)] + ReloadSteps(|ups|, modules);
      ValidTrace(w, more) && ReloadDone(w, After(w, more), ups, modules)
  {
    TraceKeeps(BOOT, acts);
    SeparateTrace(BOOT, acts);
    hide ValidTrace, After, DistinctNames, IsModuleTable, Separate, ReloadDone, WorldOk;
    ReloadFrom(After(BOOT, acts), ups, modules);
  }

  lemma ReloadFrom(w: World, ups: seq<Upstream>, modules: map<string, seq<Target>>)
    requires WorldOk(w) && Separate(w) && w.reload.NoReload? && DistinctNames(ups) && IsModuleTable(ups, modules)
    ensures var more := [BeginReload(ups)] + ReloadSteps(|ups|, modules);
      ValidTrace(w, more) && ReloadDone(w, After(w, more), ups, modules)
  {
    hide WorldOk, ValidTrace, After, DistinctNames, IsModuleTable, Separate, ReloadDone, Halfway, TablesOk, ReloadSteps;
    HalfwayStart(w, ups);
    hide Enabled, Next;
    var v, rest := Next(w, BeginReload(ups)), ReloadSteps(|ups|, modules);
    HalfwayRun(w, v, ups, 0, modules);
    OneStep(w, BeginReload(ups), rest);
  }

  lemma HalfwayStart(w: World, ups: seq<Upstream>)
    requires WorldOk(w) && w.reload.NoReload? && DistinctNames(ups)
    ensures Enabled(w, BeginReload(ups))
    ensures TablesOk(w) && Halfway(w, Next(w, BeginReload(ups)), ups, 0)
  {
    hide Inv, TablesOk, DistinctNames;
  }

  lemma {:induction false} SeparateTrace(w: World, acts: seq<Action>)
    requires WorldOk(w) && Separate(w) && ValidTrace(w, acts)
    ensures Separate(After(w, acts))
    decreases |acts|
  {
    hide WorldOk, Separate;
    if acts != [] {
      WorldStep(w, acts[0]);
      SeparateStep(w, acts[0]);
      SeparateTrace(Next(w, acts[0]), acts[1..]);
    }
  }

  lemma {:induction false} AfterConcat(w: World, xs: seq<Action>, ys: seq<Action>)
    requires ValidTrace(w, xs) && ValidTrace(After(w, xs), ys)
    ensures ValidTrace(w, xs + ys) && After(w, xs + ys) == After(After(w, xs), ys)
    decreases |xs|
  {
    if xs == [] {
      assert xs + ys == ys;
    } else {
      assert (xs + ys)[1..] == xs[1..] + ys;
      AfterConcat(Next(w, xs[0]), xs[1..], ys);
    }
  }

  function ReloadActions(x: Upstream, modules: map<string, seq<Target>>): seq<Action> {
    [BeginReload([x])] + ([Relimit] + ([EndReload(modules)] + []))
  }

  lemma OneStep(w: World, a: Action, rest: seq<Action>)
    requires Enabled(w, a)
    ensures ValidTrace(w, [a] + rest) <==> ValidTrace(Next(w, a), rest)
    ensures ValidTrace(Next(w, a), rest) ==> After(w, [a] + rest) == After(Next(w, a), rest)
  {
    assert ([a] + rest)[1..] == rest;
  }

  /** A whole reload to one upstream that the table did not have. */
  lemma ReloadToNew(w: World, x: Upstream, modules: map<string, seq<Target>>)
    requires w.reload.NoReload? && x.name !in w.table && DistinctNames([x]) && IsModuleTable([x], modules)
    ensures var acts := ReloadActions(x, modules);
      && ValidTrace(w, acts)
      && var r := After(w, acts);
      && r.table == map[x.name := |w.queues|] && r.queues == w.queues + [Init(x.maxActive, x.maxQueued)]
      && r.relays == w.relays && r.reload == NoReload
  {
    var w1 := Next(w, BeginReload([x]));
    var w2 := Next(w1, Relimit);
    var last := EndReload(modules);
    OneStep(w2, last, []);
    OneStep(w1, Relimit, [last] + []);
    OneStep(w, BeginReload([x]), [Relimit] + ([last] + []));
  }

  /** What a drop leads to: a reload that drops `u` and a later one that lists it again give `u` a new,
      empty queue object, while the old object keeps whatever was admitted through it. */
  lemma ReaddedUpstreamStartsOver(w: World, u: Upstream, v: Upstream,
                                  tv: map<string, seq<Target>>, tu: map<string, seq<Target>>)
    requires WorldOk(w) && w.reload.NoReload? && u.name in w.table && u.name != v.name && v.name !in w.table
    requires DistinctNames([u]) && DistinctNames([v]) && IsModuleTable([v], tv) && IsModuleTable([u], tu)
    ensures var acts := ReloadActions(v, tv) + ReloadActions(u, tu);
      && ValidTrace(w, acts)
      && var r := After(w, acts); var q := w.table[u.name];
      && u.name in r.table && r.table[u.name] != q && r.table[u.name] < |r.queues|
      && r.queues[r.table[u.name]] == Init(u.maxActive, u.maxQueued)
      && q < |w.queues| <= |r.queues| && r.queues[q] == w.queues[q] && r.relays == w.relays
  {
    hide Inv;
    ReloadToNew(w, v, tv);
    ReloadToNew(After(w, ReloadActions(v, tv)), u, tu);
    AfterConcat(w, ReloadActions(v, tv), ReloadActions(u, tu));
  }
}
