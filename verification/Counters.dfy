/** The lifetime counters of `pkg/server/server.go`, at the granularity of single atomic additions.

Handlers run concurrently; each of their `Add` calls is one step, and any number of handlers may be caught
between two of them. All totals are 64-bit and wrap. */
module Counters {
  import opened Metrics
  import opened Sorting

  const WRAP: int := 0x1_0000_0000_0000_0000

  /** The three quantities counted for finished relays. */
  datatype Which = Completed | SentBytes | RecvBytes
  datatype Triple = Triple(completed: int, sent: int, recv: int)

  function Get(c: Triple, which: Which): int {
    match which
    case Completed => c.completed
    case SentBytes => c.sent
    case RecvBytes => c.recv
  }

  function Add(c: Triple, which: Which, n: int): Triple {
    match which
    case Completed => c.(completed := (c.completed + n) % WRAP)
    case SentBytes => c.(sent := (c.sent + n) % WRAP)
    case RecvBytes => c.(recv := (c.recv + n) % WRAP)
  }

  const ZERO := Triple(0, 0, 0)

  /** One connection handler. `rank` counts the updates it has made: 1 active, 2 accepted, 3 to 5 the global
      totals, 6 the module entry found or created, 7 to 9 the module totals, 10 no longer active. A relay that
      ends before it reports goes from 2 to `failed`. The byte counts are the ones it will report. */
  datatype Handler = Handler(rank: nat, failed: bool, module_: string, upstream: string, sent: nat, recv: nat)

  function KeyOf(h: Handler): Key {
    Normalized(h.module_, h.upstream)
  }

  datatype World = World(
    active: int,
    accepted: int,
    totals: Triple,
    modules: map<Key, Triple>,
    handlers: seq<Handler>)

  const BOOT := World(0, 0, ZERO, map[], [])

  datatype Action =
    | Connect(module_: string, upstream: string, sent: nat, recv: nat)
    | Advance(i: nat)
    | Fail(i: nat)

  predicate Enabled(w: World, a: Action) {
    match a
    case Connect(_, _, _, _) => true
    case Advance(i) =>
      i < |w.handlers| && !w.handlers[i].failed && w.handlers[i].rank < 10
      && (w.handlers[i].rank >= 6 ==> KeyOf(w.handlers[i]) in w.modules)
    case Fail(i) => i < |w.handlers| && !w.handlers[i].failed && w.handlers[i].rank == 2
  }

  function Amount(h: Handler, which: Which): nat {
    match which
    case Completed => 1
    case SentBytes => h.sent
    case RecvBytes => h.recv
  }

  function AddTotal(w: World, h: Handler, which: Which): World {
    w.(totals := Add(w.totals, which, Amount(h, which)))
  }

  function AddModule(w: World, h: Handler, which: Which): World
    requires KeyOf(h) in w.modules
  {
    w.(modules := w.modules[KeyOf(h) := Add(w.modules[KeyOf(h)], which, Amount(h, which))])
  }

  /** The effect on the shared counters of the update that takes a handler from its rank to the next. */
  function Update(w: World, h: Handler): World
    requires h.rank < 10 && (h.rank >= 6 ==> KeyOf(h) in w.modules)
  {
    match h.rank
    case 0 => w.(active := w.active + 1)
    case 1 => w.(accepted := (w.accepted + 1) % WRAP)
    case 2 => AddTotal(w, h, Completed)
    case 3 => AddTotal(w, h, SentBytes)
    case 4 => AddTotal(w, h, RecvBytes)
    case 5 => if KeyOf(h) in w.modules then w else w.(modules := w.modules[KeyOf(h) := ZERO])
    case 6 => AddModule(w, h, Completed)
    case 7 => AddModule(w, h, SentBytes)
    case 8 => AddModule(w, h, RecvBytes)
    case _ => w.(active := w.active - 1)
  }

  function Next(w: World, a: Action): World
    requires Enabled(w, a)
  {
    match a
    case Connect(m, u, sent, recv) => w.(handlers := w.handlers + [Handler(0, false, m, u, sent, recv)])
    case Advance(i) =>
      var h := w.handlers[i];
      Update(w, h).(handlers := w.handlers[i := h.(rank := h.rank + 1)])
    case Fail(i) => w.(active := w.active - 1, handlers := w.handlers[i := w.handlers[i].(failed := true)])
  }

  predicate ValidTrace(w: World, acts: seq<Action>)
    decreases |acts|
  {
    acts == [] || (Enabled(w, acts[0]) && ValidTrace(Next(w, acts[0]), acts[1..]))
  }

  function After(w: World, acts: seq<Action>): World
    requires ValidTrace(w, acts)
    decreases |acts|
  {
    if acts == [] then w else After(Next(w, acts[0]), acts[1..])
  }

  // ---- sums ----

  function Sum(hs: seq<Handler>, f: Handler -> int): int {
    if hs == [] then 0 else Sum(hs[..|hs| - 1], f) + f(hs[|hs| - 1])
  }

  lemma {:induction false} SumUpdate(hs: seq<Handler>, i: nat, h: Handler, f: Handler -> int)
    requires i < |hs|
    ensures Sum(hs[i := h], f) == Sum(hs, f) - f(hs[i]) + f(h)
  {
    var last := |hs| - 1;
    if i == last {
      assert hs[i := h][..last] == hs[..last];
    } else {
      assert hs[i := h][..last] == hs[..last][i := h];
      SumUpdate(hs[..last], i, h, f);
    }
  }

  lemma SumAppend(hs: seq<Handler>, h: Handler, f: Handler -> int)
    ensures Sum(hs + [h], f) == Sum(hs, f) + f(h)
  {
    assert (hs + [h])[..|hs|] == hs;
  }

  lemma {:induction false} SumSplit(hs: seq<Handler>, f: Handler -> int, g: Handler -> int, k: Handler -> int)
    requires forall h: Handler :: f(h) == g(h) + k(h)
    ensures Sum(hs, f) == Sum(hs, g) + Sum(hs, k)
  {
    if hs == [] {
    } else {
      SumSplit(hs[..|hs| - 1], f, g, k);
    }
  }

  /** The sum of one quantity over all module entries. */
  ghost function ModuleSum(m: map<Key, Triple>, which: Which): int
    decreases |m.Keys|
  {
    if m.Keys == {} then 0
    else
      var k := Pick(m.Keys);
      assert (m - {k}).Keys == m.Keys - {k};
      Get(m[k], which) + ModuleSum(m - {k}, which)
  }

  lemma WithoutBoth<K, V>(m: map<K, V>, p: K, k: K)
    ensures m - {p} - {k} == m - {k} - {p}
    ensures (m - {p}).Keys == m.Keys - {p} && (m - {k}).Keys == m.Keys - {k}
  {
  }

  lemma ModuleSumPick(m: map<Key, Triple>, which: Which)
    requires m.Keys != {}
    ensures var p := Pick(m.Keys); ModuleSum(m, which) == Get(m[p], which) + ModuleSum(m - {p}, which)
  {
  }

  /** The sum does not depend on which entry is taken out first. */
  lemma {:induction false} ModuleSumTake(m: map<Key, Triple>, which: Which, k: Key)
    requires k in m
    ensures ModuleSum(m, which) == Get(m[k], which) + ModuleSum(m - {k}, which)
    decreases |m.Keys|
  {
    hide ModuleSum;
    var p := Pick(m.Keys);
    ModuleSumPick(m, which);
    if p != k {
      WithoutBoth(m, p, k);
      ModuleSumTake(m - {p}, which, k);
      ModuleSumTake(m - {k}, which, p);
    }
  }

  lemma ModuleSumSet(m: map<Key, Triple>, which: Which, k: Key, c: Triple)
    ensures ModuleSum(m[k := c], which) ==
            ModuleSum(m, which) - (if k in m then Get(m[k], which) else 0) + Get(c, which)
  {
    ModuleSumTake(m[k := c], which, k);
    assert m[k := c] - {k} == m - {k};
    if k in m {
      ModuleSumTake(m, which, k);
    } else {
      assert m - {k} == m;
    }
  }

  // ---- what each handler has contributed ----

  function GlobalRank(which: Which): nat {
    match which case Completed => 3 case SentBytes => 4 case RecvBytes => 5
  }

  function ModuleRank(which: Which): nat {
    match which case Completed => 7 case SentBytes => 8 case RecvBytes => 9
  }

  function IntoTotal(which: Which): Handler -> int {
    (h: Handler) => if h.rank >= GlobalRank(which) then Amount(h, which) else 0
  }

  function IntoModule(which: Which): Handler -> int {
    (h: Handler) => if h.rank >= ModuleRank(which) then Amount(h, which) else 0
  }

  /** The part of a relay caught between its two additions of one quantity. */
  function Between(which: Which): Handler -> int {
    (h: Handler) => if GlobalRank(which) <= h.rank < ModuleRank(which) then Amount(h, which) else 0
  }

  function Running(): Handler -> int {
    (h: Handler) => if 1 <= h.rank < 10 && !h.failed then 1 else 0
  }

  function Finished(): Handler -> int {
    (h: Handler) => if h.rank == 10 || h.failed then 1 else 0
  }

  function WasAccepted(): Handler -> int {
    (h: Handler) => if h.rank >= 2 then 1 else 0
  }

  /** Counted as active, not yet as accepted. */
  function BeforeAccepted(): Handler -> int {
    (h: Handler) => if h.rank == 1 then 1 else 0
  }

  ghost predicate Agrees(w: World, which: Which) {
    && Get(w.totals, which) == Sum(w.handlers, IntoTotal(which)) % WRAP
    && ModuleSum(w.modules, which) % WRAP == Sum(w.handlers, IntoModule(which)) % WRAP
  }

  /** What relays have added to one module entry. */
  function IntoEntry(k: Key, which: Which): Handler -> int {
    (h: Handler) => if KeyOf(h) == k && h.rank >= ModuleRank(which) then Amount(h, which) else 0
  }

  function Entry(m: map<Key, Triple>, k: Key, which: Which): int {
    if k in m then Get(m[k], which) else 0
  }

  ghost predicate EntryAgrees(w: World, k: Key, which: Which) {
    Entry(w.modules, k, which) == Sum(w.handlers, IntoEntry(k, which)) % WRAP
  }

  ghost predicate HandlerOk(w: World, h: Handler) {
    && h.rank <= 10
    && (h.failed ==> h.rank == 2)
    && (h.rank >= 6 ==> KeyOf(h) in w.modules)
  }

  ghost predicate Ok(w: World) {
    && (forall i :: 0 <= i < |w.handlers| ==> HandlerOk(w, w.handlers[i]))
    && (forall which :: Agrees(w, which))
    && (forall k, which :: EntryAgrees(w, k, which))
    && w.active == Sum(w.handlers, Running())
    && w.accepted == Sum(w.handlers, WasAccepted()) % WRAP
  }

  lemma AddMod(a: int, b: int, n: int)
    requires a == b % WRAP
    ensures (a + n) % WRAP == (b + n) % WRAP
  {
  }

  lemma AddMods(a: int, b: int, n: int)
    requires a % WRAP == b % WRAP
    ensures (a + n) % WRAP == (b + n) % WRAP
  {
  }

  /** Replacing one summand by its wrapped successor moves the wrapped sum by the same amount. */
  lemma ReplaceMod(sum: int, c: int, n: int)
    ensures (sum - c + (c + n) % WRAP) % WRAP == (sum + n) % WRAP
  {
    AddMods((c + n) % WRAP, c + n, sum - c);
  }

  lemma ModuleStep(w: World, h: Handler, which: Which, added: Which)
    requires KeyOf(h) in w.modules
    ensures ModuleSum(AddModule(w, h, added).modules, which) % WRAP ==
            (ModuleSum(w.modules, which) + if added == which then Amount(h, which) else 0) % WRAP
  {
    hide ModuleSum;
    var k, c := KeyOf(h), w.modules[KeyOf(h)];
    ModuleSumSet(w.modules, which, k, Add(c, added, Amount(h, added)));
    if added == which {
      ReplaceMod(ModuleSum(w.modules, which), Get(c, which), Amount(h, which));
    } else {
      assert Get(Add(c, added, Amount(h, added)), which) == Get(c, which);
    }
  }

  lemma TotalAdvance(w: World, i: nat, which: Which)
    requires Ok(w) && Enabled(w, Advance(i))
    ensures var v := Next(w, Advance(i));
      Get(v.totals, which) == Sum(v.handlers, IntoTotal(which)) % WRAP
  {
    hide Sum, ModuleSum;
    var h, v := w.handlers[i], Next(w, Advance(i));
    var d := if h.rank + 1 == GlobalRank(which) then Amount(h, which) else 0;
    assert Agrees(w, which);
    SumUpdate(w.handlers, i, h.(rank := h.rank + 1), IntoTotal(which));
    assert Sum(v.handlers, IntoTotal(which)) == Sum(w.handlers, IntoTotal(which)) + d;
    AddMod(Get(w.totals, which), Sum(w.handlers, IntoTotal(which)), d);
    if d != 0 {
      assert Get(v.totals, which) == (Get(w.totals, which) + d) % WRAP;
    }
  }

  lemma ModuleAdvance(w: World, i: nat, which: Which)
    requires Ok(w) && Enabled(w, Advance(i))
    ensures var v := Next(w, Advance(i));
      ModuleSum(v.modules, which) % WRAP == Sum(v.handlers, IntoModule(which)) % WRAP
  {
    hide Sum, ModuleSum;
    var h, v := w.handlers[i], Next(w, Advance(i));
    var d := if h.rank + 1 == ModuleRank(which) then Amount(h, which) else 0;
    assert Agrees(w, which);
    SumUpdate(w.handlers, i, h.(rank := h.rank + 1), IntoModule(which));
    assert Sum(v.handlers, IntoModule(which)) == Sum(w.handlers, IntoModule(which)) + d;
    AddMods(ModuleSum(w.modules, which), Sum(w.handlers, IntoModule(which)), d);
    if h.rank == 5 && KeyOf(h) !in w.modules {
      ModuleSumSet(w.modules, which, KeyOf(h), ZERO);
    } else if 6 <= h.rank < 9 {
      ModuleStep(w, h, which, if h.rank == 6 then Completed else if h.rank == 7 then SentBytes else RecvBytes);
    }
  }

  lemma EntryAdvance(w: World, i: nat, k: Key, which: Which)
    requires Ok(w) && Enabled(w, Advance(i))
    ensures EntryAgrees(Next(w, Advance(i)), k, which)
  {
    hide Sum, ModuleSum;
    var h, v := w.handlers[i], Next(w, Advance(i));
    var d := if KeyOf(h) == k && h.rank + 1 == ModuleRank(which) then Amount(h, which) else 0;
    assert EntryAgrees(w, k, which);
    SumUpdate(w.handlers, i, h.(rank := h.rank + 1), IntoEntry(k, which));
    assert Sum(v.handlers, IntoEntry(k, which)) == Sum(w.handlers, IntoEntry(k, which)) + d;
    AddMod(Entry(w.modules, k, which), Sum(w.handlers, IntoEntry(k, which)), d);
    if d != 0 {
      assert Entry(v.modules, k, which) == (Entry(w.modules, k, which) + d) % WRAP;
    } else {
      assert Entry(v.modules, k, which) == Entry(w.modules, k, which);
    }
  }

  lemma ConnectOk(w: World, h: Handler)
    requires Ok(w) && h.rank == 0 && !h.failed
    ensures Ok(w.(handlers := w.handlers + [h]))
  {
    hide Sum, ModuleSum;
    var v := w.(handlers := w.handlers + [h]);
    forall which ensures Agrees(v, which) {
      assert Agrees(w, which);
      SumAppend(w.handlers, h, IntoTotal(which));
      SumAppend(w.handlers, h, IntoModule(which));
    }
    forall k, which ensures EntryAgrees(v, k, which) {
      assert EntryAgrees(w, k, which);
      SumAppend(w.handlers, h, IntoEntry(k, which));
    }
    SumAppend(w.handlers, h, Running());
    SumAppend(w.handlers, h, WasAccepted());
  }

  lemma AdvanceOk(w: World, i: nat)
    requires Ok(w) && Enabled(w, Advance(i))
    ensures Ok(Next(w, Advance(i)))
  {
    hide Sum, ModuleSum;
    var h, v := w.handlers[i], Next(w, Advance(i));
    var g := h.(rank := h.rank + 1);
    forall which ensures Agrees(v, which) {
      TotalAdvance(w, i, which);
      ModuleAdvance(w, i, which);
    }
    forall k, which ensures EntryAgrees(v, k, which) {
      EntryAdvance(w, i, k, which);
    }
    SumUpdate(w.handlers, i, g, Running());
    SumUpdate(w.handlers, i, g, WasAccepted());
    AddMod(w.accepted, Sum(w.handlers, WasAccepted()), if h.rank == 1 then 1 else 0);
    AcceptedAdvance(w, h);
    assert w.modules.Keys <= v.modules.Keys;
  }

  /** Only the first two additions and the last touch the connection counts. */
  lemma AcceptedAdvance(w: World, h: Handler)
    requires h.rank < 10 && (h.rank >= 6 ==> KeyOf(h) in w.modules) && 0 <= w.accepted < WRAP
    ensures Update(w, h).accepted == (w.accepted + if h.rank == 1 then 1 else 0) % WRAP
    ensures Update(w, h).active == w.active + if h.rank == 0 then 1 else if h.rank == 9 then -1 else 0
    ensures w.modules.Keys <= Update(w, h).modules.Keys
    ensures h.rank == 5 ==> KeyOf(h) in Update(w, h).modules
  {
  }

  lemma FailOk(w: World, i: nat)
    requires Ok(w) && Enabled(w, Fail(i))
    ensures Ok(Next(w, Fail(i)))
  {
    hide Sum, ModuleSum;
    var v, g := Next(w, Fail(i)), w.handlers[i].(failed := true);
    forall which ensures Agrees(v, which) {
      assert Agrees(w, which);
      SumUpdate(w.handlers, i, g, IntoTotal(which));
      SumUpdate(w.handlers, i, g, IntoModule(which));
    }
    forall k, which ensures EntryAgrees(v, k, which) {
      assert EntryAgrees(w, k, which);
      SumUpdate(w.handlers, i, g, IntoEntry(k, which));
    }
    SumUpdate(w.handlers, i, g, Running());
    SumUpdate(w.handlers, i, g, WasAccepted());
  }

  lemma OkStep(w: World, a: Action)
    requires Ok(w) && Enabled(w, a)
    ensures Ok(Next(w, a))
  {
    match a
    case Connect(m, u, sent, recv) => ConnectOk(w, Handler(0, false, m, u, sent, recv));
    case Advance(i) => AdvanceOk(w, i);
    case Fail(i) => FailOk(w, i);
  }

  lemma {:induction false} OkTrace(w: World, acts: seq<Action>)
    requires Ok(w) && ValidTrace(w, acts)
    ensures Ok(After(w, acts))
    decreases |acts|
  {
    if acts != [] {
      OkStep(w, acts[0]);
      OkTrace(Next(w, acts[0]), acts[1..]);
    }
  }

  /** Over every interleaving of atomic additions: the accepted total falls behind active plus finished by
      exactly the handlers caught between their first two additions; each module entry holds exactly what
      relays of that module and upstream have added; and each global total is ahead of the sum over modules
      by exactly what relays caught between their two additions contribute. */
  lemma CountersConserved(acts: seq<Action>, which: Which, k: Key)
    requires ValidTrace(BOOT, acts)
    ensures var w := After(BOOT, acts);
      && (w.accepted + Sum(w.handlers, BeforeAccepted())) % WRAP == (w.active + Sum(w.handlers, Finished())) % WRAP
      && Entry(w.modules, k, which) == Sum(w.handlers, IntoEntry(k, which)) % WRAP
      && Get(w.totals, which) == (ModuleSum(w.modules, which) + Sum(w.handlers, Between(which))) % WRAP
  {
    BootOk();
    hide Sum, ModuleSum, Ok, Entry, Get, ValidTrace, After;
    OkTrace(BOOT, acts);
    ConnectionsBalance(After(BOOT, acts));
    TotalsBalance(After(BOOT, acts), which);
    EntryValue(After(BOOT, acts), k, which);
  }

  lemma BootOk()
    ensures Ok(BOOT)
  {
  }

  lemma EntryValue(w: World, k: Key, which: Which)
    requires Ok(w)
    ensures Entry(w.modules, k, which) == Sum(w.handlers, IntoEntry(k, which)) % WRAP
  {
    hide Sum;
    assert EntryAgrees(w, k, which);
  }

  lemma TotalsBalance(w: World, which: Which)
    requires Ok(w)
    ensures Get(w.totals, which) == (ModuleSum(w.modules, which) + Sum(w.handlers, Between(which))) % WRAP
  {
    hide Sum, ModuleSum;
    assert Agrees(w, which);
    SumSplit(w.handlers, IntoTotal(which), IntoModule(which), Between(which));
    AddMods(ModuleSum(w.modules, which), Sum(w.handlers, IntoModule(which)), Sum(w.handlers, Between(which)));
  }

  lemma ConnectionsBalance(w: World)
    requires Ok(w)
    ensures (w.accepted + Sum(w.handlers, BeforeAccepted())) % WRAP == (w.active + Sum(w.handlers, Finished())) % WRAP
  {
    hide Sum, ModuleSum;
    ConnectionsSplit(w, w.handlers);
    AddMod(w.accepted, Sum(w.handlers, WasAccepted()), Sum(w.handlers, BeforeAccepted()));
  }

  lemma {:induction false} ConnectionsSplit(w: World, hs: seq<Handler>)
    requires forall i :: 0 <= i < |hs| ==> HandlerOk(w, hs[i])
    ensures Sum(hs, Running()) + Sum(hs, Finished()) == Sum(hs, WasAccepted()) + Sum(hs, BeforeAccepted())
  {
    if hs == [] {
    } else {
      ConnectionsSplit(w, hs[..|hs| - 1]);
    }
  }

  lemma {:induction false} NothingBetween(hs: seq<Handler>, which: Which)
    requires forall i :: 0 <= i < |hs| ==> hs[i].rank <= 2 || hs[i].rank == 10
    ensures Sum(hs, Between(which)) == 0
  {
    if hs == [] {
    } else {
      NothingBetween(hs[..|hs| - 1], which);
    }
  }

  // ---- the totals, written out ----

  /** 1 for each relay that has reported, the bytes it sent, the bytes it received. */
  function Relays(): Handler -> int {
    (h: Handler) => if h.rank == 10 then 1 else 0
  }

  function BytesSent(): Handler -> int {
    (h: Handler) => if h.rank == 10 then h.sent else 0
  }

  function BytesReceived(): Handler -> int {
    (h: Handler) => if h.rank == 10 then h.recv else 0
  }

  /** The relay's module and upstream, with "unknown" for an empty name, are the labels `k`. */
  predicate Shows(h: Handler, k: Key) {
    && k.0 == (if h.module_ == "" then "unknown" else h.module_)
    && k.1 == (if h.upstream == "" then "unknown" else h.upstream)
  }

  function RelaysOf(k: Key): Handler -> int {
    (h: Handler) => if h.rank == 10 && Shows(h, k) then 1 else 0
  }

  function SentOf(k: Key): Handler -> int {
    (h: Handler) => if h.rank == 10 && Shows(h, k) then h.sent else 0
  }

  function ReceivedOf(k: Key): Handler -> int {
    (h: Handler) => if h.rank == 10 && Shows(h, k) then h.recv else 0
  }

  predicate Quiescent(w: World) {
    forall i :: 0 <= i < |w.handlers| ==> w.handlers[i].rank <= 2 || w.handlers[i].rank == 10
  }

  lemma {:induction false} SumSame(hs: seq<Handler>, f: Handler -> int, g: Handler -> int)
    requires forall i :: 0 <= i < |hs| ==> f(hs[i]) == g(hs[i])
    ensures Sum(hs, f) == Sum(hs, g)
  {
    if hs != [] { SumSame(hs[..|hs| - 1], f, g); }
  }

  lemma TotalsWritten(w: World)
    requires Ok(w) && Quiescent(w)
    ensures w.totals == Triple(Sum(w.handlers, Relays()) % WRAP, Sum(w.handlers, BytesSent()) % WRAP,
                               Sum(w.handlers, BytesReceived()) % WRAP)
  {
    hide Sum, ModuleSum;
    assert Agrees(w, Completed) && Agrees(w, SentBytes) && Agrees(w, RecvBytes);
    SumSame(w.handlers, IntoTotal(Completed), Relays());
    SumSame(w.handlers, IntoTotal(SentBytes), BytesSent());
    SumSame(w.handlers, IntoTotal(RecvBytes), BytesReceived());
  }

  lemma EntryWritten(w: World, k: Key)
    requires Ok(w) && Quiescent(w) && k in w.modules
    ensures w.modules[k] == Triple(Sum(w.handlers, RelaysOf(k)) % WRAP, Sum(w.handlers, SentOf(k)) % WRAP,
                                   Sum(w.handlers, ReceivedOf(k)) % WRAP)
  {
    hide Sum, ModuleSum;
    assert EntryAgrees(w, k, Completed) && EntryAgrees(w, k, SentBytes) && EntryAgrees(w, k, RecvBytes);
    SumSame(w.handlers, IntoEntry(k, Completed), RelaysOf(k));
    SumSame(w.handlers, IntoEntry(k, SentBytes), SentOf(k));
    SumSame(w.handlers, IntoEntry(k, RecvBytes), ReceivedOf(k));
  }

  /** When no relay is reporting: the totals are the number of relays that have reported, the bytes they sent and the bytes
      they received; and the entry of each module and upstream has the same for its own relays. */
  lemma QuiescentCounts(acts: seq<Action>, k: Key)
    requires ValidTrace(BOOT, acts) && Quiescent(After(BOOT, acts))
    ensures var w := After(BOOT, acts);
      && w.totals == Triple(Sum(w.handlers, Relays()) % WRAP, Sum(w.handlers, BytesSent()) % WRAP,
                            Sum(w.handlers, BytesReceived()) % WRAP)
      && (k in w.modules ==>
            w.modules[k] == Triple(Sum(w.handlers, RelaysOf(k)) % WRAP, Sum(w.handlers, SentOf(k)) % WRAP,
                                   Sum(w.handlers, ReceivedOf(k)) % WRAP))
  {
    BootOk();
    hide Sum, ModuleSum, Ok, ValidTrace, After, Quiescent;
    OkTrace(BOOT, acts);
    TotalsWritten(After(BOOT, acts));
    if k in After(BOOT, acts).modules { EntryWritten(After(BOOT, acts), k); }
  }

  /** When no relay is reporting, every global total equals the sum over its modules. */
  lemma QuiescentTotals(acts: seq<Action>, which: Which)
    requires ValidTrace(BOOT, acts) && Quiescent(After(BOOT, acts))
    ensures var w := After(BOOT, acts);
      Get(w.totals, which) == ModuleSum(w.modules, which) % WRAP
  {
    CountersConserved(acts, which, ("", ""));
    NothingBetween(After(BOOT, acts).handlers, which);
  }
}
