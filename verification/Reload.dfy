/** Loading a configuration: `loadConfig`, `resolveUpstreams` and `updateUpstreamQueuesLocked` of
`pkg/server/server.go`, on the queue objects of `AdmissionQueue`. */
module Reload {
  import opened Sorting
  import opened Routing
  import opened AdmissionQueue
  import opened QueueModel
  import opened QueueRuns

  datatype UpstreamConf = UpstreamConf(
    address: string,
    modules: seq<string>,
    discover: bool,
    useProxyProtocol: bool,
    maxActive: nat,
    maxQueued: int)

  datatype Config = Config(
    listen: string,
    listenTls: string,
    listenHttp: string,
    motd: string,
    certFile: string,
    keyFile: string,
    upstreams: map<string, UpstreamConf>)

  /** What the world answers during one load: the order in which the map yields its keys, the certificate
      pair, the addresses that do not resolve, module discovery, and the two log files. */
  datatype Env = Env(
    order: seq<string>,
    certificate: Option<string>,
    badAddresses: set<string>,
    discovered: Option<map<string, seq<string>>>,
    accessLogOk: bool,
    errorLogOk: bool)

  // ---- the upstream list ----

  function UpstreamOf(name: string, v: UpstreamConf): Upstream {
    Upstream(name, Target(name, v.address, v.useProxyProtocol), v.modules, v.discover, v.maxActive, v.maxQueued)
  }

  function UpstreamsOf(c: Config, names: seq<string>): seq<Upstream>
    requires forall i :: 0 <= i < |names| ==> names[i] in c.upstreams
  {
    seq(|names|, i requires 0 <= i < |names| => UpstreamOf(names[i], c.upstreams[names[i]]))
  }

  function Resolved(u: Upstream, discovered: map<string, seq<string>>): Upstream {
    if !u.discover then u
    else u.(modules := if u.name in discovered then discovered[u.name] else [])
  }

  function ResolvedAll(ups: seq<Upstream>, discovered: map<string, seq<string>>): seq<Upstream> {
    seq(|ups|, i requires 0 <= i < |ups| => Resolved(ups[i], discovered))
  }

  /** `resolveUpstreams`. */
  method ResolveUpstreams(ups: seq<Upstream>, discovered: map<string, seq<string>>) returns (resolved: seq<Upstream>)
    ensures resolved == ResolvedAll(ups, discovered)
  {
    resolved := [];
    for i := 0 to |ups|
      invariant resolved == ResolvedAll(ups[..i], discovered)
    {
      var u := ups[i];
      var modules := u.modules;
      if u.discover {
        modules := if u.name in discovered then discovered[u.name] else [];
      }
      resolved := resolved + [Upstream(u.name, u.target, modules, u.discover, u.maxActive, u.maxQueued)];
    }
    assert ups[..|ups|] == ups;
  }

  lemma NamesKnown(c: Config, order: seq<string>)
    requires Enumerates(order, c.upstreams.Keys)
    ensures forall i :: 0 <= i < |SortStrings(order)| ==> SortStrings(order)[i] in c.upstreams
    ensures forall name :: name in c.upstreams ==> name in SortStrings(order)
    ensures Enumerates(SortStrings(order), c.upstreams.Keys)
  {
    var names := SortStrings(order);
    forall i | 0 <= i < |names| ensures names[i] in c.upstreams {
      assert names[i] in multiset(names);
    }
    forall name | name in c.upstreams ensures name in names {
      assert name in multiset(c.upstreams.Keys);
      assert name in multiset(names);
    }
  }

  /** The upstream list a load arrives at. */
  ghost function Configured(c: Config, order: seq<string>, discovered: map<string, seq<string>>): seq<Upstream>
    requires Enumerates(order, c.upstreams.Keys)
  {
    NamesKnown(c, order);
    ResolvedAll(UpstreamsOf(c, SortStrings(order)), discovered)
  }

  lemma ConfiguredDistinct(c: Config, order: seq<string>, discovered: map<string, seq<string>>)
    requires Enumerates(order, c.upstreams.Keys)
    ensures DistinctNames(Configured(c, order, discovered))
  {
    NamesKnown(c, order);
    var names, ups := SortStrings(order), Configured(c, order, discovered);
    forall i, j | 0 <= i < j < |ups| ensures ups[i].name != ups[j].name {
      OnceEach(names, c.upstreams.Keys, i, j);
    }
  }

  lemma ConfiguredNames(c: Config, order: seq<string>, discovered: map<string, seq<string>>, name: string)
    requires Enumerates(order, c.upstreams.Keys)
    ensures name in c.upstreams <==> Lists(Configured(c, order, discovered), name)
  {
    NamesKnown(c, order);
    var names, ups := SortStrings(order), Configured(c, order, discovered);
    if name in c.upstreams {
      var k :| 0 <= k < |names| && names[k] == name;
      assert ups[k].name == name;
    }
  }

  /** An upstream list is what the configuration says: each configured upstream once, in name order, with its address,
      PROXY setting and limits, and with the modules listed for it or, if it asks for discovery, the discovered ones. */
  ghost predicate FromConfig(c: Config, discovered: map<string, seq<string>>, ups: seq<Upstream>) {
    && (forall i, j :: 0 <= i < j < |ups| ==> ups[i].name != ups[j].name && StrLe(ups[i].name, ups[j].name))
    && (forall name :: name in c.upstreams <==> Lists(ups, name))
    && (forall i :: 0 <= i < |ups| ==> ups[i].name in c.upstreams && Entry(ups[i], c.upstreams[ups[i].name], discovered))
  }

  predicate Entry(u: Upstream, v: UpstreamConf, discovered: map<string, seq<string>>) {
    && u.target == Target(u.name, v.address, v.useProxyProtocol)
    && u.maxActive == v.maxActive && u.maxQueued == v.maxQueued && u.discover == v.discover
    && (!v.discover ==> u.modules == v.modules)
    && (v.discover ==> u.modules == if u.name in discovered then discovered[u.name] else [])
  }

  lemma ConfiguredSorted(c: Config, order: seq<string>, discovered: map<string, seq<string>>)
    requires Enumerates(order, c.upstreams.Keys)
    ensures var ups := Configured(c, order, discovered);
      forall i, j :: 0 <= i < j < |ups| ==> StrLe(ups[i].name, ups[j].name)
  {
    var names, ups := SortStrings(order), Configured(c, order, discovered);
    NamesKnown(c, order);
    StringsOrdered();
    SortSorts(order, StrLe);
    assert SortedBy(names, StrLe);
    hide Sort, StrLe, TotalOrder;
    forall i, j | 0 <= i < j < |ups| ensures StrLe(ups[i].name, ups[j].name) {
      assert ups[i].name == names[i] && ups[j].name == names[j];
    }
  }

  lemma ConfiguredEntries(c: Config, order: seq<string>, discovered: map<string, seq<string>>)
    requires Enumerates(order, c.upstreams.Keys)
    ensures var ups := Configured(c, order, discovered);
      forall i :: 0 <= i < |ups| ==> ups[i].name in c.upstreams && Entry(ups[i], c.upstreams[ups[i].name], discovered)
  {
    hide SortStrings, Enumerates;
    NamesKnown(c, order);
  }

  lemma ConfiguredMeans(c: Config, order: seq<string>, discovered: map<string, seq<string>>)
    requires Enumerates(order, c.upstreams.Keys)
    ensures FromConfig(c, discovered, Configured(c, order, discovered))
  {
    hide Configured, Enumerates, Entry, StrLe;
    ConfiguredSorted(c, order, discovered);
    ConfiguredEntries(c, order, discovered);
    ConfiguredDistinct(c, order, discovered);
    forall name ensures name in c.upstreams <==> Lists(Configured(c, order, discovered), name) {
      ConfiguredNames(c, order, discovered, name);
    }
  }

  lemma NewName(ups: seq<Upstream>, i: nat)
    requires DistinctNames(ups) && i < |ups|
    ensures !Lists(ups[..i], ups[i].name)
    ensures forall name :: Lists(ups[..i + 1], name) <==> Lists(ups[..i], name) || name == ups[i].name
    ensures forall k :: 0 <= k < i ==> ups[k].name != ups[i].name
  {
    assert ups[..i + 1] == ups[..i] + [ups[i]];
    forall name ensures Lists(ups[..i + 1], name) <==> Lists(ups[..i], name) || name == ups[i].name {
      if Lists(ups[..i], name) {
        var k :| 0 <= k < i && ups[..i][k].name == name;
        assert ups[..i + 1][k].name == name;
      }
      assert ups[..i + 1][i] == ups[i];
    }
  }

  lemma TableUnique(ups: seq<Upstream>, t1: map<string, seq<Target>>, t2: map<string, seq<Target>>)
    requires IsModuleTable(ups, t1) && IsModuleTable(ups, t2)
    ensures t1 == t2
  {
    assert forall m :: m in t1 <==> m in t2;
  }

  lemma SameSorted(o1: seq<string>, o2: seq<string>, keys: set<string>)
    requires Enumerates(o1, keys) && Enumerates(o2, keys)
    ensures SortStrings(o1) == SortStrings(o2)
  {
    StringsOrdered();
    SortIgnoresOrder(o1, o2, StrLe);
  }

  lemma SameList(c: Config, discovered: map<string, seq<string>>, o1: seq<string>, o2: seq<string>)
    requires Enumerates(o1, c.upstreams.Keys) && Enumerates(o2, c.upstreams.Keys)
    ensures Configured(c, o1, discovered) == Configured(c, o2, discovered)
  {
    hide Enumerates, SortStrings, ResolvedAll, UpstreamsOf;
    SameSorted(o1, o2, c.upstreams.Keys);
  }

  lemma TargetChosen(table: map<string, seq<Target>>, m: string, ip: seq<Byte>)
    requires m in table && table[m] != []
    ensures |table[m]| < TWO32 ==> ChosenTarget(table, m, ip).Some?
  {
    hide ChooseTarget;
  }

  /** Routing depends on the content of the configuration alone: with the same discovery results, whatever
      order the map yields its keys in, the upstream list and the module table come out the same, so the
      same client address asking for the same module is sent to the same target. */
  lemma RoutingIgnoresMapOrder(c: Config, discovered: map<string, seq<string>>, o1: seq<string>, o2: seq<string>,
                               t1: map<string, seq<Target>>, t2: map<string, seq<Target>>, m: string, ip: seq<Byte>)
    requires Enumerates(o1, c.upstreams.Keys) && Enumerates(o2, c.upstreams.Keys)
    requires IsModuleTable(Configured(c, o1, discovered), t1) && IsModuleTable(Configured(c, o2, discovered), t2)
    ensures Configured(c, o1, discovered) == Configured(c, o2, discovered)
    ensures t1 == t2
    ensures ChosenTarget(t1, m, ip) == ChosenTarget(t2, m, ip)
    ensures m in t1 && |t1[m]| < TWO32 ==> ChosenTarget(t1, m, ip).Some?
  {
    hide Configured, ChosenTarget, IsModuleTable;
    SameList(c, discovered, o1, o2);
    TableUnique(Configured(c, o1, discovered), t1, t2);
    if m in t1 {
      TableListsNonEmpty(Configured(c, o1, discovered), t1, m);
      TargetChosen(t1, m, ip);
    }
  }

  // ---- listen addresses ----

  /** Which of the three listen addresses. */
  datatype Which = Listen | ListenTls | ListenHttp

  function AddressOf(c: Config, which: Which): string {
    match which
    case Listen => c.listen
    case ListenTls => c.listenTls
    case ListenHttp => c.listenHttp
  }

  function Picked(cs: seq<Config>, which: Which): seq<string> {
    seq(|cs|, i requires 0 <= i < |cs| => AddressOf(cs[i], which))
  }

  /** The first address that is not empty, if there is one. */
  function FirstGiven(addresses: seq<string>): (a: string)
    ensures a == "" <==> forall i :: 0 <= i < |addresses| ==> addresses[i] == ""
  {
    if addresses == [] then ""
    else if addresses[0] != "" then addresses[0]
    else
      assert forall i :: 1 <= i < |addresses| ==> addresses[i] == addresses[1..][i - 1];
      FirstGiven(addresses[1..])
  }

  lemma {:induction false} FirstGivenMore(addresses: seq<string>, a: string)
    ensures FirstGiven(addresses + [a]) == if FirstGiven(addresses) == "" then a else FirstGiven(addresses)
  {
    if addresses == [] {
      assert [] + [a] == [a];
    } else {
      assert (addresses + [a])[1..] == addresses[1..] + [a];
      FirstGivenMore(addresses[1..], a);
    }
  }

  /** Whatever configurations come later, an address that has been given stays. */
  lemma {:induction false} FirstGivenStays(addresses: seq<string>, later: seq<string>)
    requires FirstGiven(addresses) != ""
    ensures FirstGiven(addresses + later) == FirstGiven(addresses)
    decreases |later|
  {
    if later == [] {
      assert addresses + later == addresses;
    } else {
      var front, last := later[..|later| - 1], later[|later| - 1];
      FirstGivenStays(addresses, front);
      FirstGivenMore(addresses + front, last);
      assert addresses + later == (addresses + front) + [last];
    }
  }

  lemma PickedMore(cs: seq<Config>, c: Config)
    ensures Picked(cs + [c], Listen) == Picked(cs, Listen) + [c.listen]
    ensures Picked(cs + [c], ListenTls) == Picked(cs, ListenTls) + [c.listenTls]
    ensures Picked(cs + [c], ListenHttp) == Picked(cs, ListenHttp) + [c.listenHttp]
  {
  }

  // ---- the server ----

  /** Everything a load can be refused for before it touches the server. */
  predicate Preparable(c: Config, env: Env, started: bool, tlsListening: bool, openLog: bool) {
    && c.upstreams != map[]
    && (started ==> (tlsListening <==> c.listenTls != ""))
    && (c.listenTls != "" ==> c.certFile != "" && c.keyFile != "" && env.certificate.Some?)
    && (forall name :: name in c.upstreams ==>
          && (c.upstreams[name].modules != [] || c.upstreams[name].discover)
          && c.upstreams[name].address !in env.badAddresses)
    && (openLog ==> env.discovered.Some?)
  }

  predicate Acceptable(c: Config, env: Env, started: bool, tlsListening: bool, openLog: bool) {
    Preparable(c, env, started, tlsListening, openLog) && (openLog ==> env.accessLogOk && env.errorLogOk)
  }

  function DiscoveredIn(env: Env, openLog: bool): map<string, seq<string>> {
    if openLog && env.discovered.Some? then env.discovered.value else map[]
  }

  class Server {
    var modules: map<string, seq<Target>>
    var upstreams: seq<Upstream>
    var queues: map<string, Queue>
    var motd: string
    var certificate: Option<string>
    var listenAddr: string
    var tlsListenAddr: string
    var httpListenAddr: string
    var started: bool
    var tlsListening: bool
    /** The configurations whose listen addresses have been looked at, in order. */
    ghost var offered: seq<Config>

    /** Every queue is in order, and no two names share one. */
    static ghost predicate QueuesOk(qs: map<string, Queue>)
      reads qs.Values, set q, i | q in qs.Values && 0 <= i < |q.channels| :: q.channels[i]
    {
      && (forall name :: name in qs ==> qs[name].Valid())
      && (forall a, b :: a in qs && b in qs && a != b ==> qs[a] != qs[b])
    }

    /** Exactly the listed upstreams have a queue, with the configured limits. */
    static ghost predicate QueuesMatch(ups: seq<Upstream>, qs: map<string, Queue>)
      reads qs.Values
    {
      && (forall name :: name in qs ==> Lists(ups, name))
      && (forall i :: 0 <= i < |ups| ==>
            && ups[i].name in qs
            && qs[ups[i].name].max == ups[i].maxActive
            && qs[ups[i].name].maxQueued == ups[i].maxQueued)
    }

    /** The module table is the inverse index of the upstream list, and the queues fit that list. */
    ghost predicate Valid()
      reads `modules, `upstreams, `queues, queues.Values
      reads set q, i | q in queues.Values && 0 <= i < |q.channels| :: q.channels[i]
    {
      && DistinctNames(upstreams)
      && IsModuleTable(upstreams, modules)
      && QueuesMatch(upstreams, queues)
      && QueuesOk(queues)
    }

    /** Every listen address is the first one that any configuration looked at so far has given. */
    ghost predicate AddressesOk()
      reads `listenAddr, `tlsListenAddr, `httpListenAddr, `offered
    {
      && listenAddr == FirstGiven(Picked(offered, Listen))
      && tlsListenAddr == FirstGiven(Picked(offered, ListenTls))
      && httpListenAddr == FirstGiven(Picked(offered, ListenHttp))
    }

    constructor ()
      ensures Valid() && AddressesOk() && queues == map[] && upstreams == [] && offered == []
    {
      modules, upstreams, queues := map[], [], map[];
      motd, certificate := "", None;
      listenAddr, tlsListenAddr, httpListenAddr := "", "", "";
      started, tlsListening := false, false;
      offered := [];
    }

    /** Every routed name has targets, and every target's upstream has a queue with the limits configured for it. */
    lemma TargetsHaveQueues(m: string, k: nat)
      requires Valid() && m in modules
      ensures modules[m] != []
      ensures k < |modules[m]| ==>
        && modules[m][k].upstream in queues
        && exists i :: 0 <= i < |upstreams| && m in upstreams[i].modules && upstreams[i].target == modules[m][k]
             && queues[modules[m][k].upstream].max == upstreams[i].maxActive
             && queues[modules[m][k].upstream].maxQueued == upstreams[i].maxQueued
    {
      hide QueuesOk;
      TableListsNonEmpty(upstreams, modules, m);
    }

    ghost function Models(): map<string, State>
      reads `queues, queues.Values
    {
      map name | name in queues :: queues[name].Model()
    }

    /** What a load makes of one queue: re-limited with its occupants kept, or new. */
    static ghost predicate Relimited(before: map<string, State>, u: Upstream, q: Queue)
      reads q
    {
      q.Model() == if u.name in before then QueueModel.SetMax(before[u.name], u.maxActive, u.maxQueued)
                   else Init(u.maxActive, u.maxQueued)
    }

    /** What a load that found the queues `before`, in the states `models`, has put in place. */
    static ghost predicate Requeued(before: map<string, Queue>, models: map<string, State>,
                                    ups: seq<Upstream>, qs: map<string, Queue>)
      reads qs.Values
    {
      && (forall name :: name in qs ==> Lists(ups, name))
      && (forall name :: name in qs ==> if name in before then qs[name] == before[name] else qs[name] !in before.Values)
      && (forall i :: 0 <= i < |ups| ==> ups[i].name in qs && Relimited(models, ups[i], qs[ups[i].name]))
    }

    static lemma RequeuedMatches(before: map<string, Queue>, models: map<string, State>,
                                 ups: seq<Upstream>, qs: map<string, Queue>)
      requires Requeued(before, models, ups, qs)
      ensures QueuesMatch(ups, qs)
    {
    }

    static ghost predicate HasLimits(q: Queue, u: Upstream)
      reads q`max, q`maxQueued
    {
      q.max == u.maxActive && q.maxQueued == u.maxQueued
    }

    static ghost predicate Unused(q: Queue)
      reads q`active, q`queued, q`channels, q`published, q`released
    {
      q.active == [] && q.queued == [] && q.channels == [] && q.published == map[] && q.released == {}
    }

    /** One turn of the loop: find the queue and re-limit it, or make a new one. */
    method QueueFor(u: Upstream) returns (q: Queue)
      requires u.name in queues ==> queues[u.name].Valid()
      modifies (if u.name in queues then {queues[u.name]} else {})`max,
               (if u.name in queues then {queues[u.name]} else {})`maxQueued
      ensures HasLimits(q, u)
      ensures if u.name in queues then q == queues[u.name] else fresh(q) && Unused(q)
    {
      if u.name in queues {
        q := queues[u.name];
        q.SetMax(u.maxActive, u.maxQueued);
      } else {
        q := new Queue(u.maxActive, u.maxQueued);
      }
    }

    /** The loop of `updateUpstreamQueuesLocked`. */
    method BuildQueues(ups: seq<Upstream>) returns (qs: map<string, Queue>)
      requires QueuesOk(queues) && DistinctNames(ups)
      modifies queues.Values`max, queues.Values`maxQueued
      ensures forall name :: name in qs ==> Lists(ups, name)
      ensures forall k :: 0 <= k < |ups| ==> ups[k].name in qs && HasLimits(qs[ups[k].name], ups[k])
      ensures forall name :: name in qs && name in queues ==> qs[name] == queues[name]
      ensures forall name :: name in qs && name !in queues ==> fresh(qs[name]) && Unused(qs[name])
      ensures forall a, b :: a in qs && b in qs && a != b ==> qs[a] != qs[b]
    {
      hide Inv, Queue.Valid, HasLimits, Unused, Lists, DistinctNames;
      qs := map[];
      for i := 0 to |ups|
        invariant forall name :: name in qs ==> Lists(ups[..i], name)
        invariant forall k :: 0 <= k < i ==> ups[k].name in qs && HasLimits(qs[ups[k].name], ups[k])
        invariant forall name :: name in qs && name in queues ==> qs[name] == queues[name]
        invariant forall name :: name in qs && name !in queues ==> fresh(qs[name]) && Unused(qs[name])
        invariant forall a, b :: a in qs && b in qs && a != b ==> qs[a] != qs[b]
        invariant forall name :: name in queues && name !in qs ==>
          queues[name].max == old(queues[name].max) && queues[name].maxQueued == old(queues[name].maxQueued)
      {
        NewName(ups, i);
        var u := ups[i];
        assert u.name in queues ==> queues[u.name].Valid() by {
          assert u.name in queues ==> old(queues[u.name].Valid());
        }
        var q := QueueFor(u);
        qs := qs[u.name := q];
      }
      assert ups[..|ups|] == ups;
    }

    /** `updateUpstreamQueuesLocked`: a surviving name keeps its queue object, re-limited in place. */
    method UpdateQueues(ups: seq<Upstream>) returns (qs: map<string, Queue>)
      requires QueuesOk(queues) && DistinctNames(ups)
      modifies queues.Values`max, queues.Values`maxQueued
      ensures Requeued(queues, old(Models()), ups, qs)
      ensures forall name :: name in qs && name !in queues ==> fresh(qs[name])
      ensures QueuesOk(qs)
    {
      hide Inv, Queue.Valid, HasLimits, Unused, Lists, DistinctNames, Relimited;
      qs := BuildQueues(ups);
      ghost var models := old(Models());
      forall name | name in qs ensures qs[name].Valid() && Taken(models, name, qs[name]) {
        if name in queues { StillInOrder(qs[name]); } else { UnusedInOrder(qs[name]); }
      }
      forall k | 0 <= k < |ups| ensures Relimited(models, ups[k], qs[ups[k].name]) {
        LimitsTaken(models, ups[k], qs[ups[k].name]);
      }
    }

    /** A surviving queue but for its limits, or a new one. */
    static ghost predicate Taken(models: map<string, State>, name: string, q: Queue)
      reads q
    {
      q.Model() == if name in models then QueueModel.SetMax(models[name], q.max, q.maxQueued) else Init(q.max, q.maxQueued)
    }

    static lemma LimitsTaken(models: map<string, State>, u: Upstream, q: Queue)
      requires HasLimits(q, u) && Taken(models, u.name, q)
      ensures Relimited(models, u, q)
    {
    }

    static lemma UnusedInOrder(q: Queue)
      requires Unused(q)
      ensures q.Valid() && q.Model() == Init(q.max, q.maxQueued)
    {
    }

    /** A queue of which only the limits have changed. */
    static twostate lemma StillInOrder(q: Queue)
      requires old(q.Valid())
      requires q.active == old(q.active) && q.queued == old(q.queued) && q.channels == old(q.channels)
      requires q.published == old(q.published) && q.released == old(q.released)
      requires forall c :: c in q.channels ==> unchanged(c)
      ensures q.Valid() && q.Model() == QueueModel.SetMax(old(q.Model()), q.max, q.maxQueued)
    {
      hide Inv;
      assert old(q.Wired());
      forall t | 0 <= t < |q.channels|
        ensures t in q.published && q.channels[t].ticket == t && q.channels[t].owner == q
        ensures q.Carries(q.channels[t], q.published[t])
      {
        assert q.channels[t] in q.channels;
        assert old(q.Carries(q.channels[t], q.published[t]));
      }
      forall i | 0 <= i < |q.active| ensures q.Handed(q.active[i]) {
        assert old(q.Handed(q.active[i]));
      }
      forall i | 0 <= i < |q.queued| ensures q.Handed(q.queued[i]) {
        assert old(q.Handed(q.queued[i]));
      }
      StepInv(old(q.Model()), SetMaxOp(q.max, q.maxQueued));
    }

    /** The checks on one upstream at a time, in name order, before the lock is taken. */
    static method CheckUpstreams(c: Config, env: Env) returns (ok: bool, ups: seq<Upstream>)
      requires Enumerates(env.order, c.upstreams.Keys)
      ensures ok <==> forall name :: name in c.upstreams ==>
                        && (c.upstreams[name].modules != [] || c.upstreams[name].discover)
                        && c.upstreams[name].address !in env.badAddresses
      ensures ok ==> (forall i :: 0 <= i < |SortStrings(env.order)| ==> SortStrings(env.order)[i] in c.upstreams)
      ensures ok ==> ups == UpstreamsOf(c, SortStrings(env.order))
    {
      var names := SortStrings(env.order);
      NamesKnown(c, env.order);
      ups := [];
      for i := 0 to |names|
        invariant ups == UpstreamsOf(c, names[..i])
        invariant forall k :: 0 <= k < i ==>
          && (c.upstreams[names[k]].modules != [] || c.upstreams[names[k]].discover)
          && c.upstreams[names[k]].address !in env.badAddresses
      {
        var v := c.upstreams[names[i]];
        if (v.modules == [] && !v.discover) || v.address in env.badAddresses {
          return false, ups;
        }
        ups := ups + [UpstreamOf(names[i], v)];
      }
      assert names[..|names|] == names;
      forall name | name in c.upstreams
        ensures c.upstreams[name].modules != [] || c.upstreams[name].discover
        ensures c.upstreams[name].address !in env.badAddresses
      {
        var k :| 0 <= k < |names| && names[k] == name;
      }
      return true, ups;
    }

    /** `loadConfig` up to the point where it starts to change the server. */
    static method Prepare(c: Config, env: Env, started: bool, tlsListening: bool, openLog: bool)
        returns (ok: bool, table: map<string, seq<Target>>, resolved: seq<Upstream>, cert: Option<string>)
      requires Enumerates(env.order, c.upstreams.Keys)
      ensures ok <==> Preparable(c, env, started, tlsListening, openLog)
      ensures ok ==>
        && resolved == Configured(c, env.order, DiscoveredIn(env, openLog))
        && IsModuleTable(resolved, table) && DistinctNames(resolved)
        && cert == if c.listenTls == "" then None else env.certificate
    {
      hide IsModuleTable, DistinctNames;
      ok, table, resolved, cert := false, map[], [], None;
      if c.upstreams == map[] {
        return;
      }
      if started && (tlsListening != (c.listenTls != "")) {
        return;
      }
      if c.listenTls != "" {
        if c.certFile == "" || c.keyFile == "" || env.certificate.None? {
          return;
        }
        cert := env.certificate;
      }
      var fine, ups := CheckUpstreams(c, env);
      if !fine {
        return;
      }
      var discovered := map[];
      if openLog {
        if env.discovered.None? {
          return;
        }
        discovered := env.discovered.value;
      }
      resolved := ResolveUpstreams(ups, discovered);
      table := BuildModuleTargets(resolved);
      ConfiguredDistinct(c, env.order, discovered);
      ok := true;
    }

    /** Exactly the configured names have queues, with the configured limits. */
    static ghost predicate LimitsFrom(c: Config, qs: map<string, Queue>)
      reads qs.Values
    {
      forall name :: name in c.upstreams <==> name in qs && HasConfLimits(c, name, qs[name])
    }

    static ghost predicate HasConfLimits(c: Config, name: string, q: Queue)
      reads q
    {
      name in c.upstreams && q.max == c.upstreams[name].maxActive && q.maxQueued == c.upstreams[name].maxQueued
    }

    /** A queue that was there is there still, with nothing but its limits changed; a new one is empty. */
    static ghost predicate Survivors(before: map<string, Queue>, models: map<string, State>, qs: map<string, Queue>)
      reads qs.Values
    {
      forall name :: name in qs ==> SurvivesAs(before, models, name, qs[name])
    }

    static ghost predicate SurvivesAs(before: map<string, Queue>, models: map<string, State>, name: string, q: Queue)
      reads q
    {
      if name in before then
        && q == before[name] && name in models
        && q.Model() == models[name].(max := q.max, maxQueued := q.maxQueued)
      else
        q.Model() == State(q.max, q.maxQueued, [], [], 0, map[], {})
    }

    static lemma ConfigPlaced(c: Config, discovered: map<string, seq<string>>, ups: seq<Upstream>,
                              before: map<string, Queue>, models: map<string, State>, qs: map<string, Queue>)
      requires FromConfig(c, discovered, ups) && QueuesMatch(ups, qs) && Requeued(before, models, ups, qs)
      requires models.Keys == before.Keys
      ensures LimitsFrom(c, qs) && Survivors(before, models, qs)
      ensures forall name :: name in qs ==> name in c.upstreams
    {
      hide StrLe;
      forall name | name in c.upstreams ensures name in qs && HasConfLimits(c, name, qs[name]) {
        assert Lists(ups, name);
        var i :| 0 <= i < |ups| && ups[i].name == name;
      }
      forall name | name in qs
        ensures name in c.upstreams && SurvivesAs(before, models, name, qs[name])
      {
        assert Lists(ups, name);
        var i :| 0 <= i < |ups| && ups[i].name == name;
        assert Relimited(models, ups[i], qs[name]);
      }
    }

    /** The assignments at the end of a successful load. */
    method Commit(motd: string, table: map<string, seq<Target>>, resolved: seq<Upstream>, cert: Option<string>)
      requires QueuesOk(queues) && DistinctNames(resolved) && IsModuleTable(resolved, table)
      modifies `modules, `upstreams, `queues, `motd, `certificate, queues.Values`max, queues.Values`maxQueued
      ensures Valid() && modules == table && upstreams == resolved && this.motd == motd && certificate == cert
      ensures Requeued(old(queues), old(Models()), resolved, queues)
    {
      hide Inv, Queue.Valid, Queue.Model, QueuesOk, QueuesMatch, Requeued, IsModuleTable, DistinctNames;
      var qs := UpdateQueues(resolved);
      RequeuedMatches(queues, old(Models()), resolved, qs);
      this.motd, modules, upstreams, queues, certificate := motd, table, resolved, qs, cert;
    }

    /** Listen addresses are taken from the first configuration that gives one. */
    method SetAddresses(c: Config)
      requires AddressesOk()
      modifies `listenAddr, `tlsListenAddr, `httpListenAddr, `offered
      ensures AddressesOk() && offered == old(offered) + [c]
    {
      FirstGivenMore(Picked(offered, Listen), c.listen);
      FirstGivenMore(Picked(offered, ListenTls), c.listenTls);
      FirstGivenMore(Picked(offered, ListenHttp), c.listenHttp);
      PickedMore(offered, c);
      listenAddr := if listenAddr == "" then c.listen else listenAddr;
      tlsListenAddr := if tlsListenAddr == "" then c.listenTls else tlsListenAddr;
      httpListenAddr := if httpListenAddr == "" then c.listenHttp else httpListenAddr;
      offered := offered + [c];
    }

    /** `loadConfig`. It succeeds exactly when the configuration is acceptable. A failed load leaves modules,
        upstreams, queues with their limits, message of the day and certificate as they were; a successful one
        replaces them, and a surviving upstream name keeps its queue object with everyone in it. */
    method LoadConfig(c: Config, env: Env, openLog: bool) returns (ok: bool)
      requires Valid() && AddressesOk() && Enumerates(env.order, c.upstreams.Keys)
      modifies this, queues.Values`max, queues.Values`maxQueued
      ensures Valid() && AddressesOk()
      ensures offered == old(offered)
                + if Preparable(c, env, old(started), old(tlsListening), openLog) then [c] else []
      ensures ok <==> Acceptable(c, env, old(started), old(tlsListening), openLog)
      ensures !ok ==>
        && modules == old(modules) && upstreams == old(upstreams) && queues == old(queues)
        && Models() == old(Models()) && motd == old(motd) && certificate == old(certificate)
      ensures ok ==>
        && upstreams == Configured(c, env.order, DiscoveredIn(env, openLog))
        && motd == c.motd && certificate == (if c.listenTls == "" then None else env.certificate)
        && FromConfig(c, DiscoveredIn(env, openLog), upstreams)
        && LimitsFrom(c, queues) && queues.Keys == c.upstreams.Keys
        && Requeued(old(queues), old(Models()), upstreams, queues)
        && Survivors(old(queues), old(Models()), queues)
        && (started ==> (tlsListening <==> certificate.Some?))
      ensures started == old(started) && tlsListening == old(tlsListening)
    {
      hide Inv, Queue.Valid, Queue.Model, QueuesOk, QueuesMatch, IsModuleTable, DistinctNames;
      hide Preparable, Configured, Requeued, AddressesOk, FirstGiven, Picked, FromConfig, LimitsFrom, Survivors;
      var table, resolved, cert;
      ok, table, resolved, cert := Prepare(c, env, started, tlsListening, openLog);
      if !ok {
        return;
      }
      PreparableTls(c, env, started, tlsListening, openLog);
      SetAddresses(c);
      if openLog && !(env.accessLogOk && env.errorLogOk) {
        return false;
      }
      Commit(c.motd, table, resolved, cert);
      ConfiguredMeans(c, env.order, DiscoveredIn(env, openLog));
      Placed(c, DiscoveredIn(env, openLog), old(queues), old(Models()));
    }

    static lemma PreparableTls(c: Config, env: Env, started: bool, tlsListening: bool, openLog: bool)
      requires Preparable(c, env, started, tlsListening, openLog)
      ensures started ==> (tlsListening <==> c.listenTls != "")
      ensures c.listenTls != "" ==> env.certificate.Some?
    {
    }

    lemma Placed(c: Config, discovered: map<string, seq<string>>, before: map<string, Queue>, models: map<string, State>)
      requires Valid() && FromConfig(c, discovered, upstreams) && Requeued(before, models, upstreams, queues)
      requires models.Keys == before.Keys
      ensures LimitsFrom(c, queues) && queues.Keys == c.upstreams.Keys && Survivors(before, models, queues)
    {
      hide FromConfig, Requeued, QueuesMatch, QueuesOk;
      ConfigPlaced(c, discovered, upstreams, before, models, queues);
    }

    // ---- what relays do to the queues between two loads ----

    /** Every queue but one is as it was. */
    twostate predicate OthersKept(q: Queue)
      reads `queues, queues.Values
    {
      && queues == old(queues)
      && forall name :: name in queues && queues[name] != q ==> Kept(queues[name])
    }

    /** `getQueueForUpstream` and the `Acquire` that follows it, with no load in between. */
    method AcquireFor(upstream: string) returns (handle: Handle)
      requires Valid() && upstream in queues
      modifies queues[upstream]
      ensures Valid() && handle.q == queues[upstream] && handle.q.Valid() && handle.Valid() && fresh(handle)
      ensures queues[upstream].Model() == QueueModel.Acquire(old(queues[upstream].Model()))
      ensures OthersKept(queues[upstream])
    {
      hide Inv;
      var q := queues[upstream];
      handle := q.Acquire();
      forall name | name in queues ensures queues[name].Valid() {
        if queues[name] != q {
          assert old(queues[name].Valid());
        }
      }
    }

    static twostate predicate SameLimits(q: Queue)
      reads q
    {
      q.max == old(q.max) && q.maxQueued == old(q.maxQueued)
    }

    static twostate predicate Kept(q: Queue)
      reads q
    {
      SameLimits(q) && q.Model() == old(q.Model())
    }

    /** A release leaves every other queue alone, for no two queues share a channel. */
    static method ReleaseBeside(handle: Handle, ghost others: set<Queue>)
      requires handle.q.Valid() && handle.Valid()
      requires handle.q !in others && forall o :: o in others ==> o.Valid()
      modifies handle`released, handle.q, handle.q.channels
      ensures handle.q.Valid() && handle.Valid() && SameLimits(handle.q)
      ensures handle.q.Model() == QueueModel.Release(old(handle.q.Model()), handle.ch.ticket)
      ensures forall o :: o in others ==> o.Valid() && Kept(o)
    {
      hide Inv, Queue.Valid, Queue.Model, Handle.Valid, QueueModel.Release;
      ghost var q := handle.q;
      forall o | o in others
        ensures forall i, j :: 0 <= i < |o.channels| && 0 <= j < |q.channels| ==> o.channels[i] != q.channels[j]
      {
        QueuesApart(o, q);
      }
      ReleasedLimits(q, handle);
      handle.Release();
      LimitsOf(q);
      forall o | o in others ensures o.Valid() && o.Model() == old(o.Model()) {
        assert old(o.Valid());
      }
    }

    static lemma QueuesApart(a: Queue, b: Queue)
      requires a.Valid() && b.Valid() && a != b
      ensures forall i, j :: 0 <= i < |a.channels| && 0 <= j < |b.channels| ==> a.channels[i] != b.channels[j]
    {
      ChannelsApart(a, b);
    }

    static lemma LimitsOf(q: Queue)
      ensures q.Model().max == q.max && q.Model().maxQueued == q.maxQueued
    {
    }

    /** The deferred `Release` of a relay, on a queue that this server may have replaced by now. */
    method GiveBack(handle: Handle)
      requires Valid() && handle.q.Valid() && handle.Valid()
      modifies handle`released, handle.q, handle.q.channels
      ensures Valid() && handle.q.Valid() && handle.Valid()
      ensures handle.q.Model() == QueueModel.Release(old(handle.q.Model()), handle.ch.ticket)
      ensures OthersKept(handle.q)
    {
      hide Queue.Valid, Queue.Model, Handle.Valid, IsModuleTable, DistinctNames, QueueModel.Release, QueuesMatch, Fits;
      ghost var q, limits := handle.q, Limits(queues);
      LimitsFit(upstreams, queues);
      ReleaseBeside(handle, queues.Values - {q});
      assert Limits(queues) == limits;
      LimitsFit(upstreams, queues);
      assert forall name :: name in queues && queues[name] != q ==> queues[name] in queues.Values - {q};
    }

    static lemma ReleasedLimits(q: Queue, handle: Handle)
      requires q == handle.q && q.Valid() && handle.Valid()
      ensures var r := QueueModel.Release(q.Model(), handle.ch.ticket); r.max == q.max && r.maxQueued == q.maxQueued
    {
      LimitsStay(q.Model(), handle.ch.ticket);
    }

    static ghost function Limits(qs: map<string, Queue>): map<string, (nat, int)>
      reads qs.Values
    {
      map name | name in qs :: (qs[name].max, qs[name].maxQueued)
    }

    /** Exactly the listed upstreams have limits, the configured ones. */
    static ghost predicate Fits(ups: seq<Upstream>, limits: map<string, (nat, int)>) {
      && (forall name :: name in limits ==> Lists(ups, name))
      && (forall i :: 0 <= i < |ups| ==>
            ups[i].name in limits && limits[ups[i].name] == (ups[i].maxActive, ups[i].maxQueued))
    }

    static lemma LimitsFit(ups: seq<Upstream>, qs: map<string, Queue>)
      ensures QueuesMatch(ups, qs) <==> Fits(ups, Limits(qs))
    {
    }

    static lemma LimitsStay(s: State, t: Ticket)
      requires Inv(s) && t < s.next
      ensures QueueModel.Release(s, t).max == s.max && QueueModel.Release(s, t).maxQueued == s.maxQueued
    {
      if t !in s.released { ReleaseShape(s, t); }
    }
  }
}
