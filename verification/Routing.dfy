/** From the upstream list to a target: the module table and the client-address hash of
`pkg/server/server.go`. */
module Routing {
  import opened Sorting

  datatype Target = Target(upstream: string, addr: string, useProxyProtocol: bool)

  datatype Upstream = Upstream(
    name: string,
    target: Target,
    modules: seq<string>,
    discover: bool,
    maxActive: nat,
    maxQueued: int)

  // ---- the module table ----

  function Repeat<T>(x: T, n: nat): seq<T> {
    seq(n, _ => x)
  }

  /** The targets of one module: one entry for each time an upstream lists it, in upstream order. */
  function TargetsOf(ups: seq<Upstream>, m: string): seq<Target> {
    if ups == [] then []
    else
      var last := ups[|ups| - 1];
      TargetsOf(ups[..|ups| - 1], m) + Repeat(last.target, multiset(last.modules)[m])
  }

  ghost predicate Offered(ups: seq<Upstream>, m: string) {
    exists i :: 0 <= i < |ups| && m in ups[i].modules
  }

  ghost predicate IsModuleTable(ups: seq<Upstream>, table: map<string, seq<Target>>) {
    && (forall m :: m in table <==> Offered(ups, m))
    && (forall m :: m in table ==> table[m] == TargetsOf(ups, m))
  }

  lemma OfferedOneMore(ups: seq<Upstream>, m: string)
    requires ups != []
    ensures Offered(ups, m) <==> Offered(ups[..|ups| - 1], m) || m in ups[|ups| - 1].modules
  {
    var front, last := ups[..|ups| - 1], ups[|ups| - 1];
    if Offered(front, m) {
      var i :| 0 <= i < |front| && m in front[i].modules;
      assert m in ups[i].modules;
    }
    if Offered(ups, m) && m !in last.modules {
      var i :| 0 <= i < |ups| && m in ups[i].modules;
      assert m in front[i].modules;
    }
  }

  lemma {:induction false} TargetsOffered(ups: seq<Upstream>, m: string)
    ensures TargetsOf(ups, m) != [] <==> Offered(ups, m)
  {
    if ups == [] {
    } else {
      var last := ups[|ups| - 1];
      TargetsOffered(ups[..|ups| - 1], m);
      OfferedOneMore(ups, m);
      hide Offered;
      assert m in last.modules <==> multiset(last.modules)[m] > 0;
    }
  }

  /** A table holds a module under exactly the targets that offer it, so no list is empty. */
  lemma TableListsNonEmpty(ups: seq<Upstream>, table: map<string, seq<Target>>, m: string)
    requires IsModuleTable(ups, table) && m in table
    ensures table[m] != []
    ensures forall k :: 0 <= k < |table[m]| ==>
              exists i :: 0 <= i < |ups| && ups[i].target == table[m][k] && m in ups[i].modules
  {
    TargetsOffered(ups, m);
    TargetsComeFrom(ups, m);
  }

  lemma {:induction false} TargetsComeFrom(ups: seq<Upstream>, m: string)
    ensures forall k :: 0 <= k < |TargetsOf(ups, m)| ==>
              exists i :: 0 <= i < |ups| && ups[i].target == TargetsOf(ups, m)[k] && m in ups[i].modules
  {
    if ups == [] {
      assert TargetsOf(ups, m) == [];
    } else {
      var front, last := ups[..|ups| - 1], ups[|ups| - 1];
      TargetsComeFrom(front, m);
      var ts := TargetsOf(front, m);
      forall k | 0 <= k < |TargetsOf(ups, m)|
        ensures exists i :: 0 <= i < |ups| && ups[i].target == TargetsOf(ups, m)[k] && m in ups[i].modules
      {
        if k < |ts| {
          var i :| 0 <= i < |front| && front[i].target == ts[k] && m in front[i].modules;
          assert ups[i].target == TargetsOf(ups, m)[k] && m in ups[i].modules;
        } else {
          assert multiset(last.modules)[m] > 0;
          assert ups[|ups| - 1].target == TargetsOf(ups, m)[k];
        }
      }
    }
  }

  ghost predicate Lists(ups: seq<Upstream>, u: string) {
    exists i :: 0 <= i < |ups| && ups[i].name == u
  }

  ghost predicate DistinctNames(ups: seq<Upstream>) {
    && (forall i, j :: 0 <= i < j < |ups| ==> ups[i].name != ups[j].name)
    && (forall i :: 0 <= i < |ups| ==> ups[i].target.upstream == ups[i].name)
  }

  lemma CountAbsent(ups: seq<Upstream>, m: string, t: Target)
    requires forall i :: 0 <= i < |ups| ==> ups[i].target != t
    ensures multiset(TargetsOf(ups, m))[t] == 0
  {
    if t in TargetsOf(ups, m) {
      TargetsComeFrom(ups, m);
      assert false;
    }
  }

  lemma {:induction false} RepeatCount<T>(x: T, y: T, n: nat)
    ensures multiset(Repeat(x, n))[y] == if x == y then n else 0
  {
    if n == 0 {
      assert Repeat(x, n) == [];
    } else {
      RepeatCount(x, y, n - 1);
      assert Repeat(x, n) == Repeat(x, n - 1) + [x];
    }
  }

  /** The table inverts the upstream list with multiplicity: an upstream's target stands under a module
      exactly as often as the upstream lists that module. */
  lemma {:induction false} InverseIndex(ups: seq<Upstream>, i: nat, m: string)
    requires DistinctNames(ups) && i < |ups|
    ensures multiset(TargetsOf(ups, m))[ups[i].target] == multiset(ups[i].modules)[m]
  {
    var front, last := ups[..|ups| - 1], ups[|ups| - 1];
    RepeatCount(last.target, ups[i].target, multiset(last.modules)[m]);
    if i == |front| {
      CountAbsent(front, m, last.target);
    } else {
      InverseIndex(front, i, m);
    }
  }

  /** `buildModuleTargets`. */
  method BuildModuleTargets(ups: seq<Upstream>) returns (table: map<string, seq<Target>>)
    ensures IsModuleTable(ups, table)
  {
    table := map[];
    for i := 0 to |ups|
      invariant IsModuleTable(ups[..i], table)
    {
      ghost var before := table;
      table := AddUpstream(table, ups[i]);
      TableExtends(ups[..i], ups[i], before, table);
      assert ups[..i + 1] == ups[..i] + [ups[i]];
    }
    assert ups[..|ups|] == ups;
  }

  /** The inner loop: the target is appended once for each module name the upstream lists. */
  method AddUpstream(before: map<string, seq<Target>>, u: Upstream) returns (table: map<string, seq<Target>>)
    ensures Extends(before, u, u.modules, table)
  {
    hide Extends, Repeat;
    table := before;
    ExtendsNone(before, u);
    assert u.modules[..0] == [];
    for j := 0 to |u.modules|
      invariant Extends(before, u, u.modules[..j], table)
    {
      var name := u.modules[j];
      var entry := if name in table then table[name] else [];
      ExtendsOneMore(before, u, u.modules[..j], name, table, table[name := entry + [u.target]]);
      table := table[name := entry + [u.target]];
      assert u.modules[..j + 1] == u.modules[..j] + [name];
    }
    assert u.modules[..|u.modules|] == u.modules;
  }

  ghost function Entry(table: map<string, seq<Target>>, m: string): seq<Target> {
    if m in table then table[m] else []
  }

  /** What is listed under `m` once `u` has been added under each of `names`. */
  ghost predicate ExtendsAt(before: map<string, seq<Target>>, u: Upstream, names: seq<string>,
                            table: map<string, seq<Target>>, m: string)
  {
    && (m in table <==> m in before || m in names)
    && (m in table ==> table[m] == Entry(before, m) + Repeat(u.target, multiset(names)[m]))
  }

  ghost predicate Extends(before: map<string, seq<Target>>, u: Upstream, names: seq<string>,
                          table: map<string, seq<Target>>)
  {
    forall m :: ExtendsAt(before, u, names, table, m)
  }

  lemma ExtendsNone(before: map<string, seq<Target>>, u: Upstream)
    ensures Extends(before, u, [], before)
  {
    assert Repeat(u.target, 0) == [];
  }

  lemma ExtendsOneMore(before: map<string, seq<Target>>, u: Upstream, names: seq<string>, name: string,
                       t0: map<string, seq<Target>>, t1: map<string, seq<Target>>)
    requires Extends(before, u, names, t0)
    requires t1 == t0[name := Entry(t0, name) + [u.target]]
    ensures Extends(before, u, names + [name], t1)
  {
    hide Repeat, Entry, ExtendsAt;
    forall m ensures ExtendsAt(before, u, names + [name], t1, m) {
      assert ExtendsAt(before, u, names, t0, m);
      if m == name {
        EntryOneMore(before, u, names, name, t0, t1);
      } else {
        EntryKept(before, u, names, name, t0, t1, m);
      }
    }
  }

  lemma EntryKept(before: map<string, seq<Target>>, u: Upstream, names: seq<string>, name: string,
                  t0: map<string, seq<Target>>, t1: map<string, seq<Target>>, m: string)
    requires ExtendsAt(before, u, names, t0, m) && m != name
    requires m in t1 <==> m in t0
    requires m in t0 ==> t1[m] == t0[m]
    ensures ExtendsAt(before, u, names + [name], t1, m)
  {
    hide Repeat, Entry;
  }

  lemma EntryOneMore(before: map<string, seq<Target>>, u: Upstream, names: seq<string>, name: string,
                     t0: map<string, seq<Target>>, t1: map<string, seq<Target>>)
    requires ExtendsAt(before, u, names, t0, name)
    requires name in t1 && t1[name] == Entry(t0, name) + [u.target]
    ensures ExtendsAt(before, u, names + [name], t1, name)
  {
    var n := multiset(names)[name];
    RepeatOneMore(u.target, n);
    if name in t0 {
      assert t0[name] + [u.target] == Entry(before, name) + (Repeat(u.target, n) + [u.target]);
    } else {
      assert n == 0 && Repeat(u.target, 0) == [];
    }
  }

  lemma RepeatOneMore<T>(x: T, n: nat)
    ensures Repeat(x, n) + [x] == Repeat(x, n + 1)
  {
  }

  lemma EntryListed(ups: seq<Upstream>, u: Upstream, before: map<string, seq<Target>>,
                    table: map<string, seq<Target>>, m: string)
    requires IsModuleTable(ups, before) && ExtendsAt(before, u, u.modules, table, m)
    ensures m in table <==> Offered(ups + [u], m)
    ensures m in table ==> table[m] == TargetsOf(ups + [u], m)
  {
    var all := ups + [u];
    assert all[..|all| - 1] == ups && all[|all| - 1] == u;
    TargetsOffered(all, m);
    TargetsOffered(ups, m);
  }

  lemma TableExtends(ups: seq<Upstream>, u: Upstream, before: map<string, seq<Target>>, table: map<string, seq<Target>>)
    requires IsModuleTable(ups, before) && Extends(before, u, u.modules, table)
    ensures IsModuleTable(ups + [u], table)
  {
    var all := ups + [u];
    hide Repeat, Entry, ExtendsAt, Offered, TargetsOf;
    forall m ensures m in table <==> Offered(all, m) {
      assert ExtendsAt(before, u, u.modules, table, m);
      EntryListed(ups, u, before, table, m);
    }
    forall m | m in table ensures table[m] == TargetsOf(all, m) {
      assert ExtendsAt(before, u, u.modules, table, m);
      EntryListed(ups, u, before, table, m);
    }
  }

  // ---- the hash ----

  const TWO32: int := 0x1_0000_0000
  const OFFSET_BASIS: int := 2166136261
  const PRIME: int := 16777619
  /** The inverse of `PRIME` modulo 2^32. */
  const PRIME_INVERSE: int := 899433627

  type Byte = b: int | 0 <= b < 256
  type Uint32 = h: int | 0 <= h < TWO32

  function XorBits(n: nat, a: nat, b: nat): nat {
    if n == 0 then 0 else (a % 2 + b % 2) % 2 + 2 * XorBits(n - 1, a / 2, b / 2)
  }

  function Pow2(n: nat): nat {
    if n == 0 then 1 else 2 * Pow2(n - 1)
  }

  lemma {:induction false} XorBitsRange(n: nat, a: nat, b: nat)
    ensures XorBits(n, a, b) < Pow2(n)
  {
    if n > 0 { XorBitsRange(n - 1, a / 2, b / 2); }
  }

  lemma XorStep(n: nat, a: nat, b: nat)
    requires n > 0
    ensures XorBits(n, a, b) % 2 == (a % 2 + b % 2) % 2
    ensures XorBits(n, a, b) / 2 == XorBits(n - 1, a / 2, b / 2)
  {
  }

  lemma BitTwice(p: int, q: int)
    requires 0 <= p <= 1 && 0 <= q <= 1
    ensures (p + (p + q) % 2) % 2 == q
  {
  }

  lemma SameBits(x: int, y: int)
    ensures x % 2 == y % 2 && x / 2 == y / 2 ==> x == y
  {
  }

  lemma {:induction false} XorBitsInvolutive(n: nat, a: nat, b: nat)
    requires b < Pow2(n)
    ensures XorBits(n, a, XorBits(n, a, b)) == b
  {
    if n > 0 {
      var x := XorBits(n, a, b);
      XorStep(n, a, b);
      XorStep(n, a, x);
      XorBitsInvolutive(n - 1, a / 2, b / 2);
      hide XorBits;
      BitTwice(a % 2, b % 2);
      SameBits(XorBits(n, a, x), b);
    }
  }

  lemma {:induction false} XorBitsCommutes(n: nat, a: nat, b: nat)
    ensures XorBits(n, a, b) == XorBits(n, b, a)
  {
    if n > 0 { XorBitsCommutes(n - 1, a / 2, b / 2); }
  }

  lemma Pow2Eight()
    ensures Pow2(8) == 256
  {
    assert Pow2(4) == 16;
  }

  lemma OctetBelow(h: Uint32)
    ensures 0 <= h / 256 < 0x100_0000 && 0 <= h % 256 < 256
  {
  }

  /** `h ^ b` for an octet: only the low eight bits change. */
  function XorLow(h: Uint32, b: Byte): (r: int)
    ensures 0 <= r < TWO32
  {
    XorBitsRange(8, h % 256, b);
    Pow2Eight();
    OctetBelow(h);
    256 * (h / 256) + XorBits(8, h % 256, b)
  }

  /** One round of FNV-1a: exclusive-or, then multiply modulo 2^32. */
  function Round(h: Uint32, b: Byte): Uint32 {
    XorLow(h, b) * PRIME % TWO32
  }

  function Fnv1a(octets: seq<Byte>): Uint32 {
    if octets == [] then OFFSET_BASIS
    else Round(Fnv1a(octets[..|octets| - 1]), octets[|octets| - 1])
  }

  function Xor(x: nat, y: nat): nat {
    (x + y) % 2
  }

  lemma HalfOf(a: nat, x: nat)
    requires x < 2
    ensures (2 * a + x) % 2 == x && (2 * a + x) / 2 == a
  {
  }

  lemma XorPush(n: nat, a: nat, x: nat, b: nat, y: nat)
    requires x < 2 && y < 2
    ensures XorBits(n + 1, 2 * a + x, 2 * b + y) == 2 * XorBits(n, a, b) + Xor(x, y)
  {
    HalfOf(a, x);
    HalfOf(b, y);
  }

  lemma XorPushTwo(n: nat, a: nat, x: nat, x': nat, b: nat, y: nat, y': nat)
    requires x < 2 && y < 2 && x' < 2 && y' < 2
    ensures XorBits(n + 2, 4 * a + 2 * x + x', 4 * b + 2 * y + y') == 4 * XorBits(n, a, b) + 2 * Xor(x, y) + Xor(x', y')
  {
    XorPush(n, a, x, b, y);
    hide XorBits, Xor;
    var a', b' := 2 * a + x, 2 * b + y;
    XorPush(n + 1, a', x', b', y');
    assert 2 * a' + x' == 4 * a + 2 * x + x' && 2 * b' + y' == 4 * b + 2 * y + y';
  }

  /** The number that eight bits stand for, the first one counting 128. */
  function Octet(b: seq<nat>): nat
    requires |b| == 8
  {
    128 * b[0] + 64 * b[1] + 32 * b[2] + 16 * b[3] + 8 * b[4] + 4 * b[5] + 2 * b[6] + b[7]
  }

  predicate AreBits(b: seq<nat>) {
    |b| == 8 && forall i :: 0 <= i < 8 ==> b[i] < 2
  }

  function XorEach(a: seq<nat>, b: seq<nat>): seq<nat>
    requires |a| == |b| == 8
  {
    [Xor(a[0], b[0]), Xor(a[1], b[1]), Xor(a[2], b[2]), Xor(a[3], b[3]),
     Xor(a[4], b[4]), Xor(a[5], b[5]), Xor(a[6], b[6]), Xor(a[7], b[7])]
  }

  /** On octets, `XorBits` is the exclusive or of the bits, one by one. */
  lemma XorIsBitwise(a: seq<nat>, b: seq<nat>)
    requires AreBits(a) && AreBits(b)
    ensures XorBits(8, Octet(a), Octet(b)) == Octet(XorEach(a, b))
  {
    NoBits();
    hide XorBits, Xor;
    var c := XorEach(a, b);
    var a2, b2 := 2 * a[0] + a[1], 2 * b[0] + b[1];
    var a4, b4 := 4 * a2 + 2 * a[2] + a[3], 4 * b2 + 2 * b[2] + b[3];
    var a6, b6 := 4 * a4 + 2 * a[4] + a[5], 4 * b4 + 2 * b[4] + b[5];
    XorPushTwo(0, 0, a[0], a[1], 0, b[0], b[1]);
    XorPushTwo(2, a2, a[2], a[3], b2, b[2], b[3]);
    XorPushTwo(4, a4, a[4], a[5], b4, b[4], b[5]);
    XorPushTwo(6, a6, a[6], a[7], b6, b[6], b[7]);
    assert 4 * a6 + 2 * a[6] + a[7] == Octet(a) && 4 * b6 + 2 * b[6] + b[7] == Octet(b);
  }

  lemma NoBits()
    ensures XorBits(0, 0, 0) == 0
  {
  }

  /** One round on a hash of which the low octet and the rest are known. */
  lemma RoundIs(q: nat, low: Byte, b: Byte, mixed: Byte, k: int, r: Uint32)
    requires 256 * q + low < TWO32 && XorBits(8, low, b) == mixed
    requires (256 * q + mixed) * PRIME == k * TWO32 + r
    ensures Round(256 * q + low, b) == r
  {
    hide XorBits;
    DivMod256(256 * q + low, q, low);
    assert XorLow(256 * q + low, b) == 256 * q + mixed;
    DivModUnique((256 * q + mixed) * PRIME, TWO32, k, r);
  }

  lemma FnvMore(octets: seq<Byte>, b: Byte)
    ensures Fnv1a(octets + [b]) == Round(Fnv1a(octets), b)
  {
    assert (octets + [b])[..|octets|] == octets;
  }

  lemma MixOf(a: seq<nat>, b: seq<nat>, x: Byte, y: Byte, mixed: Byte)
    requires AreBits(a) && AreBits(b) && Octet(a) == x && Octet(b) == y && Octet(XorEach(a, b)) == mixed
    ensures XorBits(8, x, y) == mixed
  {
    hide XorBits;
    XorIsBitwise(a, b);
  }

  lemma MixA()
    ensures XorBits(8, 0xc5, 0x61) == 0xa4
  {
    hide XorBits;
    MixOf([1, 1, 0, 0, 0, 1, 0, 1], [0, 1, 1, 0, 0, 0, 0, 1], 0xc5, 0x61, 0xa4);
  }

  lemma MixF()
    ensures XorBits(8, 0xc5, 0x66) == 0xa3
  {
    hide XorBits;
    MixOf([1, 1, 0, 0, 0, 1, 0, 1], [0, 1, 1, 0, 0, 1, 1, 0], 0xc5, 0x66, 0xa3);
  }

  lemma MixO()
    ensures XorBits(8, 0x99, 0x6f) == 0xf6
  {
    hide XorBits;
    MixOf([1, 0, 0, 1, 1, 0, 0, 1], [0, 1, 1, 0, 1, 1, 1, 1], 0x99, 0x6f, 0xf6);
  }

  lemma FirstRounds()
    ensures Round(0x811c9dc5, 0x61) == 0xe40c292c
    ensures Round(0x811c9dc5, 0x66) == 0xe30c2799 && Round(0xe30c2799, 0x6f) == 0x6222e842
  {
    MixA();
    MixF();
    MixO();
    hide XorBits, Round;
    RoundIs(0x811c9d, 0xc5, 0x61, 0xa4, 8461672, 0xe40c292c);
    RoundIs(0x811c9d, 0xc5, 0x66, 0xa3, 8461672, 0xe30c2799);
    RoundIs(0xe30c27, 0x99, 0x6f, 0xf6, 14880141, 0x6222e842);
  }

  /** Test vectors of the FNV draft (draft-eastlake-fnv) for 32-bit FNV-1a: the empty string, "a" and "fo". */
  lemma KnownHashes()
    ensures Fnv1a([]) == 0x811c9dc5
    ensures Fnv1a([0x61]) == 0xe40c292c
    ensures Fnv1a([0x66, 0x6f]) == 0x6222e842
  {
    NoOctets();
    FirstRounds();
    hide Round, Fnv1a;
    FnvMore([], 0x61);
    FnvMore([], 0x66);
    FnvMore([0x66], 0x6f);
    var a, f: seq<Byte> := [0x61], [0x66];
    assert [] + a == a && [] + f == f && f + [0x6f] == [0x66, 0x6f];
  }

  lemma NoOctets()
    ensures Fnv1a([]) == 0x811c9dc5
  {
  }

  datatype Option<T> = None | Some(value: T)

  predicate IsMapped(ip: seq<Byte>) {
    && |ip| == 16 && (forall i :: 0 <= i < 10 ==> ip[i] == 0) && ip[10] == 255 && ip[11] == 255
  }

  /** `To4`, then `To16`. */
  function Normalize(ip: seq<Byte>): Option<seq<Byte>> {
    if |ip| == 4 then Some(ip)
    else if IsMapped(ip) then Some(ip[12..])
    else if |ip| == 16 then Some(ip)
    else None
  }

  /** `uint32(targetCount)` keeps the low 32 bits, and a zero divisor panics. */
  predicate DivisorOk(targetCount: int) {
    targetCount > 1 ==> targetCount % TWO32 != 0
  }

  function ChooseTarget(ip: seq<Byte>, targetCount: int): int
    requires DivisorOk(targetCount)
  {
    if targetCount <= 1 then 0
    else
      match Normalize(ip)
      case None => 0
      case Some(octets) => Fnv1a(octets) % (targetCount % TWO32)
  }

  /** The choice is a valid index into any non-empty target list. */
  lemma ChoiceInRange(ip: seq<Byte>, targetCount: int)
    requires 1 <= targetCount && DivisorOk(targetCount)
    ensures 0 <= ChooseTarget(ip, targetCount) < targetCount
    ensures targetCount < TWO32 ==> DivisorOk(targetCount)
  {
  }

  lemma RemainderDivides(x: int, n: int)
    requires n > 0
    ensures (x - x % n) % n == 0 && 0 <= x % n < n
  {
    var q := x / n;
    assert x - x % n == q * n;
    MultipleOf(q, n);
  }

  lemma MultipleOf(q: int, n: int)
    requires n > 0
    ensures (q * n) % n == 0
  {
    DivModUnique(q * n, n, q, 0);
  }

  /** What the choice is, for every count below 2^32: the remainder of the hash of the address, which is hashed as it
      stands, except that of an IPv4-mapped IPv6 address only the last four octets are; without an address, or without
      a choice, the first target. */
  lemma ChoiceMeans(ip: seq<Byte>, n: int)
    requires n < TWO32
    ensures DivisorOk(n)
    ensures n <= 1 || (|ip| != 4 && |ip| != 16) ==> ChooseTarget(ip, n) == 0
    ensures n > 1 ==>
      && 0 <= ChooseTarget(ip, n) < n
      && (|ip| == 4 ==> (Fnv1a(ip) - ChooseTarget(ip, n)) % n == 0)
      && (|ip| == 16 ==>
            if ip[..12] == [0, 0, 0, 0, 0, 0, 0, 0, 0, 0, 255, 255] then (Fnv1a(ip[12..]) - ChooseTarget(ip, n)) % n == 0
            else (Fnv1a(ip) - ChooseTarget(ip, n)) % n == 0)
  {
    hide Fnv1a;
    if n > 1 {
      SmallDivisor(n);
      RemainderDivides(Fnv1a(ip), n);
      if |ip| == 16 {
        MappedMeans(ip);
        RemainderDivides(Fnv1a(ip[12..]), n);
      }
    }
  }

  lemma SmallDivisor(n: int)
    requires 0 < n < TWO32
    ensures n % TWO32 == n
  {
  }

  lemma MappedMeans(ip: seq<Byte>)
    requires |ip| == 16
    ensures IsMapped(ip) <==> ip[..12] == [0, 0, 0, 0, 0, 0, 0, 0, 0, 0, 255, 255]
  {
    var front: seq<Byte> := [0, 0, 0, 0, 0, 0, 0, 0, 0, 0, 255, 255];
    if IsMapped(ip) {
      assert forall i :: 0 <= i < 12 ==> ip[..12][i] == front[i];
    } else if ip[..12] == front {
      assert forall i :: 0 <= i < 12 ==> ip[i] == ip[..12][i] == front[i];
    }
  }

  /** The target a relay is routed to, if there is one. */
  function ChosenTarget(table: map<string, seq<Target>>, m: string, ip: seq<Byte>): Option<Target> {
    if m !in table || table[m] == [] || !DivisorOk(|table[m]|) then None
    else
      ChoiceInRange(ip, |table[m]|);
      Some(table[m][ChooseTarget(ip, |table[m]|)])
  }

  lemma MappedAgrees(ip: seq<Byte>, targetCount: int)
    requires |ip| == 4 && DivisorOk(targetCount)
    ensures ChooseTarget([0, 0, 0, 0, 0, 0, 0, 0, 0, 0, 255, 255] + ip, targetCount) == ChooseTarget(ip, targetCount)
  {
    var mapped: seq<Byte> := [0, 0, 0, 0, 0, 0, 0, 0, 0, 0, 255, 255] + ip;
    assert mapped[12..] == ip;
  }

  // ---- no collision between neighbours ----

  /** Multiplication by the odd prime loses nothing modulo 2^32. */
  lemma TimesPrimeInjective(x: Uint32, y: Uint32)
    requires x * PRIME % TWO32 == y * PRIME % TWO32
    ensures x == y
  {
    var k := x * PRIME / TWO32 - y * PRIME / TWO32;
    assert (x - y) * PRIME == k * TWO32;
    assert (x - y) * (PRIME * PRIME_INVERSE) == k * PRIME_INVERSE * TWO32;
    assert PRIME * PRIME_INVERSE == 1 + 3513497 * TWO32;
    assert x - y == TWO32 * (k * PRIME_INVERSE - (x - y) * 3513497);
  }

  lemma XorLowParts(h: Uint32, b: Byte)
    ensures 0 <= XorBits(8, h % 256, b) < 256
    ensures XorLow(h, b) % 256 == XorBits(8, h % 256, b)
    ensures XorLow(h, b) / 256 == h / 256
  {
    var y := XorBits(8, h % 256, b);
    Pow2Eight();
    XorBitsRange(8, h % 256, b);
    DivMod256(XorLow(h, b), h / 256, y);
  }

  lemma DivMod256(x: int, q: int, r: int)
    requires x == 256 * q + r && 0 <= r < 256
    ensures x % 256 == r && x / 256 == q
  {
  }

  lemma XorInjective(a1: Byte, b1: Byte, a2: Byte, b2: Byte)
    requires XorBits(8, a1, b1) == XorBits(8, a2, b2) && (a1 == a2 || b1 == b2)
    ensures a1 == a2 && b1 == b2
  {
    Pow2Eight();
    if a1 == a2 {
      XorBitsInvolutive(8, a1, b1);
      XorBitsInvolutive(8, a2, b2);
    } else {
      XorBitsCommutes(8, a1, b1);
      XorBitsCommutes(8, a2, b2);
      XorBitsInvolutive(8, b1, a1);
      XorBitsInvolutive(8, b2, a2);
    }
  }

  lemma RoundInjective(h1: Uint32, b1: Byte, h2: Uint32, b2: Byte)
    requires Round(h1, b1) == Round(h2, b2)
    requires h1 == h2 || b1 == b2
    ensures h1 == h2 && b1 == b2
  {
    TimesPrimeInjective(XorLow(h1, b1), XorLow(h2, b2));
    XorLowParts(h1, b1);
    XorLowParts(h2, b2);
    XorInjective(h1 % 256, b1, h2 % 256, b2);
  }

  /** Addresses that differ in exactly one octet never share a hash. */
  lemma {:induction false} OneOctetApart(xs: seq<Byte>, ys: seq<Byte>, j: nat)
    requires |xs| == |ys| && j < |xs| && xs[j] != ys[j]
    requires forall i :: 0 <= i < |xs| && i != j ==> xs[i] == ys[i]
    ensures Fnv1a(xs) != Fnv1a(ys)
  {
    var last := |xs| - 1;
    if j == last {
      assert xs[..last] == ys[..last];
    } else {
      OneOctetApart(xs[..last], ys[..last], j);
    }
    if Fnv1a(xs) == Fnv1a(ys) {
      RoundInjective(Fnv1a(xs[..last]), xs[last], Fnv1a(ys[..last]), ys[last]);
      assert false;
    }
  }

  // ---- exact balance ----

  /** The low octet of a round depends on the low octets alone. */
  function LowRound(l: Byte, b: Byte): Byte {
    XorBits(8, l, b) * 147 % 256
  }

  function LowRoundInverse(l: Byte, z: Byte): (b: int)
    ensures 0 <= b < 256
  {
    Pow2Eight();
    XorBitsRange(8, l, z * 155 % 256);
    XorBits(8, l, z * 155 % 256)
  }

  lemma LowRoundBijective(l: Byte, b: Byte)
    ensures LowRoundInverse(l, LowRound(l, b)) == b
    ensures LowRound(l, LowRoundInverse(l, b)) == b
  {
    Pow2Eight();
    XorBitsRange(8, l, b);
    XorBitsInvolutive(8, l, b);
    var y := XorBits(8, l, b);
    TimesLowPrime(y);
    var w := b * 155 % 256;
    XorBitsInvolutive(8, l, w);
    TimesLowPrime(b);
  }

  lemma TimesLowPrime(y: Byte)
    ensures (y * 147 % 256) * 155 % 256 == y
    ensures (y * 155 % 256) * 147 % 256 == y
  {
    var k, m := y * 147 / 256, y * 155 / 256;
    DivMod256((y * 147 - 256 * k) * 155, 89 * y - 155 * k, y);
    DivMod256((y * 155 - 256 * m) * 147, 89 * y - 147 * m, y);
  }

  lemma SameLow(a: int, b: int, c: int)
    requires a == b + 256 * c
    ensures a % 256 == b % 256
  {
  }

  lemma RoundLow(h: Uint32, b: Byte)
    ensures Round(h, b) % 256 == LowRound(h % 256, b)
  {
    var x := XorLow(h, b);
    var y, q := x % 256, x / 256;
    XorLowParts(h, b);
    var k := x * PRIME / TWO32;
    assert x * PRIME == y * 147 + 256 * (q * PRIME + y * 65537);
    assert Round(h, b) == x * PRIME - k * TWO32;
    SameLow(Round(h, b), y * 147, q * PRIME + y * 65537 - k * 16777216);
  }

  lemma {:induction false} Bijection(xs: set<int>, ys: set<int>, f: int -> int, g: int -> int)
    requires forall x :: x in xs ==> f(x) in ys && g(f(x)) == x
    requires forall y :: y in ys ==> g(y) in xs && f(g(y)) == y
    ensures |xs| == |ys|
    decreases |xs|
  {
    if xs == {} {
      if ys != {} {
        var y := Pick(ys);
        assert false;
      }
    } else {
      var x := Pick(xs);
      Bijection(xs - {x}, ys - {f(x)}, f, g);
    }
  }

  function Range(n: nat): (s: set<int>)
    ensures |s| == n && forall i :: i in s <==> 0 <= i < n
  {
    if n == 0 then {} else Range(n - 1) + {n - 1}
  }

  lemma Pow2Table(k: nat)
    requires k <= 8
    ensures Pow2(k) == [1, 2, 4, 8, 16, 32, 64, 128, 256][k]
  {
    assert Pow2(1) == 2 && Pow2(2) == 4 && Pow2(3) == 8;
    assert Pow2(4) == 16 && Pow2(5) == 32;
    assert Pow2(6) == 64 && Pow2(7) == 128;
    Pow2Eight();
  }

  lemma AtLeastOnce(d: int, m: int)
    requires m > 0
    ensures d >= 1 ==> d * m >= m
    ensures d <= -1 ==> d * m <= -m
  {
  }

  lemma DivModUnique(a: int, m: int, q: int, r: int)
    requires m > 0 && a == q * m + r && 0 <= r < m
    ensures a / m == q && a % m == r
  {
    var d := q - a / m;
    assert d * m == a % m - r;
    AtLeastOnce(d, m);
  }

  /** A power of two up to 256 sees only the low octet. */
  lemma LowBitsDecide(h: int, m: int, co: int)
    requires m > 0 && m * co == 256
    ensures h % m == (h % 256) % m
  {
    var q, l := h / 256, h % 256;
    assert h == (co * q) * m + l by { assert (co * q) * m == (m * co) * q; }
    assert h == (co * q + l / m) * m + l % m by {
      assert (co * q + l / m) * m == (co * q) * m + (l / m) * m;
    }
    DivModUnique(h, m, co * q + l / m, l % m);
  }

  lemma Pow2Product(k: nat)
    requires k <= 8
    ensures Pow2(k) > 0 && Pow2(k) * Pow2(8 - k) == 256
  {
    Pow2Table(k);
    Pow2Table(8 - k);
  }

  /** The octets that leave remainder `t`: one in every stretch of `m`. */
  lemma ResidueCount(m: int, co: nat, t: int, residues: set<int>)
    requires m * co == 256 && 0 <= t < m
    requires forall z :: z in residues <==> 0 <= z < 256 && z % m == t
    ensures |residues| == co
  {
    hide Quotient, Member, Range;
    var f := (z: int) => Quotient(z, m);
    var g := (i: int) => Member(i, m, t);
    var range := Range(co);
    forall z | z in residues ensures f(z) in range && g(f(z)) == z {
      ResidueForm(m, co, t, z);
    }
    forall i | i in range ensures g(i) in residues && f(g(i)) == i {
      ResidueBack(m, co, t, i);
    }
    Bijection(residues, range, f, g);
  }

  function Quotient(z: int, m: int): int {
    if m == 0 then 0 else z / m
  }

  function Member(i: int, m: int, t: int): int {
    i * m + t
  }

  lemma ResidueForm(m: int, co: nat, t: int, z: int)
    requires m > 0 && m * co == 256 && 0 <= z < 256 && z % m == t
    ensures 0 <= Quotient(z, m) < co && Member(Quotient(z, m), m, t) == z
  {
    var q := z / m;
    assert q * m + t == z;
    assert (q - co) * m == q * m - 256;
    AtLeastOnce(q, m);
    AtLeastOnce(q - co + 1, m);
  }

  lemma ResidueBack(m: int, co: nat, t: int, i: int)
    requires m * co == 256 && 0 <= t < m && 0 <= i < co
    ensures 0 <= Member(i, m, t) < 256 && Member(i, m, t) % m == t && Quotient(Member(i, m, t), m) == i
  {
    DivModUnique(i * m + t, m, i, t);
    assert i * m >= 0 && (co - 1 - i) * m >= 0;
    assert (co - 1 - i) * m == 256 - m - i * m;
  }

  /** The last octets that send an address with these leading octets to `target`. */
  ghost function OctetsFor(lead: seq<Byte>, targetCount: int, target: int): set<int>
    requires DivisorOk(targetCount)
  {
    set b: int | 0 <= b < 256 && ChooseTarget(lead + [b], targetCount) == target
  }

  /** For 2^k targets and any fixed leading octets, the 256 values of the last octet are spread over the
      targets exactly evenly, for both address families. */
  lemma ExactBalance(lead: seq<Byte>, k: nat, target: int)
    requires |lead| == 3 || |lead| == 15
    requires 1 <= k <= 8 && 0 <= target < Pow2(k)
    ensures DivisorOk(Pow2(k)) && |OctetsFor(lead, Pow2(k), target)| == Pow2(8 - k)
  {
    var m, co := Pow2(k), Pow2(8 - k);
    Pow2Table(k);
    Pow2Product(k);
    hide Pow2, ChooseTarget, LowRound, IsMapped;
    var front := if IsMapped(lead + [0]) then lead[12..] else lead;
    var l: Byte := Fnv1a(front) % 256;
    forall b: Byte ensures ChooseTarget(lead + [b], m) == LowRound(l, b) % m {
      LastOctet(lead, front, b, m, co);
    }
    var residues := set z: int | 0 <= z < 256 && Residue(z, m, target);
    ResidueCount(m, co, target, residues);
    BalanceBijection(l, m, target, OctetsFor(lead, m, target), residues);
  }

  predicate Residue(z: int, m: int, t: int) {
    m > 0 && z % m == t
  }

  lemma NormalizeLast(lead: seq<Byte>, b: Byte)
    requires |lead| == 3 || |lead| == 15
    ensures Normalize(lead + [b]) == Some((if IsMapped(lead + [0]) then lead[12..] else lead) + [b])
  {
    var ip, zero: seq<Byte> := lead + [b], lead + [0];
    if |lead| == 15 {
      assert forall i :: 0 <= i < 15 ==> ip[i] == lead[i] && zero[i] == lead[i];
      assert ip[12..] == lead[12..] + [b];
    }
  }

  lemma FnvLast(front: seq<Byte>, b: Byte)
    ensures Fnv1a(front + [b]) == Round(Fnv1a(front), b)
  {
    assert (front + [b])[..|front|] == front;
  }

  lemma LastOctet(lead: seq<Byte>, front: seq<Byte>, b: Byte, m: int, co: nat)
    requires |lead| == 3 || |lead| == 15
    requires front == if IsMapped(lead + [0]) then lead[12..] else lead
    requires 1 < m <= 256 && m * co == 256
    ensures ChooseTarget(lead + [b], m) == LowRound(Fnv1a(front) % 256, b) % m
  {
    hide Normalize, IsMapped, Fnv1a, Round, LowRound;
    NormalizeLast(lead, b);
    FnvLast(front, b);
    RoundLow(Fnv1a(front), b);
    LowBitsDecide(Round(Fnv1a(front), b), m, co);
    assert m % TWO32 == m;
  }

  lemma BalanceBijection(l: Byte, m: int, target: int, octets: set<int>, residues: set<int>)
    requires forall b: int :: b in octets <==> 0 <= b < 256 && Residue(LowRound(l, b), m, target)
    requires forall z: int :: z in residues <==> 0 <= z < 256 && Residue(z, m, target)
    ensures |octets| == |residues|
  {
    hide LowRound, LowRoundInverse, Residue;
    var f := (b: int) => if 0 <= b < 256 then LowRound(l, b) else 0;
    var g := (z: int) => if 0 <= z < 256 then LowRoundInverse(l, z) else 0;
    forall b | b in octets ensures f(b) in residues && g(f(b)) == b {
      LowRoundBijective(l, b);
    }
    forall z | z in residues ensures g(z) in octets && f(g(z)) == z {
      LowRoundBijective(l, z);
    }
    Bijection(octets, residues, f, g);
  }
}
