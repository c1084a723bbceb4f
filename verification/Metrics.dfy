/** Label text in the Prometheus output of `pkg/server/metrics.go`: escaping, grouping and line order. */
module Metrics {
  import opened Sorting

  /** A (module, upstream) pair. */
  type Key = (string, string)

  /** `prometheusLabelValueOrUnknown`. */
  function OrUnknown(s: string): string {
    if s == "" then "unknown" else s
  }

  function Normalized(module_: string, upstream: string): Key {
    (OrUnknown(module_), OrUnknown(upstream))
  }

  // ---- escaping ----

  /** `strings.ReplaceAll` for a one-byte pattern. */
  function ReplaceAll(s: string, c: char, replacement: string): string {
    if s == "" then "" else (if s[0] == c then replacement else [s[0]]) + ReplaceAll(s[1..], c, replacement)
  }

  /** `prometheusEscapeLabelValue`: three passes over the whole string. */
  function Escape(s: string): string {
    ReplaceAll(ReplaceAll(ReplaceAll(s, '\\', "\\\\"), '\n', "\\n"), '\"', "\\\"")
  }

  function EscapeChar(c: char): string {
    if c == '\\' then "\\\\" else if c == '\n' then "\\n" else if c == '\"' then "\\\"" else [c]
  }

  /** The reference: one pass, one character at a time. */
  function EscapeOnce(s: string): string {
    if s == "" then "" else EscapeChar(s[0]) + EscapeOnce(s[1..])
  }

  lemma {:induction false} ReplaceConcat(a: string, b: string, c: char, replacement: string)
    ensures ReplaceAll(a + b, c, replacement) == ReplaceAll(a, c, replacement) + ReplaceAll(b, c, replacement)
  {
    if a == "" {
      assert a + b == b;
    } else {
      assert (a + b)[1..] == a[1..] + b;
      ReplaceConcat(a[1..], b, c, replacement);
    }
  }

  lemma EscapeConcat(a: string, b: string)
    ensures Escape(a + b) == Escape(a) + Escape(b)
  {
    ReplaceConcat(a, b, '\\', "\\\\");
    var a1, b1 := ReplaceAll(a, '\\', "\\\\"), ReplaceAll(b, '\\', "\\\\");
    ReplaceConcat(a1, b1, '\n', "\\n");
    var a2, b2 := ReplaceAll(a1, '\n', "\\n"), ReplaceAll(b1, '\n', "\\n");
    ReplaceConcat(a2, b2, '\"', "\\\"");
  }

  lemma ReplaceShort(c: char, d: char, e: char, replacement: string)
    ensures ReplaceAll([d], c, replacement) == if d == c then replacement else [d]
    ensures ReplaceAll([d, e], c, replacement) ==
            (if d == c then replacement else [d]) + (if e == c then replacement else [e])
  {
    assert [d][1..] == "" && [d, e][1..] == [e];
    assert [e][1..] == "";
  }

  lemma EscapeSingle(c: char)
    ensures Escape([c]) == EscapeChar(c)
  {
    ReplaceShort('\\', c, c, "\\\\");
    ReplaceShort('\n', c, c, "\\n");
    ReplaceShort('\"', c, c, "\\\"");
    ReplaceShort('\n', '\\', '\\', "\\n");
    ReplaceShort('\"', '\\', '\\', "\\\"");
    ReplaceShort('\"', '\\', 'n', "\\\"");
  }

  /** The three passes, in their order, are the single-pass escape: no pass rewrites what an earlier one wrote. */
  lemma {:induction false} ThreePassesAreOne(s: string)
    ensures Escape(s) == EscapeOnce(s)
  {
    if s != "" {
      assert s == [s[0]] + s[1..];
      EscapeConcat([s[0]], s[1..]);
      EscapeSingle(s[0]);
      ThreePassesAreOne(s[1..]);
    }
  }

  /** A reader of the exposition format: the value up to the next bare quote, and what follows it. */
  function ReadQuoted(s: string): (string, string) {
    if s == "" then ("", "")
    else if s[0] == '\"' then ("", s[1..])
    else if s[0] == '\\' && |s| > 1 then
      var (v, rest) := ReadQuoted(s[2..]);
      ([if s[1] == 'n' then '\n' else s[1]] + v, rest)
    else
      var (v, rest) := ReadQuoted(s[1..]);
      ([s[0]] + v, rest)
  }

  /** Reading undoes escaping on every string, and stops exactly at the closing quote. */
  lemma ReadUndoesEscape(s: string, rest: string)
    ensures ReadQuoted(Escape(s) + "\"" + rest) == (s, rest)
  {
    ThreePassesAreOne(s);
    ReadUndoesEscapeOnce(s, rest);
  }

  /** One escaped character is read back as that character. */
  lemma ReadOne(c: char, tail: string)
    ensures var (v, rest) := ReadQuoted(tail); ReadQuoted(EscapeChar(c) + tail) == ([c] + v, rest)
  {
    var s := EscapeChar(c) + tail;
    assert s[0] == EscapeChar(c)[0];
    if |EscapeChar(c)| == 2 {
      assert s[1] == EscapeChar(c)[1] && s[2..] == tail;
    } else {
      assert s[1..] == tail;
    }
  }

  lemma ReadClosing(rest: string)
    ensures ReadQuoted("" + "\"" + rest) == ("", rest)
  {
    assert ("" + "\"" + rest)[1..] == rest;
  }

  lemma {:induction false} ReadUndoesEscapeOnce(s: string, rest: string)
    ensures ReadQuoted(EscapeOnce(s) + "\"" + rest) == (s, rest)
  {
    hide ReadQuoted, EscapeChar;
    if s == "" {
      ReadClosing(rest);
    } else {
      var tail := EscapeOnce(s[1..]) + "\"" + rest;
      assert EscapeOnce(s) + "\"" + rest == EscapeChar(s[0]) + tail;
      ReadOne(s[0], tail);
      ReadUndoesEscapeOnce(s[1..], rest);
      assert s == [s[0]] + s[1..];
    }
  }

  // ---- label sets ----

  /** The label part of a module line. */
  function LabelText(k: Key): string {
    "module=\"" + (Escape(k.0) + "\"" + (",upstream=\"" + (Escape(k.1) + "\"" + "")))
  }

  /** Different (module, upstream) pairs never render to the same label text. */
  lemma LabelsInjective(a: Key, b: Key)
    requires LabelText(a) == LabelText(b)
    ensures a == b
  {
    var m, u := |"module=\""|, |",upstream=\""|;
    var ra, rb := ",upstream=\"" + (Escape(a.1) + "\"" + ""), ",upstream=\"" + (Escape(b.1) + "\"" + "");
    assert LabelText(a)[m..] == Escape(a.0) + "\"" + ra && LabelText(b)[m..] == Escape(b.0) + "\"" + rb;
    ReadUndoesEscape(a.0, ra);
    ReadUndoesEscape(b.0, rb);
    assert ra[u..] == Escape(a.1) + "\"" + "" && rb[u..] == Escape(b.1) + "\"" + "";
    ReadUndoesEscape(a.1, "");
    ReadUndoesEscape(b.1, "");
  }

  /** A name and the word for no name share a series; no other two names do. */
  lemma NormalizedShares(a: Key, b: Key)
    ensures Normalized(a.0, a.1) == Normalized(b.0, b.1) <==>
            && (a.0 == b.0 || {a.0, b.0} == {"", "unknown"})
            && (a.1 == b.1 || {a.1, b.1} == {"", "unknown"})
  {
    SharesName(a.0, b.0);
    SharesName(a.1, b.1);
  }

  lemma SharesName(a: string, b: string)
    ensures OrUnknown(a) == OrUnknown(b) <==> a == b || {a, b} == {"", "unknown"}
  {
    assert a in {a, b} && b in {a, b};
  }

  lemma LabelsDiffer(a: Key, b: Key)
    ensures a != b ==> LabelText(a) != LabelText(b)
  {
    hide LabelText;
    if LabelText(a) == LabelText(b) { LabelsInjective(a, b); }
  }

  // ---- order ----

  /** Module first, upstream second. */
  predicate KeyLe(a: Key, b: Key) {
    if a.0 != b.0 then StrLe(a.0, b.0) else StrLe(a.1, b.1)
  }

  lemma KeysOrdered()
    ensures TotalOrder(KeyLe)
  {
    forall a: Key, b: Key ensures KeyLe(a, b) || KeyLe(b, a) {
      StrLeTotal(a.0, b.0);
      StrLeTotal(a.1, b.1);
    }
    forall a: Key, b: Key | KeyLe(a, b) && KeyLe(b, a) ensures a == b {
      if a.0 != b.0 { StrLeAntisymmetric(a.0, b.0); } else { StrLeAntisymmetric(a.1, b.1); }
    }
    forall a: Key, b: Key, c: Key | KeyLe(a, b) && KeyLe(b, c) ensures KeyLe(a, c) {
      if a.0 == b.0 == c.0 { StrLeTransitive(a.1, b.1, c.1); }
      else if a.0 != b.0 && b.0 != c.0 {
        StrLeTransitive(a.0, b.0, c.0);
        if a.0 == c.0 { StrLeAntisymmetric(a.0, b.0); }
      }
    }
  }

  // ---- emission ----

  function Decimal(n: nat): string {
    if n < 10 then [('0' as int + n) as char] else Decimal(n / 10) + [('0' as int + n % 10) as char]
  }

  /** A reader of decimal numbers: the value of the digits in front, and what follows them. */
  function ReadDecimal(s: string, value: nat): (nat, string)
    decreases |s|
  {
    if s != "" && '0' <= s[0] <= '9' then ReadDecimal(s[1..], 10 * value + (s[0] as int - '0' as int)) else (value, s)
  }

  /** One more than the largest number with as many digits as `n`: what a number read in front of `n` counts. */
  function Shift(n: nat): nat {
    if n < 10 then 10 else 10 * Shift(n / 10)
  }

  lemma {:induction false} ReadUndoesDecimal(n: nat, rest: string, value: nat)
    requires rest == "" || !('0' <= rest[0] <= '9')
    ensures ReadDecimal(Decimal(n) + rest, value) == (value * Shift(n) + n, rest)
    decreases n
  {
    ReadDigits(n, rest, value);
    NoDigits(rest, value * Shift(n) + n);
  }

  lemma NoDigits(rest: string, value: nat)
    requires rest == "" || !('0' <= rest[0] <= '9')
    ensures ReadDecimal(rest, value) == (value, rest)
  {
  }

  /** The digits of `n` in front of any text are read one after the other. */
  lemma {:induction false} ReadDigits(n: nat, rest: string, value: nat)
    ensures ReadDecimal(Decimal(n) + rest, value) == ReadDecimal(rest, value * Shift(n) + n)
    decreases n
  {
    if n < 10 {
      ReadDigit(n, rest, value);
    } else {
      var last := [('0' as int + n % 10) as char];
      assert Decimal(n) + rest == Decimal(n / 10) + (last + rest);
      ReadDigits(n / 10, last + rest, value);
      ReadDigit(n % 10, rest, value * Shift(n / 10) + n / 10);
      Regrouped(value, Shift(n / 10), n / 10, n % 10);
    }
  }

  lemma ReadDigit(d: nat, rest: string, value: nat)
    requires d < 10
    ensures ReadDecimal([('0' as int + d) as char] + rest, value) == ReadDecimal(rest, 10 * value + d)
  {
    assert ([('0' as int + d) as char] + rest)[1..] == rest;
  }

  lemma Regrouped(value: nat, shift: nat, q: nat, d: nat)
    ensures 10 * (value * shift + q) + d == value * (10 * shift) + (10 * q + d)
  {
  }

  /** A reader of one line of the per-module section, for the part behind the metric's name. */
  function ReadSeries(s: string): (Key, nat, string) {
    var open, middle, close := "{module=\"", ",upstream=\"", "} ";
    if !(open <= s) then (("", ""), 0, s)
    else
      var (m, s1) := ReadQuoted(s[|open|..]);
      if !(middle <= s1) then ((m, ""), 0, s1)
      else
        var (u, s2) := ReadQuoted(s1[|middle|..]);
        if !(close <= s2) then ((m, u), 0, s2)
        else
          var (value, s3) := ReadDecimal(s2[|close|..], 0);
          ((m, u), value, s3)
  }

  function Line(metric: string, k: Key, value: nat): string {
    metric + "{" + LabelText(k) + "} " + Decimal(value) + "\n"
  }

  /** Lines are in the order of their modules, and those of one module in the order of their upstreams. */
  lemma ModuleFirst(keys: seq<Key>)
    requires SortedBy(keys, KeyLe)
    ensures forall i, j :: 0 <= i < j < |keys| ==>
      && StrLe(keys[i].0, keys[j].0)
      && (keys[i].0 == keys[j].0 ==> StrLe(keys[i].1, keys[j].1))
  {
    hide StrLe;
    forall i, j | 0 <= i < j < |keys|
      ensures StrLe(keys[i].0, keys[j].0) && (keys[i].0 == keys[j].0 ==> StrLe(keys[i].1, keys[j].1))
    {
      assert KeyLe(keys[i], keys[j]);
      SameStrLe(keys[i].0);
    }
  }

  lemma SameStrLe(a: string)
    ensures StrLe(a, a)
  {
    StrLeTotal(a, a);
  }

  /** Each key once means each label text once. */
  lemma DistinctSeries(keys: seq<Key>, known: set<Key>)
    requires Enumerates(keys, known)
    ensures forall i :: 0 <= i < |keys| ==> keys[i] in known
    ensures forall i, j :: 0 <= i < j < |keys| ==> LabelText(keys[i]) != LabelText(keys[j])
  {
    hide LabelText;
    forall i | 0 <= i < |keys| ensures keys[i] in known {
      assert keys[i] in multiset(keys);
    }
    forall i, j | 0 <= i < j < |keys| ensures LabelText(keys[i]) != LabelText(keys[j]) {
      OnceEach(keys, known, i, j);
      LabelsDiffer(keys[i], keys[j]);
    }
  }

  /** Reading a line back gives the metric's module, upstream and value, and nothing is left but the newline. */
  lemma LineReadBack(metric: string, k: Key, value: nat)
    ensures metric <= Line(metric, k, value)
    ensures ReadSeries(Line(metric, k, value)[|metric|..]) == (k, value, "\n")
  {
    var open, middle, close := "{module=\"", ",upstream=\"", "} ";
    var s3 := Decimal(value) + "\n";
    var s2 := close + s3;
    var s1 := middle + (Escape(k.1) + "\"" + s2);
    var s := open + (Escape(k.0) + "\"" + s1);
    hide Escape, Decimal, ReadQuoted, ReadDecimal;
    LineParts(metric, k, value, s);
    ReadUndoesEscape(k.0, s1);
    ReadUndoesEscape(k.1, s2);
    ReadUndoesDecimal(value, "\n", 0);
    assert s[|open|..] == Escape(k.0) + "\"" + s1 && s1[|middle|..] == Escape(k.1) + "\"" + s2 && s2[|close|..] == s3;
  }

  lemma LineParts(metric: string, k: Key, value: nat, s: string)
    requires s ==
             "{module=\"" + (Escape(k.0) + "\"" + (",upstream=\"" + (Escape(k.1) + "\"" + ("} " + (Decimal(value) + "\n")))))
    ensures Line(metric, k, value) == metric + s
  {
    hide Escape, Decimal;
  }

  /** One metric of the per-module section: collect the keys, sort them, write a line for each. */
  method WriteModuleLines(metric: string, values: map<Key, nat>, order: seq<Key>)
      returns (keys: seq<Key>, lines: seq<string>)
    requires Enumerates(order, values.Keys)
    ensures keys == Sort(order, KeyLe) && SortedBy(keys, KeyLe) && Enumerates(keys, values.Keys)
    ensures |lines| == |keys|
    ensures forall i :: 0 <= i < |keys| ==> keys[i] in values && lines[i] == Line(metric, keys[i], values[keys[i]])
    ensures forall i, j :: 0 <= i < j < |keys| ==> LabelText(keys[i]) != LabelText(keys[j])
    ensures forall i, j :: 0 <= i < j < |keys| ==>
      && StrLe(keys[i].0, keys[j].0)
      && (keys[i].0 == keys[j].0 ==> StrLe(keys[i].1, keys[j].1))
  {
    hide KeyLe, Sort, LabelText, Line, StrLe;
    keys := Sort(order, KeyLe);
    KeysOrdered();
    SortSorts(order, KeyLe);
    DistinctSeries(keys, values.Keys);
    ModuleFirst(keys);
    hide SortedBy, Enumerates, TotalOrder;
    lines := [];
    for n := 0 to |keys|
      invariant |lines| == n
      invariant forall i :: 0 <= i < n ==> lines[i] == Line(metric, keys[i], values[keys[i]])
    {
      lines := lines + [Line(metric, keys[n], values[keys[n]])];
    }
  }

  /** The output does not depend on the order in which the map yields its keys. */
  lemma OutputIgnoresMapOrder(keys: set<Key>, a: seq<Key>, b: seq<Key>)
    requires Enumerates(a, keys) && Enumerates(b, keys)
    ensures Sort(a, KeyLe) == Sort(b, KeyLe)
  {
    KeysOrdered();
    SortIgnoresOrder(a, b, KeyLe);
  }

  /** The module and upstream of each connection, as labelled. */
  function Labelled(conns: seq<Key>): seq<Key> {
    seq(|conns|, i requires 0 <= i < |conns| => Normalized(conns[i].0, conns[i].1))
  }

  ghost predicate Grouped(counts: map<Key, nat>, keys: seq<Key>) {
    && (forall k :: k in counts <==> k in keys)
    && (forall k :: k in counts ==> counts[k] == multiset(keys)[k])
  }

  lemma GroupedOneMore(counts: map<Key, nat>, keys: seq<Key>, k: Key)
    requires Grouped(counts, keys)
    ensures Grouped(counts[k := (if k in counts then counts[k] else 0) + 1], keys + [k])
  {
  }

  /** The grouping loop: every group holds exactly the connections that render to its labels. */
  method GroupConnections(conns: seq<Key>) returns (counts: map<Key, nat>)
    ensures Grouped(counts, Labelled(conns))
  {
    hide Grouped;
    counts := map[];
    assert Grouped(counts, Labelled([])) by { NothingGrouped(); }
    assert conns[..0] == [];
    for i := 0 to |conns|
      invariant Grouped(counts, Labelled(conns[..i]))
    {
      var k := Normalized(conns[i].0, conns[i].1);
      GroupedOneMore(counts, Labelled(conns[..i]), k);
      assert Labelled(conns[..i + 1]) == Labelled(conns[..i]) + [k];
      counts := counts[k := (if k in counts then counts[k] else 0) + 1];
    }
    assert conns[..|conns|] == conns;
  }

  lemma NothingGrouped()
    ensures Grouped(map[], Labelled([]))
  {
  }
}
