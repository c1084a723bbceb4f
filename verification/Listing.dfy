/** The module list one proxy prints and another one reads: `listAllModules` and the loop of
`discoverModulesFromUpstream`. White space is the ASCII white space of `strings.Fields`. */
module Listing {
  import opened Sorting
  import opened Handshake
  import opened Streams

  datatype Error = ReadVersion | UnexpectedVersion | ReadModuleList
  datatype Result = Ok(modules: seq<string>) | Err(error: Error)

  // ---- lines ----

  /** The complete lines of a stream, without their newlines; a last piece without one is not a line. */
  function CompleteLines(s: string): seq<string>
    decreases |s|
  {
    var i := FirstNewline(s);
    if i < 0 then [] else [s[..i]] + CompleteLines(s[i + 1..])
  }

  function Text(lines: seq<string>): string {
    if lines == [] then "" else Text(lines[..|lines| - 1]) + lines[|lines| - 1] + "\n"
  }

  ghost predicate SingleLine(line: string) {
    forall i :: 0 <= i < |line| ==> line[i] != '\n'
  }

  ghost predicate SingleLines(lines: seq<string>) {
    forall i :: 0 <= i < |lines| ==> SingleLine(lines[i])
  }

  lemma SplitAtNewline(s: string)
    requires FirstNewline(s) >= 0
    ensures var i := FirstNewline(s);
      && s == s[..i] + "\n" + s[i + 1..] && SingleLine(s[..i])
      && s + "\n" == s[..i] + "\n" + (s[i + 1..] + "\n")
  {
    hide FirstNewline;
    var i := FirstNewline(s);
    forall j | 0 <= j < i ensures s[..i][j] != '\n' {
      NoneBefore(s, j);
    }
  }

  lemma NoNewlineSingle(s: string)
    requires FirstNewline(s) < 0
    ensures SingleLine(s)
  {
    hide FirstNewline;
    forall j | 0 <= j < |s| ensures s[j] != '\n' {
      NoneBefore(s, j);
    }
  }

  lemma FirstLineOf(line: string, rest: string)
    requires SingleLine(line)
    ensures FirstNewline(line + "\n" + rest) == |line|
    ensures CompleteLines(line + "\n" + rest) == [line] + CompleteLines(rest)
  {
    hide FirstNewline;
    var s := line + "\n" + rest;
    assert s[|line|] == '\n';
    assert forall j :: 0 <= j < |line| ==> s[j] == line[j];
    FirstAt(s, |line|);
    assert s[..|line|] == line && s[|line| + 1..] == rest;
  }

  lemma {:induction false} LinesOfText(lines: seq<string>, rest: string)
    requires SingleLines(lines)
    ensures CompleteLines(Text(lines) + rest) == lines + CompleteLines(rest)
  {
    hide FirstNewline, CompleteLines, SingleLine;
    if lines == [] {
      assert Text(lines) + rest == rest;
    } else {
      var front, last := lines[..|lines| - 1], lines[|lines| - 1];
      var more := last + "\n" + rest;
      LinesOfText(front, more);
      FirstLineOf(last, rest);
      assert Text(lines) + rest == Text(front) + more;
      assert lines + CompleteLines(rest) == front + ([last] + CompleteLines(rest));
    }
  }

  lemma {:induction false} TextCons(line: string, lines: seq<string>)
    ensures Text([line] + lines) == line + "\n" + Text(lines)
  {
    if lines == [] {
      assert [line] + lines == [line] && [line][..0] == [];
    } else {
      var front := lines[..|lines| - 1];
      assert ([line] + lines)[..|lines|] == [line] + front;
      TextCons(line, front);
    }
  }

  lemma NoText()
    ensures CompleteLines("") == [] && Text([]) == ""
  {
  }

  /** A text that ends in a newline consists of its complete lines. */
  lemma {:induction false} TextOfLines(s: string)
    requires s == "" || EndsInNewline(s)
    ensures Text(CompleteLines(s)) == s && SingleLines(CompleteLines(s))
    decreases |s|
  {
    hide FirstNewline, Text;
    if s == "" {
      NoText();
    } else {
      LastIsNewline(s);
      var i := FirstNewline(s);
      var rest := s[i + 1..];
      SplitAtNewline(s);
      TextOfLines(rest);
      TextCons(s[..i], CompleteLines(rest));
    }
  }

  // ---- fields ----

  predicate IsSpace(c: char) {
    var n := c as int;
    n == 32 || 9 <= n <= 13
  }

  predicate Blank(line: string) {
    forall i :: 0 <= i < |line| ==> IsSpace(line[i])
  }

  predicate NoSpace(s: string) {
    forall i :: 0 <= i < |s| ==> !IsSpace(s[i])
  }

  /** `strings.Fields(line)[0]`: the first stretch without white space, if there is one. */
  function FirstField(line: string): (f: string)
    ensures f == "" <==> Blank(line)
    ensures NoSpace(f)
  {
    if line == "" then ""
    else if IsSpace(line[0]) then
      assert line == [line[0]] + line[1..];
      FirstField(line[1..])
    else Word(line)
  }

  function Word(line: string): (f: string)
    ensures f <= line && NoSpace(f)
    ensures |f| < |line| ==> IsSpace(line[|f|])
  {
    if line == "" || IsSpace(line[0]) then "" else
      var f := Word(line[1..]);
      assert line == [line[0]] + line[1..];
      [line[0]] + f
  }

  lemma FirstFieldOfName(name: string)
    requires name != "" && NoSpace(name)
    ensures FirstField(name) == name && !Blank(name)
  {
    assert !IsSpace(name[0]);
  }

  lemma {:induction false} WordIs(f: string, post: string)
    requires NoSpace(f) && (post == "" || IsSpace(post[0]))
    ensures Word(f + post) == f
    decreases |f|
  {
    if f == "" {
      assert f + post == post;
    } else {
      assert (f + post)[1..] == f[1..] + post;
      WordIs(f[1..], post);
      assert f == [f[0]] + f[1..];
    }
  }

  /** The first field is the first stretch without white space, whatever stands before and behind it. */
  lemma {:induction false} FirstFieldIs(pre: string, f: string, post: string)
    requires Blank(pre) && f != "" && NoSpace(f) && (post == "" || IsSpace(post[0]))
    ensures FirstField(pre + f + post) == f
    decreases |pre|
  {
    var line := pre + f + post;
    if pre == "" {
      assert line == f + post && line[0] == f[0];
      WordIs(f, post);
    } else {
      assert line[0] == pre[0] && line[1..] == pre[1..] + f + post;
      FirstFieldIs(pre[1..], f, post);
    }
  }

  // ---- what discovery means ----

  predicate Terminator(line: string) {
    VERSION_PREFIX <= line
  }

  /** The lines before the first terminator, if there is one. */
  function FirstTerminator(lines: seq<string>): (t: nat)
    ensures t <= |lines|
    ensures forall i :: 0 <= i < t ==> !Terminator(lines[i])
    ensures t < |lines| ==> Terminator(lines[t])
  {
    if lines == [] || Terminator(lines[0]) then 0
    else
      var t := FirstTerminator(lines[1..]);
      assert forall i :: 1 <= i < t + 1 ==> lines[i] == lines[1..][i - 1];
      t + 1
  }

  /** Where the lines after the last blank one begin. */
  function AfterLastBlank(lines: seq<string>): (b: nat)
    ensures b <= |lines|
    ensures forall i :: b <= i < |lines| ==> !Blank(lines[i])
    ensures b > 0 ==> Blank(lines[b - 1])
  {
    if lines == [] then 0
    else if Blank(lines[|lines| - 1]) then |lines|
    else AfterLastBlank(lines[..|lines| - 1])
  }

  function FirstFields(lines: seq<string>): seq<string> {
    seq(|lines|, i requires 0 <= i < |lines| => FirstField(lines[i]))
  }

  /** The names listed by the lines before the terminator: the first fields after the last blank line. */
  function ListedNames(lines: seq<string>): seq<string> {
    FirstFields(lines[AfterLastBlank(lines)..])
  }

  function DiscoverMeans(lines: seq<string>): Result {
    var t := FirstTerminator(lines);
    if t == |lines| then Err(ReadModuleList) else Ok(SortStrings(ListedNames(lines[..t])))
  }

  // ---- listings with comments ----

  /** Lines that each consist of a module name and, behind a space or a tab, any comment. */
  ghost predicate Commented(lines: seq<string>, names: seq<string>, comments: seq<string>) {
    && |lines| == |names| == |comments|
    && (forall i :: 0 <= i < |names| ==> names[i] != "" && NoSpace(names[i]) && !Terminator(names[i]))
    && (forall i :: 0 <= i < |names| ==> comments[i] == "" || comments[i][0] == ' ' || comments[i][0] == '\t')
    && (forall i :: 0 <= i < |names| ==> lines[i] == names[i] + comments[i])
  }

  /** The first protocol line stands behind such lines. */
  ghost predicate CommentedListing(lines: seq<string>, names: seq<string>, comments: seq<string>) {
    |names| < |lines| && Terminator(lines[|names|]) && Commented(lines[..|names|], names, comments)
  }

  /** A comment does not make a protocol line of a line that does not start like one. */
  lemma CommentedLine(name: string, comment: string)
    requires name != "" && NoSpace(name) && !Terminator(name)
    requires comment == "" || comment[0] == ' ' || comment[0] == '\t'
    ensures FirstField(name + comment) == name && !Blank(name + comment) && !Terminator(name + comment)
  {
    var line := name + comment;
    assert "" + name + comment == line;
    FirstFieldIs("", name, comment);
    PrefixOfName(VERSION_PREFIX, name, comment);
    hide FirstField, Blank;
    NotBlank(line);
  }

  /** What has no white space in it and starts the line starts the name. */
  lemma PrefixOfName(prefix: string, name: string, comment: string)
    requires NoSpace(prefix) && (comment == "" || IsSpace(comment[0]))
    ensures prefix <= name + comment ==> prefix <= name
  {
    var line := name + comment;
    assert comment != "" ==> line[|name|] == comment[0];
    assert |prefix| <= |name| ==> line[..|prefix|] == name[..|prefix|];
  }

  lemma NotBlank(line: string)
    ensures FirstField(line) == "" <==> Blank(line)
  {
  }

  lemma {:induction false} AllAfterBlank(lines: seq<string>)
    requires forall i :: 0 <= i < |lines| ==> !Blank(lines[i])
    ensures AfterLastBlank(lines) == 0
  {
    hide Blank;
    if lines != [] { AllAfterBlank(lines[..|lines| - 1]); }
  }

  /** Discovery reads exactly the names from a listing with comments. */
  lemma CommentsIgnored(lines: seq<string>, names: seq<string>, comments: seq<string>)
    requires CommentedListing(lines, names, comments)
    ensures DiscoverMeans(lines) == Ok(SortStrings(names))
  {
    var n := |names|;
    var front := lines[..n];
    forall i | 0 <= i < n ensures FirstField(front[i]) == names[i] && !Blank(front[i]) && !Terminator(front[i]) {
      CommentedLine(names[i], comments[i]);
    }
    hide FirstField, Blank, Terminator, FirstTerminator, SortStrings, AfterLastBlank;
    AllAfterBlank(front);
    assert FirstFields(front[0..]) == names;
    TerminatorFound(front, lines[n], lines[n + 1..]);
    assert lines == front + ([lines[n]] + lines[n + 1..]);
  }

  /** `discoverModulesFromUpstream`, on everything the upstream sends before the stream ends or fails. */
  method Discover(stream: string) returns (r: Result)
    ensures
      var i := FirstNewline(stream);
      r == if i < 0 then Err(ReadVersion)
           else if !(VERSION_PREFIX <= stream[..i + 1]) then Err(UnexpectedVersion)
           else DiscoverMeans(CompleteLines(stream[i + 1..]))
  {
    hide FirstNewline, CompleteLines, DiscoverMeans;
    var i := FirstNewline(stream);
    if i < 0 {
      return Err(ReadVersion);
    }
    if !(VERSION_PREFIX <= stream[..i + 1]) {
      return Err(UnexpectedVersion);
    }
    r := ReadModuleNames(stream[i + 1..]);
  }

  /** The loop of discovery: collect first fields, start over at a blank line, stop at a protocol line. */
  method ReadModuleNames(stream: string) returns (r: Result)
    ensures r == DiscoverMeans(CompleteLines(stream))
    ensures forall names, comments :: CommentedListing(CompleteLines(stream), names, comments) ==>
              r == Ok(SortStrings(names))
  {
    CommentsNeverMatter(CompleteLines(stream));
    hide FirstNewline, FirstTerminator, ListedNames, FirstField, Blank, Sort, CommentedListing;
    var rest, i := stream, 0;
    ghost var all, seen := CompleteLines(rest), [];
    var modules: seq<string> := [];
    NothingListed();
    while true
      invariant all == seen + CompleteLines(rest)
      invariant forall k :: 0 <= k < |seen| ==> !Terminator(seen[k])
      invariant modules == ListedNames(seen)
      decreases |rest|
    {
      i := FirstNewline(rest);
      if i < 0 {
        NoTerminator(seen);
        assert all == seen;
        return Err(ReadModuleList);
      }
      var line := rest[..i];
      rest := rest[i + 1..];
      ListedOneMore(seen, line);
      if VERSION_PREFIX <= line {
        TerminatorFound(seen, line, CompleteLines(rest));
        assert all[..|seen|] == seen;
        return Ok(SortStrings(modules));
      }
      var field := FirstField(line);
      if field == "" {
        modules := [];
      } else {
        modules := modules + [field];
      }
      seen := seen + [line];
    }
  }

  lemma CommentsNeverMatter(lines: seq<string>)
    ensures forall names, comments :: CommentedListing(lines, names, comments) ==>
              DiscoverMeans(lines) == Ok(SortStrings(names))
  {
    hide CommentedListing, DiscoverMeans, SortStrings;
    forall names, comments | CommentedListing(lines, names, comments)
      ensures DiscoverMeans(lines) == Ok(SortStrings(names))
    {
      CommentsIgnored(lines, names, comments);
    }
  }

  lemma NothingListed()
    ensures ListedNames([]) == []
  {
  }

  lemma ListedOneMore(seen: seq<string>, line: string)
    ensures ListedNames(seen + [line]) == if Blank(line) then [] else ListedNames(seen) + [FirstField(line)]
  {
    hide Blank, FirstField;
    var lines := seen + [line];
    assert lines[..|lines| - 1] == seen && lines[|lines| - 1] == line;
    if !Blank(line) {
      var b := AfterLastBlank(seen);
      assert lines[b..] == seen[b..] + [line];
      FieldsConcat(seen[b..], [line]);
    }
  }

  lemma FieldsConcat(xs: seq<string>, ys: seq<string>)
    ensures FirstFields(xs + ys) == FirstFields(xs) + FirstFields(ys)
  {
  }

  lemma NoTerminator(lines: seq<string>)
    requires forall k :: 0 <= k < |lines| ==> !Terminator(lines[k])
    ensures FirstTerminator(lines) == |lines|
  {
  }

  lemma TerminatorFound(seen: seq<string>, line: string, later: seq<string>)
    requires Terminator(line) && forall k :: 0 <= k < |seen| ==> !Terminator(seen[k])
    ensures FirstTerminator(seen + ([line] + later)) == |seen|
  {
    hide Terminator, FirstTerminator;
    var all := seen + ([line] + later);
    assert all[|seen|] == line;
    assert forall k :: 0 <= k < |seen| ==> all[k] == seen[k];
  }

  // ---- what listing prints ----

  /** `listAllModules` on the keys of the module table, in whatever order the map yields them. */
  method ListAllModules(keys: seq<string>) returns (text: string)
    ensures text == Text(SortStrings(keys)) + EXIT
  {
    var modules := SortStrings(keys);
    text := "";
    for i := 0 to |modules|
      invariant text == Text(modules[..i])
    {
      text := text + modules[i] + "\n";
      assert modules[..i + 1][..i] == modules[..i];
    }
    assert modules[..|modules|] == modules;
    text := text + EXIT;
  }

  /** All a proxy sends to a client that asks for the list. */
  function Reply(motd: string, names: seq<string>): string {
    SERVER_VERSION + MotdText(motd) + Text(SortStrings(names)) + EXIT
  }

  /** Names that `strings.Fields` gives back whole. */
  ghost predicate WellNamed(names: seq<string>) {
    forall i :: 0 <= i < |names| ==> names[i] != "" && NoSpace(names[i])
  }

  ghost predicate NoProtocolLine(lines: seq<string>) {
    forall i :: 0 <= i < |lines| ==> !Terminator(lines[i])
  }

  /** Module names that a listing can carry. */
  ghost predicate Listable(names: seq<string>) {
    WellNamed(names) && NoProtocolLine(names)
  }

  /** The text after the last newline of the message of the day. */
  function LastLine(s: string): string {
    if s == "" || s[|s| - 1] == '\n' then "" else LastLine(s[..|s| - 1]) + [s[|s| - 1]]
  }

  // ---- the round trip ----

  lemma WholeLine(s: string)
    requires SingleLine(s)
    ensures CompleteLines(s + "\n") == [s]
  {
    hide FirstNewline, CompleteLines;
    FirstLineOf(s, "");
    assert s + "\n" + "" == s + "\n";
    NoText();
  }

  /** The last of a text's lines, once a newline is put behind it, is what followed its last newline. */
  lemma {:induction false} LastLineOf(s: string)
    ensures CompleteLines(s + "\n") != []
    ensures Last(CompleteLines(s + "\n")) == LastLine(s)
    decreases |s|
  {
    hide FirstNewline, LastLine, CompleteLines, SingleLine;
    var i := FirstNewline(s);
    if i < 0 {
      NoNewlineSingle(s);
      LastLineWhole(s);
      WholeLine(s);
    } else {
      var line, tail := s[..i], s[i + 1..];
      SplitAtNewline(s);
      FirstLineOf(line, tail + "\n");
      LastLineTail(line, tail);
      LastLineOf(tail);
    }
  }

  function Last(lines: seq<string>): string {
    if lines == [] then "" else lines[|lines| - 1]
  }

  lemma {:induction false} LastLineWhole(s: string)
    requires SingleLine(s)
    ensures LastLine(s) == s
  {
    if s != "" {
      LastLineWhole(s[..|s| - 1]);
    }
  }

  lemma {:induction false} LastLineTail(line: string, tail: string)
    ensures LastLine(line + "\n" + tail) == LastLine(tail)
    decreases |tail|
  {
    var s := line + "\n" + tail;
    if tail == "" {
    } else if tail[|tail| - 1] != '\n' {
      assert s[..|s| - 1] == line + "\n" + tail[..|tail| - 1];
      LastLineTail(line, tail[..|tail| - 1]);
    }
  }

  lemma {:induction false} AfterBlankOver(front: seq<string>, names: seq<string>)
    requires forall i :: 0 <= i < |names| ==> !Blank(names[i])
    ensures AfterLastBlank(front + names) == AfterLastBlank(front)
  {
    if names == [] {
      assert front + names == front;
    } else {
      var all := front + names;
      assert all[..|all| - 1] == front + names[..|names| - 1];
      AfterBlankOver(front, names[..|names| - 1]);
    }
  }

  /** Good names following some lines are listed after whatever those lines list. */
  lemma ListedAfter(front: seq<string>, names: seq<string>)
    requires WellNamed(names)
    ensures ListedNames(front + names) == ListedNames(front) + names
  {
    forall i | 0 <= i < |names| ensures !Blank(names[i]) && FirstField(names[i]) == names[i] {
      FirstFieldOfName(names[i]);
    }
    hide Blank, FirstField, AfterLastBlank;
    AfterBlankOver(front, names);
    var b := AfterLastBlank(front);
    assert (front + names)[b..] == front[b..] + names;
    FieldsConcat(front[b..], names);
    assert FirstFields(names) == names;
  }

  lemma SortedWellNamed(names: seq<string>)
    ensures WellNamed(SortStrings(names)) <==> WellNamed(names)
    ensures NoProtocolLine(SortStrings(names)) <==> NoProtocolLine(names)
    ensures WellNamed(names) ==> SingleLines(SortStrings(names))
  {
    var sorted := SortStrings(names);
    assert forall x :: x in multiset(sorted) <==> x in multiset(names);
    hide SortStrings;
    SameElements(sorted, names);
  }

  lemma SameElements(a: seq<string>, b: seq<string>)
    requires forall x :: x in multiset(a) <==> x in multiset(b)
    ensures WellNamed(a) <==> WellNamed(b)
    ensures NoProtocolLine(a) <==> NoProtocolLine(b)
  {
    hide NoSpace, Terminator;
    assert forall i :: 0 <= i < |a| ==> a[i] in multiset(a) && a[i] in multiset(b) && a[i] in b;
    assert forall i :: 0 <= i < |b| ==> b[i] in multiset(b) && b[i] in multiset(a) && b[i] in a;
  }

  lemma ConstantsSingle()
    ensures '\n' !in SERVER_LINE && '\n' !in EXIT_LINE && Terminator(EXIT_LINE)
  {
  }

  lemma SingleIfAbsent(line: string)
    requires '\n' !in line
    ensures SingleLine(line)
  {
  }

  lemma ConstantLines(rest: string)
    ensures FirstNewline(SERVER_VERSION + rest) == |SERVER_VERSION| - 1
    ensures CompleteLines(EXIT) == [EXIT_LINE] && Terminator(EXIT_LINE)
  {
    hide FirstNewline, CompleteLines;
    ConstantsSingle();
    SingleIfAbsent(SERVER_LINE);
    SingleIfAbsent(EXIT_LINE);
    FirstLineOf(SERVER_LINE, rest);
    FirstLineOf(EXIT_LINE, "");
    assert EXIT == EXIT_LINE + "\n" + "";
    NoText();
  }

  /** The lines another proxy's reply consists of, after its version line. */
  lemma ReplyLines(motd: string, names: seq<string>)
    requires WellNamed(names)
    ensures CompleteLines(MotdText(motd) + Text(SortStrings(names)) + EXIT) ==
            CompleteLines(MotdText(motd)) + SortStrings(names) + [EXIT_LINE]
    ensures Terminator(EXIT_LINE)
  {
    hide FirstNewline, CompleteLines, SortStrings, MotdText, Text, Terminator, WellNamed;
    var m, sorted := CompleteLines(MotdText(motd)), SortStrings(names);
    SortedWellNamed(names);
    MotdEnds(motd);
    TextOfLines(MotdText(motd));
    LinesOfText(m, Text(sorted) + EXIT);
    LinesOfText(sorted, EXIT);
    ConstantLines("");
    assert MotdText(motd) + Text(sorted) + EXIT == Text(m) + (Text(sorted) + EXIT);
    assert m + (sorted + [EXIT_LINE]) == m + sorted + [EXIT_LINE];
  }

  /** What discovery makes of another proxy's reply: the names it listed, up to the first that looks like a protocol
      line, and whatever the message of the day leaves after its last blank line. */
  lemma ReplyMeans(motd: string, names: seq<string>)
    requires WellNamed(names) && NoProtocolLine(CompleteLines(MotdText(motd)))
    ensures DiscoverMeans(CompleteLines(MotdText(motd) + Text(SortStrings(names)) + EXIT)) ==
            Ok(SortStrings(ListedNames(CompleteLines(MotdText(motd)))
                           + SortStrings(names)[..FirstTerminator(SortStrings(names))]))
  {
    hide FirstNewline, CompleteLines, ListedNames, SortStrings, MotdText, Text, WellNamed, FirstTerminator, Terminator;
    ReplyLines(motd, names);
    SortedWellNamed(names);
    CutAtTerminator(CompleteLines(MotdText(motd)), SortStrings(names), EXIT_LINE);
  }

  /** Discovery stops at the first protocol line among the names or at the exit line. */
  lemma CutAtTerminator(m: seq<string>, names: seq<string>, exit: string)
    requires NoProtocolLine(m) && WellNamed(names) && Terminator(exit)
    ensures DiscoverMeans(m + names + [exit]) == Ok(SortStrings(ListedNames(m) + names[..FirstTerminator(names)]))
  {
    hide ListedNames, SortStrings, Terminator, FirstTerminator;
    var k := FirstTerminator(names);
    var seen, last := m + names[..k], if k < |names| then names[k] else exit;
    var later := if k < |names| then names[k + 1..] + [exit] else [];
    forall i | 0 <= i < |seen| ensures !Terminator(seen[i]) {
    }
    TerminatorFound(seen, last, later);
    assert m + names + [exit] == seen + ([last] + later);
    assert (m + names + [exit])[..|seen|] == seen;
    ListedAfter(m, names[..k]);
  }

  lemma MotdEnds(motd: string)
    ensures MotdText(motd) == "" || EndsInNewline(MotdText(motd))
  {
  }

  lemma NothingExtra(lines: seq<string>)
    ensures ListedNames(lines) == [] <==> lines == [] || Blank(Last(lines))
  {
  }

  /** Whatever discovery returns is non-empty and free of white space. */
  lemma DiscoveredWellNamed(lines: seq<string>)
    ensures DiscoverMeans(lines).Ok? ==> WellNamed(DiscoverMeans(lines).modules)
  {
    hide FirstTerminator, AfterLastBlank;
    var front := lines[..FirstTerminator(lines)];
    ListedWellNamed(front);
    SortedWellNamed(ListedNames(front));
  }

  lemma ListedWellNamed(lines: seq<string>)
    ensures WellNamed(ListedNames(lines))
  {
    hide FirstField, Blank, NoSpace;
    var b := AfterLastBlank(lines);
    forall i | 0 <= i < |lines| - b ensures ListedNames(lines)[i] != "" && NoSpace(ListedNames(lines)[i]) {
      assert lines[b..][i] == lines[b + i] && !Blank(lines[b + i]);
    }
  }

  /** Discovery, run on another proxy's reply, returns exactly that proxy's module names, sorted. */
  ghost predicate RoundTrips(motd: string, names: seq<string>) {
    var stream := Reply(motd, names);
    var i := FirstNewline(stream);
    && i >= 0 && VERSION_PREFIX <= stream[..i + 1]
    && DiscoverMeans(CompleteLines(stream[i + 1..])) == Ok(SortStrings(names))
  }

  lemma ReplyBody(motd: string, names: seq<string>)
    ensures RoundTrips(motd, names) <==>
              DiscoverMeans(CompleteLines(MotdText(motd) + Text(SortStrings(names)) + EXIT)) == Ok(SortStrings(names))
  {
    hide FirstNewline, CompleteLines, DiscoverMeans, SortStrings, Text, MotdText;
    var body := MotdText(motd) + Text(SortStrings(names)) + EXIT;
    ConstantLines(body);
    assert Reply(motd, names) == SERVER_VERSION + body;
    assert (SERVER_VERSION + body)[|SERVER_VERSION|..] == body;
  }

  /** Names that are empty or contain white space are never read back. */
  lemma RoundTripNeedsNames(motd: string, names: seq<string>)
    requires RoundTrips(motd, names)
    ensures WellNamed(names)
  {
    hide FirstNewline, CompleteLines, DiscoverMeans, SortStrings, Text, MotdText, WellNamed;
    ReplyBody(motd, names);
    DiscoveredWellNamed(CompleteLines(MotdText(motd) + Text(SortStrings(names)) + EXIT));
    SortedWellNamed(names);
  }

  /** The message of the day leaves nothing behind: it is empty, or the text after its last newline is blank. */
  predicate Discarded(motd: string) {
    motd == "" || Blank(LastLine(motd))
  }

  lemma DiscardedMeans(motd: string)
    ensures ListedNames(CompleteLines(MotdText(motd))) == [] <==> Discarded(motd)
  {
    hide CompleteLines, ListedNames, Blank, LastLine;
    NothingExtra(CompleteLines(MotdText(motd)));
    if motd != "" { LastLineOf(motd); } else { NoLines(); }
  }

  lemma NoneIsTerminator(names: seq<string>)
    ensures FirstTerminator(names) == |names| <==> NoProtocolLine(names)
  {
    hide FirstTerminator;
    if NoProtocolLine(names) { NoTerminator(names); }
  }

  /** For names and a message of the day that do not look like protocol lines: discovery run on another proxy's
      listing returns exactly its module names, sorted, if and only if each name is non-empty and free of white space,
      and the message of the day is empty or the text after its last newline is blank. */
  lemma PrintParseRoundTrip(motd: string, names: seq<string>)
    requires NoProtocolLine(names) && NoProtocolLine(CompleteLines(MotdText(motd)))
    ensures RoundTrips(motd, names) <==> Discarded(motd) && WellNamed(names)
  {
    hide FirstNewline, CompleteLines, ListedNames, DiscoverMeans, SortStrings, Text;
    hide MotdText, Discarded, WellNamed, RoundTrips;
    if WellNamed(names) {
      var sorted := SortStrings(names);
      SortedWellNamed(names);
      NoneIsTerminator(sorted);
      assert sorted[..|sorted|] == sorted;
      ReplyBody(motd, names);
      ReplyMeans(motd, names);
      DiscardedMeans(motd);
      SameNamesOnly(ListedNames(CompleteLines(MotdText(motd))), names);
    } else if RoundTrips(motd, names) {
      RoundTripNeedsNames(motd, names);
    }
  }

  /** Behind a message of the day that is discarded, exactly the listable names are read back: a name that looks like
      a protocol line ends the list early. */
  lemma ListableExactly(motd: string, names: seq<string>)
    requires Discarded(motd) && NoProtocolLine(CompleteLines(MotdText(motd)))
    ensures RoundTrips(motd, names) <==> Listable(names)
  {
    hide FirstNewline, CompleteLines, ListedNames, DiscoverMeans, SortStrings, Text;
    hide MotdText, Discarded, WellNamed, RoundTrips;
    hide FirstTerminator, NoProtocolLine;
    if RoundTrips(motd, names) {
      RoundTripNeedsNames(motd, names);
    }
    if WellNamed(names) {
      var sorted := SortStrings(names);
      var k := FirstTerminator(sorted);
      SortedWellNamed(names);
      NoneIsTerminator(sorted);
      ReplyBody(motd, names);
      ReplyMeans(motd, names);
      DiscardedMeans(motd);
      assert [] + sorted[..k] == sorted[..k];
      SortedPrefix(names, k);
    }
  }

  lemma SortedPrefix(names: seq<string>, k: nat)
    requires k <= |SortStrings(names)|
    ensures SortStrings(SortStrings(names)[..k]) == SortStrings(names) <==> k == |SortStrings(names)|
  {
    hide SortStrings;
    var sorted := SortStrings(names);
    if k == |sorted| {
      assert sorted[..k] == [] + sorted;
      SameNamesOnly([], names);
    } else {
      assert |SortStrings(sorted[..k])| == k;
    }
  }

  lemma NoLines()
    ensures CompleteLines("") == []
  {
  }

  /** Sorting more names than were listed gives something else. */
  lemma SameNamesOnly(extra: seq<string>, names: seq<string>)
    ensures SortStrings(extra + SortStrings(names)) == SortStrings(names) <==> extra == []
  {
    StringsOrdered();
    hide Sort;
    if extra == [] {
      assert extra + SortStrings(names) == SortStrings(names);
      SortIgnoresOrder(SortStrings(names), names, StrLe);
    } else {
      assert |SortStrings(extra + SortStrings(names))| != |SortStrings(names)|;
    }
  }

  /** In particular a message of the day that ends in a newline is discarded. */
  lemma TrailingNewlineSuffices(motd: string)
    requires EndsInNewline(motd)
    ensures Discarded(motd)
  {
  }
}
