/** The rsync handshake of `relay` in `pkg/server/server.go`, as a transformer of byte streams.

One 256-byte buffer serves all three line reads. What the client and the upstream will send, and which writes will
fail, are inputs; what `relay` does with them is stated in terms of those inputs, over every fragmentation. */
module Handshake {
  import opened Streams

  const READ_BUFFER_SIZE: nat := 256
  const VERSION_PREFIX := "@RSYNCD:"
  const SERVER_LINE := "@RSYNCD: 32.0 sha512 sha256 sha1 md5 md4"
  const SERVER_VERSION := SERVER_LINE + "\n"
  const EXIT_LINE := "@RSYNCD: EXIT"
  const EXIT := EXIT_LINE + "\n"
  const QUEUE_FULL := "Server queue is full for this upstream. Please retry later.\n"

  function UnknownModuleText(name: string): string {
    "@ERROR: Unknown module '" + name + "'\n"
  }

  // ---- what relay is given ----

  /** What the queue told the relay: rejected, or admitted after some notices. */
  datatype Admission = Full | Granted(notices: seq<string>)

  datatype Outcome =
    | ReadVersionFailed
    | UnknownVersion
    | SendVersionFailed
    | ReadModuleFailed
    | SendMotdFailed
    | Listed(complete: bool)
    | UnknownModule
    | Rejected
    | SendNoticeFailed
    | DialFailed
    | SendHeaderFailed
    | ForwardVersionFailed
    | ReadUpstreamFailed
    | UnknownUpstreamVersion
    | SendTailFailed
    | ForwardModuleFailed
    | Relayed(received: nat, upOk: bool, sent: nat, downOk: bool)

  function MotdText(motd: string): string {
    if motd == "" then "" else motd + "\n"
  }

  function Concat(texts: seq<string>): string {
    if texts == [] then "" else Concat(texts[..|texts| - 1]) + texts[|texts| - 1]
  }

  /** Everything the proxy itself says to an admitted client. */
  function Preamble(motd: string, notices: seq<string>): string {
    SERVER_VERSION + MotdText(motd) + Concat(notices)
  }

  /** The part of an upstream stream meant for the client: what follows the first line, if that line fits
      the read buffer; otherwise everything. */
  function ClientPart(stream: string): string {
    var i := FirstNewline(stream);
    if 0 <= i < READ_BUFFER_SIZE then stream[i + 1..] else stream
  }

  /** The version line of a client, and what is left of its stream then. */
  function VersionOf(c: Stream): string {
    LineOf(c, READ_BUFFER_SIZE)
  }

  function AfterVersion(c: Stream): Stream {
    AfterLine(c, READ_BUFFER_SIZE)
  }

  /** The module read of a client, and what is left then for the copy to the upstream. */
  function RequestOf(c: Stream): string {
    LineOf(AfterVersion(c), READ_BUFFER_SIZE)
  }

  function AfterRequest(c: Stream): Stream {
    AfterLine(AfterVersion(c), READ_BUFFER_SIZE)
  }

  /** The request without its last byte: `string(buf[:n-1])`. */
  function Trimmed(request: string): string {
    if request == "" then "" else request[..|request| - 1]
  }

  /** A line with the protocol prefix is read without an error. */
  predicate Versioned(s: Stream) {
    LineComplete(s, READ_BUFFER_SIZE) && VERSION_PREFIX <= LineOf(s, READ_BUFFER_SIZE)
  }

  /** Both lines of the client are read. */
  predicate Greeted(c: Stream) {
    Versioned(c) && LineComplete(AfterVersion(c), READ_BUFFER_SIZE)
  }

  /** The request is for a known module, and the queue let it in. */
  predicate Admitted(request: string, known: set<string>, admission: Admission) {
    |request| > 1 && Trimmed(request) in known && admission.Granted?
  }

  // ---- why a relay ends ----

  predicate GreetCause(outcome: Outcome, c: Stream, sound: bool) {
    match outcome
    case ReadVersionFailed => !LineComplete(c, READ_BUFFER_SIZE)
    case UnknownVersion => LineComplete(c, READ_BUFFER_SIZE) && !(VERSION_PREFIX <= VersionOf(c))
    case SendVersionFailed => Versioned(c) && !sound
    case ReadModuleFailed => Versioned(c) && !LineComplete(AfterVersion(c), READ_BUFFER_SIZE)
    case SendMotdFailed => Greeted(c) && !sound
    case _ => false
  }

  predicate DecideCause(outcome: Outcome, request: string, known: set<string>, admission: Admission,
                        dialOk: bool, sound: bool)
  {
    match outcome
    case Listed(complete) => |request| == 1 && (sound ==> complete)
    case UnknownModule => |request| > 1 && Trimmed(request) !in known
    case Rejected => |request| > 1 && Trimmed(request) in known && admission.Full?
    case SendNoticeFailed => Admitted(request, known, admission) && !sound
    case DialFailed => Admitted(request, known, admission) && !dialOk
    case _ => false
  }

  predicate IntroduceCause(outcome: Outcome, u: Stream, sound: bool) {
    match outcome
    case SendHeaderFailed => !sound
    case ForwardVersionFailed => !sound
    case ReadUpstreamFailed => !LineComplete(u, READ_BUFFER_SIZE)
    case UnknownUpstreamVersion => LineComplete(u, READ_BUFFER_SIZE) && !(VERSION_PREFIX <= LineOf(u, READ_BUFFER_SIZE))
    case _ => false
  }

  predicate ConverseCause(outcome: Outcome, u: Stream, downSound: bool, upSound: bool) {
    match outcome
    case SendTailFailed => Versioned(u) && !downSound
    case ForwardModuleFailed => Versioned(u) && !upSound
    case Relayed(_, upOk, _, downOk) => Versioned(u) && (upSound ==> upOk) && (downSound ==> downOk)
    case _ => IntroduceCause(outcome, u, upSound)
  }

  /** Every outcome has its cause in the inputs. Without a failed write there is exactly one possible outcome. */
  predicate Explained(outcome: Outcome, c: Stream, u: Stream, known: set<string>, admission: Admission, dialOk: bool,
                      downSound: bool, upSound: bool)
  {
    || GreetCause(outcome, c, downSound)
    || (Greeted(c) && DecideCause(outcome, RequestOf(c), known, admission, dialOk, downSound))
    || (Greeted(c) && Admitted(RequestOf(c), known, admission) && dialOk && ConverseCause(outcome, u, downSound, upSound))
  }

  /** Nothing but a failed write stands between the client and the upstream. */
  predicate CanRelay(c: Stream, u: Stream, known: set<string>, admission: Admission, dialOk: bool) {
    Greeted(c) && Admitted(RequestOf(c), known, admission) && dialOk && Versioned(u)
  }

  /** A relay that is possible happens, completely, unless a write fails; one that is not does not. */
  lemma RelayedExactly(outcome: Outcome, c: Stream, u: Stream, known: set<string>, admission: Admission, dialOk: bool,
                       downSound: bool, upSound: bool)
    requires Explained(outcome, c, u, known, admission, dialOk, downSound, upSound)
    ensures outcome.Relayed? ==> CanRelay(c, u, known, admission, dialOk)
    ensures CanRelay(c, u, known, admission, dialOk) && downSound && upSound ==>
              outcome.Relayed? && outcome.upOk && outcome.downOk
  {
  }

  /** Without a failed write the inputs decide the outcome, up to the byte counts. */
  lemma OneOutcome(o1: Outcome, o2: Outcome, c: Stream, u: Stream, known: set<string>, admission: Admission, dialOk: bool)
    requires Explained(o1, c, u, known, admission, dialOk, true, true)
    requires Explained(o2, c, u, known, admission, dialOk, true, true)
    ensures o1 == o2 || (o1.Relayed? && o2.Relayed? && o1.upOk && o2.upOk && o1.downOk && o2.downOk)
  {
  }

  lemma DropFromConcat(a: string, b: string, k: nat)
    requires k <= |a|
    ensures (a + b)[k..] == a[k..] + b
  {
  }

  lemma ClientPartAfter(s: string, at: nat)
    requires FirstNewline(s) == at - 1 && 0 < at <= READ_BUFFER_SIZE && at <= |s|
    ensures ClientPart(s) == s[at..]
  {
    hide FirstNewline;
  }

  lemma ClientPartWhole(s: string)
    requires FirstNewline(s) == -1 || FirstNewline(s) >= READ_BUFFER_SIZE
    ensures ClientPart(s) == s
  {
    hide FirstNewline;
  }

  /** The tail that is forwarded from the buffer, followed by the unread stream, is the client's part,
      wherever the fragments fell. */
  lemma TailOfLine(data: string, rest: string, at: nat)
    requires |data| <= READ_BUFFER_SIZE && at == FirstNewline(data) + 1
    requires EndsInNewline(data) || |data| == READ_BUFFER_SIZE
    ensures ClientPart(data + rest) == data[at..] + rest
  {
    hide FirstNewline, ClientPart;
    LastIsNewline(data);
    FirstNewlineExtends(data, rest);
    if at > 0 {
      ClientPartAfter(data + rest, at);
    } else {
      ClientPartWhole(data + rest);
    }
    DropFromConcat(data, rest, at);
  }

  // ---- the reply to an unknown module ----

  /** Single-quoted text behind a fixed start, and before a fixed end, read back. */
  function NameIn(reply: string): string {
    if |reply| < 26 then "" else reply[24..|reply| - 2]
  }

  /** The reply starts with the marker that makes an rsync client fail, ends in a newline, names the module, and is one
      line if the name is. Different names get different replies. */
  lemma UnknownModuleReply(name: string)
    ensures var reply := UnknownModuleText(name);
      && "@ERROR: " <= reply && EndsInNewline(reply) && NameIn(reply) == name
      && reply == "@ERROR: Unknown module '" + name + "'" + "\n"
      && ('\n' !in name ==> FirstNewline(reply) == |reply| - 1)
  {
    var reply := UnknownModuleText(name);
    var start := "@ERROR: Unknown module '";
    assert |start| == 24 && |reply| == |name| + 26;
    assert reply[24..|reply| - 2] == name;
    assert "@ERROR: " <= start;
    if '\n' !in name {
      assert forall i :: 0 <= i < |start| ==> start[i] != '\n';
      forall j | 0 <= j < |reply| - 1 ensures reply[j] != '\n' {
        if j < 24 { assert reply[j] == start[j]; }
        else if j < 24 + |name| { assert reply[j] == name[j - 24]; }
        else { assert reply[j] == '\''; }
      }
      FirstAt(reply, |reply| - 1);
    }
  }

  // ---- the stages of relay ----

  /** Client version, server version, request and message of the day. When `over`, so is the relay. */
  method Greet(down: Conn, buf: array<char>, motd: string)
      returns (over: bool, outcome: Outcome, version: array<char>, n: nat)
    requires buf.Length == READ_BUFFER_SIZE
    modifies down, buf
    ensures fresh(version)
    ensures over ==> GreetCause(outcome, old(down.Input()), Sound(old(down.writes)))
    ensures !over ==>
      && Greeted(old(down.Input())) && down.Input() == AfterRequest(old(down.Input()))
      && version[..] == VersionOf(old(down.Input()))
      && 0 < n <= READ_BUFFER_SIZE && buf[..n] == RequestOf(old(down.Input()))
      && down.sent == old(down.sent) + SERVER_VERSION + MotdText(motd)
    ensures old(down.sent) <= down.sent <= old(down.sent) + SERVER_VERSION + MotdText(motd)
    ensures |down.pending| <= |old(down.pending)|
    ensures Sound(old(down.writes)) ==> Sound(down.writes)
  {
    hide LineOf, AfterLine, LineComplete, Sound;
    ghost var c := down.Input();
    AfterLineSuffix(c, READ_BUFFER_SIZE);
    AfterLineSuffix(AfterVersion(c), READ_BUFFER_SIZE);
    over, outcome := true, ReadVersionFailed;
    var err;
    n, err := ReadLine(down, buf);
    version := new char[n];
    if err {
      return;
    }
    forall i | 0 <= i < n {
      version[i] := buf[i];
    }
    ghost var v := buf[..n];
    assert version[..] == v;
    if !(VERSION_PREFIX <= version[..]) {
      outcome := UnknownVersion;
      return;
    }
    var ok := down.Write(SERVER_VERSION);
    if !ok {
      outcome := SendVersionFailed;
      return;
    }
    n, err := ReadLine(down, buf);
    if err {
      outcome := ReadModuleFailed;
      return;
    }
    LineNotEmpty(AfterVersion(c), READ_BUFFER_SIZE);
    assert n != 0;  // so the test for an empty request never succeeds
    if motd != "" {
      ok := down.Write(motd + "\n");
      if !ok {
        outcome := SendMotdFailed;
        return;
      }
    }
    over := false;
  }

  lemma LineNotEmpty(s: Stream, room: nat)
    requires LineComplete(s, room) && room > 0
    ensures LineOf(s, room) != ""
  {
  }

  lemma AfterLineSuffix(s: Stream, room: nat)
    ensures LineOf(s, room) <= s.text && AfterLine(s, room).text == s.text[|LineOf(s, room)|..]
    ensures |AfterLine(s, room).text| <= |s.text|
  {
  }

  /** The notices a waiting client is sent. */
  method SendNotices(down: Conn, notices: seq<string>) returns (ok: bool)
    modifies down`sent, down`writes
    ensures old(down.sent) <= down.sent <= old(down.sent) + Concat(notices)
    ensures ok ==> down.sent == old(down.sent) + Concat(notices)
    ensures Sound(old(down.writes)) ==> ok && Sound(down.writes)
  {
    hide Sound, Concat;
    ok := true;
    NoNotices(old(down.sent), notices);
    for i := 0 to |notices|
      invariant down.sent == old(down.sent) + Concat(notices[..i])
      invariant ok
      invariant Sound(old(down.writes)) ==> Sound(down.writes)
    {
      ok := down.Write(notices[i]);
      NoticeSent(old(down.sent), down.sent, notices, i);
      if !ok {
        return;
      }
    }
    assert notices[..|notices|] == notices;
  }

  lemma NoNotices(before: string, notices: seq<string>)
    ensures before + Concat(notices[..0]) == before && before <= before + Concat(notices)
  {
  }

  lemma NoticeSent(before: string, after: string, notices: seq<string>, i: nat)
    requires i < |notices|
    ensures before + Concat(notices[..i]) + notices[i] == before + Concat(notices[..i + 1])
    ensures after <= before + Concat(notices[..i]) + notices[i] ==> after <= before + Concat(notices)
  {
    var more := notices[..i + 1];
    assert more[..i] == notices[..i] && more[i] == notices[i];
    ConcatPrefix(notices, i + 1);
    hide Concat;
    Associate(before, Concat(notices[..i]), notices[i]);
    PrefixOfLonger(after, before, Concat(more), Concat(notices));
  }

  lemma PrefixOfLonger(after: string, before: string, part: string, whole: string)
    requires part <= whole
    ensures after <= before + part ==> after <= before + whole
  {
    assert whole == part + whole[|part|..];
    assert before + whole == before + part + whole[|part|..];
  }

  lemma {:induction false} ConcatPrefix(texts: seq<string>, i: nat)
    requires i <= |texts|
    ensures Concat(texts[..i]) <= Concat(texts)
    decreases |texts|
  {
    if i == |texts| {
      assert texts[..i] == texts;
    } else {
      var front := texts[..|texts| - 1];
      assert front[..i] == texts[..i];
      ConcatPrefix(front, i);
    }
  }

  /** From the open upstream connection to its first line: header and version out, one line in. */
  method Introduce(up: Conn, buf: array<char>, header: string, version: array<char>)
      returns (over: bool, outcome: Outcome, n: nat)
    requires buf.Length == READ_BUFFER_SIZE && version != buf
    modifies up, buf
    ensures old(up.sent) <= up.sent <= old(up.sent) + header + version[..]
    ensures over ==> IntroduceCause(outcome, old(up.Input()), Sound(old(up.writes)))
    ensures !over ==>
      && Versioned(old(up.Input())) && up.Input() == AfterLine(old(up.Input()), READ_BUFFER_SIZE)
      && n <= buf.Length && buf[..n] == LineOf(old(up.Input()), READ_BUFFER_SIZE)
      && up.sent == old(up.sent) + header + version[..]
    ensures |up.pending| <= |old(up.pending)|
    ensures Sound(old(up.writes)) ==> Sound(up.writes)
  {
    hide LineOf, AfterLine, LineComplete, Sound;
    AfterLineSuffix(up.Input(), READ_BUFFER_SIZE);
    over, outcome, n := true, SendHeaderFailed, 0;
    var ok := true;
    if header != "" {
      ok := up.Write(header);
      if !ok {
        return;
      }
    }
    ok := up.Write(version[..]);
    if !ok {
      outcome := ForwardVersionFailed;
      return;
    }
    var err;
    n, err := ReadLine(up, buf);
    if err {
      outcome := ReadUpstreamFailed;
      return;
    }
    if !(VERSION_PREFIX <= buf[..n]) {
      outcome := UnknownUpstreamVersion;
      return;
    }
    over := false;
  }

  /** What followed the upstream's first line in the buffer goes to the client, the request to the upstream. */
  method Forward(down: Conn, up: Conn, data: string, moduleName: string) returns (over: bool, outcome: Outcome)
    requires down != up
    modifies up`sent, up`writes, down`sent, down`writes
    ensures over ==>
      || (outcome == SendTailFailed && !Sound(old(down.writes)))
      || (outcome == ForwardModuleFailed && !Sound(old(up.writes)))
    ensures old(up.sent) <= up.sent <= old(up.sent) + (moduleName + "\n")
    ensures old(down.sent) <= down.sent <= old(down.sent) + data[FirstNewline(data) + 1..]
    ensures !over ==> up.sent == old(up.sent) + (moduleName + "\n")
    ensures !over ==> down.sent == old(down.sent) + data[FirstNewline(data) + 1..]
    ensures Sound(old(down.writes)) ==> Sound(down.writes)
    ensures Sound(old(up.writes)) ==> Sound(up.writes)
  {
    hide FirstNewline, Sound;
    over, outcome := true, SendTailFailed;
    var idx := FirstNewline(data);
    ghost var tail := data[idx + 1..];
    if idx + 1 < |data| {
      var ok := down.Write(data[idx + 1..]);
      if !ok {
        return;
      }
    }
    assert down.sent == old(down.sent) + tail;
    var ok := up.Write(moduleName + "\n");
    if !ok {
      outcome := ForwardModuleFailed;
      return;
    }
    over := false;
  }

  lemma PrefixOfConcat(a: string, b: string, c: string)
    requires a <= b
    ensures a <= b + c
  {
  }

  /** What was written so far grew by a prefix of what was meant, and by all of it when complete. */
  ghost predicate Carried(before: string, after: string, meant: string, complete: bool) {
    before <= after <= meant && (complete ==> after == meant)
  }

  lemma CarriedFrom(before: string, mid: string, after: string, meant: string, complete: bool)
    requires before <= mid && Carried(mid, after, meant, complete)
    ensures Carried(before, after, meant, complete)
  {
  }

  /** The bytes of a stream that have been read, once `left` is left. */
  function ReadSoFar(s: Stream, left: string): string {
    if |left| <= |s.text| then s.text[..|s.text| - |left|] else ""
  }

  /** Tail and copied bytes together are the client's part of what was read from the upstream. */
  lemma ClientGets(front: string, u: Stream, left: string, at: nat)
    requires LineComplete(u, READ_BUFFER_SIZE) && |left| <= |AfterLine(u, READ_BUFFER_SIZE).text|
    requires at == FirstNewline(LineOf(u, READ_BUFFER_SIZE)) + 1
    ensures front + LineOf(u, READ_BUFFER_SIZE)[at..] + ReadSoFar(AfterLine(u, READ_BUFFER_SIZE), left)
            == front + ClientPart(ReadSoFar(u, left))
  {
    hide FirstNewline, ClientPart, EndsInNewline, LineOf;
    var data, rest := LineOf(u, READ_BUFFER_SIZE), AfterLine(u, READ_BUFFER_SIZE).text;
    var k := |rest| - |left|;
    assert data == u.text[..|data|];
    TakeMore(u.text, |data|, k);
    TailOfLine(data, rest[..k], at);
    Associate(front, data[at..], rest[..k]);
  }

  /** The two copies at the end. They touch different fields, so their interleaving does not matter; either may be cut
      short by its scripts. */
  method CopyBoth(down: Conn, up: Conn) returns (outcome: Outcome)
    requires down != up
    modifies down, up
    ensures outcome.Relayed?
    ensures |down.pending| <= |old(down.pending)| && |up.pending| <= |old(up.pending)|
    ensures Carried(old(up.sent), up.sent, old(up.sent) + ReadSoFar(old(down.Input()), down.pending), outcome.upOk)
    ensures Carried(old(down.sent), down.sent, old(down.sent) + ReadSoFar(old(up.Input()), up.pending), outcome.downOk)
    ensures outcome.upOk ==> down.Input() == AfterCopy(old(down.Input()))
    ensures outcome.downOk ==> up.Input() == AfterCopy(old(up.Input()))
    ensures Sound(old(up.writes)) ==> outcome.upOk
    ensures Sound(old(down.writes)) ==> outcome.downOk
  {
    hide AfterCopy, Sound;
    var received, upOk := Copy(up, down);
    var sent, downOk := Copy(down, up);
    outcome := Relayed(received, upOk, sent, downOk);
  }

  /** The conversation once the upstream connection is open, ending with the two copies. */
  method Converse(down: Conn, up: Conn, buf: array<char>, header: string, version: array<char>, moduleName: string)
      returns (outcome: Outcome)
    requires down != up && buf.Length == READ_BUFFER_SIZE && version != buf
    modifies down, up, buf
    ensures ConverseCause(outcome, old(up.Input()), Sound(old(down.writes)), Sound(old(up.writes)))
    ensures |down.pending| <= |old(down.pending)| && |up.pending| <= |old(up.pending)|
    ensures Carried(old(up.sent), up.sent,
              old(up.sent) + header + old(version[..]) + (moduleName + "\n") + ReadSoFar(old(down.Input()), down.pending),
              outcome.Relayed? && outcome.upOk)
    ensures old(down.sent) <= down.sent
    ensures outcome.Relayed? ==>
      Carried(old(down.sent), down.sent, old(down.sent) + ClientPart(ReadSoFar(old(up.Input()), up.pending)), outcome.downOk)
    ensures outcome.Relayed? && outcome.upOk ==> down.Input() == AfterCopy(old(down.Input()))
    ensures outcome.Relayed? && outcome.downOk ==> up.Input() == AfterCopy(AfterLine(old(up.Input()), READ_BUFFER_SIZE))
  {
    hide FirstNewline, ClientPart, LineOf, AfterLine, LineComplete, Sound, AfterCopy, Carried, Versioned;
    hide IntroduceCause, ConverseCause;
    ghost var u, d, upBefore, downBefore := up.Input(), down.Input(), up.sent, down.sent;
    ghost var hello := upBefore + header + version[..];
    AfterLineSuffix(u, READ_BUFFER_SIZE);
    var over, n;
    over, outcome, n := Introduce(up, buf, header, version);
    if over {
      NoneRead(d, down.pending);
      IntroduceFails(outcome, u, Sound(old(down.writes)), Sound(old(up.writes)));
      IntroducedSoFar(upBefore, up.sent, hello, moduleName + "\n");
      return;
    }
    VersionedMeans(u);
    ghost var at := FirstNewline(LineOf(u, READ_BUFFER_SIZE)) + 1;
    ghost var downLate, upLate := Sound(down.writes), Sound(up.writes);
    over, outcome := Forward(down, up, buf[..n], moduleName);
    if over {
      NoneRead(d, down.pending);
      ForwardFails(outcome, u, Sound(old(down.writes)), downLate, Sound(old(up.writes)), upLate);
      ForwardedSoFar(upBefore, up.sent, hello, moduleName + "\n");
      return;
    }
    ghost var upMid, downMid := up.sent, down.sent;
    outcome := CopyBoth(down, up);
    CopiesCause(outcome, u, Sound(old(down.writes)), Sound(old(up.writes)));
    CarriedFrom(upBefore, upMid, up.sent, upMid + ReadSoFar(d, down.pending), outcome.upOk);
    ClientGets(downBefore, u, up.pending, at);
    CarriedFrom(downBefore, downMid, down.sent, downBefore + ClientPart(ReadSoFar(u, up.pending)), outcome.downOk);
  }

  lemma IntroduceFails(outcome: Outcome, u: Stream, downSound: bool, upSound: bool)
    requires IntroduceCause(outcome, u, upSound)
    ensures ConverseCause(outcome, u, downSound, upSound) && !outcome.Relayed?
  {
  }

  lemma ForwardFails(outcome: Outcome, u: Stream, downSound: bool, downLate: bool, upSound: bool, upLate: bool)
    requires Versioned(u) && (downSound ==> downLate) && (upSound ==> upLate)
    requires (outcome == SendTailFailed && !downLate) || (outcome == ForwardModuleFailed && !upLate)
    ensures ConverseCause(outcome, u, downSound, upSound) && !outcome.Relayed?
  {
  }

  lemma CopiesCause(outcome: Outcome, u: Stream, downSound: bool, upSound: bool)
    requires Versioned(u) && outcome.Relayed? && (upSound ==> outcome.upOk) && (downSound ==> outcome.downOk)
    ensures ConverseCause(outcome, u, downSound, upSound)
  {
  }

  lemma VersionedMeans(s: Stream)
    requires Versioned(s)
    ensures LineComplete(s, READ_BUFFER_SIZE)
  {
  }

  lemma NoneRead(s: Stream, left: string)
    ensures left == s.text ==> ReadSoFar(s, left) == ""
  {
  }

  lemma IntroducedSoFar(before: string, after: string, hello: string, request: string)
    requires before <= after <= hello
    ensures Carried(before, after, hello + request + "", false)
  {
    PrefixOfConcat(after, hello, request + "");
    Associate(hello, request, "");
  }

  lemma ForwardedSoFar(before: string, after: string, hello: string, request: string)
    requires before <= hello <= after <= hello + request
    ensures Carried(before, after, hello + request + "", false)
  {
    PrefixOfConcat(after, hello + request, "");
  }

  // ---- transparency towards the upstream ----

  /** With its last byte replaced by a newline the request is unchanged exactly when it ended in one. */
  lemma TrimmedRequest(request: string)
    requires request != ""
    ensures Trimmed(request) + "\n" == request <==> EndsInNewline(request)
  {
    var sentOn := Trimmed(request) + "\n";
    assert sentOn[|request| - 1] == '\n';
  }

  /** What the upstream gets for the request is as long, and the same but for the last byte, which is a newline. */
  lemma CutChangesOneByte(request: string)
    requires request != ""
    ensures var sentOn := Trimmed(request) + "\n";
      && |sentOn| == |request| && sentOn[|request| - 1] == '\n'
      && forall i :: 0 <= i < |request| - 1 ==> sentOn[i] == request[i]
  {
  }

  /** Version, trimmed request with a newline, and later bytes are the client's bytes iff nothing was trimmed. */
  lemma RequestTransparent(front: string, stream: string, version: string, request: string, read: nat)
    requires version + request <= stream && request != "" && |version| + |request| + read <= |stream|
    ensures var sentOn := Trimmed(request) + "\n";
      var later := stream[|version| + |request|..][..read];
      front + version + sentOn + later == front + stream[..|version| + |request| + read] <==> EndsInNewline(request)
  {
    var sentOn := Trimmed(request) + "\n";
    var later := stream[|version| + |request|..][..read];
    TrimmedRequest(request);
    assert stream[..|version| + |request| + read] == version + request + later;
    var a, b := front + version + sentOn + later, front + (version + request + later);
    if EndsInNewline(request) {
      assert a == b;
    } else {
      var at := |front| + |version| + |request| - 1;
      assert a[at] == '\n' && b[at] == request[|request| - 1];
    }
  }

  /** Transparency towards the upstream: what was written, against the client's bytes read so far. */
  ghost predicate Transparent(before: string, after: string, header: string, read: string, request: string, complete: bool) {
    && before <= after
    && (EndsInNewline(request) ==> after <= before + header + read)
    && (complete ==> (EndsInNewline(request) <==> after == before + header + read))
  }

  lemma NothingSent(before: string, header: string, read: string, request: string)
    ensures Transparent(before, before, header, read, request, false)
  {
    assert before + header + read == before + (header + read);
  }

  /** Two lines are the first bytes of the stream. */
  lemma LinesInFront(c: Stream)
    requires Greeted(c)
    ensures VersionOf(c) + RequestOf(c) <= c.text && RequestOf(c) != ""
    ensures |VersionOf(c)| + |RequestOf(c)| + |AfterRequest(c).text| == |c.text|
    ensures AfterRequest(c).text == c.text[|VersionOf(c)| + |RequestOf(c)|..]
  {
    hide LineOf;
    var rest := AfterVersion(c).text;
    LineNotEmpty(AfterVersion(c), READ_BUFFER_SIZE);
    assert rest == c.text[|VersionOf(c)|..];
    TakeMore(c.text, |VersionOf(c)|, |RequestOf(c)|);
  }

  lemma SentTransparently(before: string, after: string, header: string, c: Stream, left: string, complete: bool)
    requires Greeted(c) && |left| <= |AfterRequest(c).text|
    requires Carried(before, after,
               before + header + VersionOf(c) + (Trimmed(RequestOf(c)) + "\n") + ReadSoFar(AfterRequest(c), left), complete)
    ensures Transparent(before, after, header, ReadSoFar(c, left), RequestOf(c), complete)
  {
    hide LineOf, AfterLine, Greeted, VersionOf, RequestOf, AfterRequest, Trimmed, EndsInNewline, Carried, Transparent;
    LinesInFront(c);
    CarriedTransparently(before, after, header, c.text, VersionOf(c), RequestOf(c), |AfterRequest(c).text| - |left|,
                         complete);
  }

  lemma CarriedTransparently(before: string, after: string, header: string, text: string, version: string, request: string,
                             read: nat, complete: bool)
    requires version + request <= text && request != "" && |version| + |request| + read <= |text|
    requires Carried(before, after,
               before + header + version + (Trimmed(request) + "\n") + text[|version| + |request|..][..read], complete)
    ensures Transparent(before, after, header, text[..|version| + |request| + read], request, complete)
  {
    RequestTransparent(before + header, text, version, request, read);
  }

  lemma WholeUpstream(front: string, after: string, u: Stream, left: Stream)
    requires left == AfterCopy(AfterLine(u, READ_BUFFER_SIZE)) && after == front + ClientPart(ReadSoFar(u, left.text))
    ensures ArrivesWhole(AfterLine(u, READ_BUFFER_SIZE)) ==> left.text == "" && after == front + ClientPart(u.text)
  {
    hide ClientPart, AfterLine, CopyBytes;
    assert u.text[..|u.text|] == u.text;
  }

  lemma WholeClient(before: string, after: string, header: string, c: Stream, left: Stream)
    requires left == AfterCopy(AfterRequest(c))
    requires Transparent(before, after, header, ReadSoFar(c, left.text), RequestOf(c), true)
    ensures ArrivesWhole(AfterRequest(c)) ==>
      left.text == "" && (EndsInNewline(RequestOf(c)) <==> after == before + header + c.text)
  {
    hide AfterRequest, RequestOf, CopyBytes, EndsInNewline;
    assert c.text[..|c.text|] == c.text;
  }

  /** Streams that never fail while there are bytes left arrive whole at both copies, whatever their fragments. */
  lemma SteadyStreamsArrive(c: Stream, u: Stream)
    ensures Steady(c) ==> ArrivesWhole(AfterRequest(c))
    ensures Steady(u) ==> ArrivesWhole(AfterLine(u, READ_BUFFER_SIZE))
  {
    hide Steady, ArrivesWhole, AfterLine;
    if Steady(c) {
      SteadyAfterLine(c, READ_BUFFER_SIZE);
      SteadyAfterLine(AfterVersion(c), READ_BUFFER_SIZE);
      SteadyArrives(AfterRequest(c));
    }
    if Steady(u) {
      SteadyAfterLine(u, READ_BUFFER_SIZE);
      SteadyArrives(AfterLine(u, READ_BUFFER_SIZE));
    }
  }

  // ---- which upstreams are relayed under every fragmentation ----

  /** An upstream text that starts with the protocol prefix and ends in a newline or fills the buffer. */
  predicate UpstreamText(text: string) {
    VERSION_PREFIX <= text && LineText(text, READ_BUFFER_SIZE)
  }

  /** A complete line of a text that starts with the prefix starts with it too: the prefix has no newline in it. */
  lemma PrefixInLine(s: Stream)
    requires VERSION_PREFIX <= s.text && LineComplete(s, READ_BUFFER_SIZE)
    ensures VERSION_PREFIX <= LineOf(s, READ_BUFFER_SIZE)
  {
    hide LineOf;
    var line := LineOf(s, READ_BUFFER_SIZE);
    assert forall i :: 0 <= i < |VERSION_PREFIX| ==> s.text[i] == VERSION_PREFIX[i] && VERSION_PREFIX[i] != '\n';
    assert |line| > 0 ==> line[|line| - 1] == s.text[|line| - 1];
    assert |line| > |VERSION_PREFIX| - 1;
    assert line == s.text[..|line|];
  }

  lemma OneByteEach(text: string)
    ensures Steady(Stream(text, seq(|text|, _ => ReadEvent(1, false))))
  {
  }

  /** Exactly which upstream texts get past the version check however an error-free stream delivers them. */
  lemma UpstreamTextExactly(text: string)
    ensures (forall script | Steady(Stream(text, script)) :: Versioned(Stream(text, script))) <==> UpstreamText(text)
  {
    LineTextExactly(text, READ_BUFFER_SIZE);
    hide LineComplete, LineOf, LineText, Steady;
    if UpstreamText(text) {
      forall script | Steady(Stream(text, script)) ensures Versioned(Stream(text, script)) {
        PrefixInLine(Stream(text, script));
      }
    }
    if forall script | Steady(Stream(text, script)) :: Versioned(Stream(text, script)) {
      OneByteEach(text);
      var s := Stream(text, seq(|text|, _ => ReadEvent(1, false)));
      assert Versioned(s);
      assert LineOf(s, READ_BUFFER_SIZE) <= text;
    }
  }

  /** For other texts the fragments decide: this one is accepted in two reads, while in one read the buffer does not end
      in a newline and the next read finds nothing more. */
  lemma FragmentsDecide()
    ensures var text := "@RSYNCD:\nab";
      && Steady(Stream(text, [ReadEvent(9, false)] + AtOnce(text)))
      && Versioned(Stream(text, [ReadEvent(9, false)] + AtOnce(text)))
      && Steady(Stream(text, AtOnce(text))) && !LineComplete(Stream(text, AtOnce(text)), READ_BUFFER_SIZE)
  {
    var text := "@RSYNCD:\nab";
    assert text == "@RSYNCD:\n" + "ab";
    FirstRead(Stream(text, [ReadEvent(9, false)] + AtOnce(text)), "@RSYNCD:\n", "ab", AtOnce(text));
    assert text[10] == 'b';
    AtOnceIncomplete(text, READ_BUFFER_SIZE);
  }

  /** A module read that fills the buffer without a newline is cut: with the 256-byte request "aa..a" for a known
      module a relay takes place, and the upstream gets a newline for the last "a", although no read or write fails. */
  lemma LongRequestIsCut()
    ensures var long := seq(256, _ => 'a');
      var c := Stream("@RSYNCD:\n" + long, [ReadEvent(9, false), ReadEvent(256, false)]);
      var u := Stream("@RSYNCD:\n", [ReadEvent(9, false)]);
      && VersionOf(c) == "@RSYNCD:\n" && RequestOf(c) == long && AfterRequest(c) == Stream("", [])
      && CanRelay(c, u, {Trimmed(long)}, Granted([]), true)
      && !EndsInNewline(RequestOf(c))
      && VersionOf(c) + (Trimmed(RequestOf(c)) + "\n") != c.text
  {
    var long := seq(256, _ => 'a');
    var first := "@RSYNCD:\n";
    var c := Stream(first + long, [ReadEvent(9, false), ReadEvent(256, false)]);
    FirstRead(c, first, long, [ReadEvent(256, false)]);
    var rest := Stream(long, [ReadEvent(256, false)]);
    assert AfterVersion(c) == rest;
    OneRead(rest);
    var u := Stream(first, [ReadEvent(9, false)]);
    assert first + "" == first && [ReadEvent(9, false)] + [] == [ReadEvent(9, false)];
    FirstRead(u, first, "", []);
    hide LineOf, AfterLine, LineComplete;
    assert long[255] == 'a';
    var sentOn := VersionOf(c) + (Trimmed(RequestOf(c)) + "\n");
    assert sentOn[264] == '\n' && c.text[264] == 'a';
  }

  lemma FirstRead(s: Stream, first: string, later: string, script: seq<ReadEvent>)
    requires first == "@RSYNCD:\n" && s.text == first + later && s.script == [ReadEvent(9, false)] + script
    ensures LineOf(s, READ_BUFFER_SIZE) == first && LineComplete(s, READ_BUFFER_SIZE) && Versioned(s)
    ensures AfterLine(s, READ_BUFFER_SIZE) == Stream(later, script)
  {
    assert Taken(s.script, 0, |s.text|, READ_BUFFER_SIZE) == 0;
    assert Taken(s.script, 1, |s.text|, READ_BUFFER_SIZE) == 9;
    assert s.text[..9] == first && s.text[9..] == later;
    assert first[8] == '\n';
    LineReadsIs(s, READ_BUFFER_SIZE, 1);
    assert s.script[1..] == script;
  }

  lemma OneRead(s: Stream)
    requires |s.text| == 256 && s.script == [ReadEvent(256, false)]
    ensures LineOf(s, READ_BUFFER_SIZE) == s.text && LineComplete(s, READ_BUFFER_SIZE)
    ensures AfterLine(s, READ_BUFFER_SIZE) == Stream("", [])
  {
    assert Taken(s.script, 0, |s.text|, READ_BUFFER_SIZE) == 0;
    assert Taken(s.script, 1, |s.text|, READ_BUFFER_SIZE) == 256;
    LineReadsIs(s, READ_BUFFER_SIZE, 1);
    assert s.text[..256] == s.text && s.text[256..] == "" && s.script[1..] == [];
  }

  // ---- relay ----

  /** From the request to the dial: listing, unknown module, full queue, notices while waiting. */
  method Decide(down: Conn, request: string, known: set<string>, listing: string, admission: Admission, dialOk: bool)
      returns (over: bool, outcome: Outcome)
    requires request != ""
    modifies down`sent, down`writes
    ensures over ==> DecideCause(outcome, request, known, admission, dialOk, Sound(old(down.writes)))
    ensures !over ==>
      && Admitted(request, known, admission) && dialOk
      && down.sent == old(down.sent) + Concat(admission.notices)
    ensures old(down.sent) <= down.sent
    ensures over ==> SaidInstead(outcome, request, listing, admission, Sound(old(down.writes)), old(down.sent), down.sent)
    ensures Sound(old(down.writes)) ==> Sound(down.writes)
  {
    hide Concat, Sound;
    if |request| == 1 {
      var listed := down.Write(listing);
      return true, Listed(listed);
    }
    var moduleName := Trimmed(request);
    if moduleName !in known {
      var _ := down.Write(UnknownModuleText(moduleName));
      return true, UnknownModule;
    }
    if admission.Full? {
      var _ := down.Write(QUEUE_FULL);
      var _ := down.Write(EXIT);
      return true, Rejected;
    }
    var ok := SendNotices(down, admission.notices);
    if !ok {
      return true, SendNoticeFailed;
    }
    if !dialOk {
      return true, DialFailed;
    }
    return false, DialFailed;
  }

  /** What a client is sent that is not connected to an upstream. */
  ghost predicate SaidInstead(outcome: Outcome, request: string, listing: string, admission: Admission, sound: bool,
                              before: string, after: string)
  {
    && (outcome.Listed? ==> Carried(before, after, before + listing, outcome.complete))
    && (outcome == UnknownModule && sound ==> after == before + UnknownModuleText(Trimmed(request)))
    && (outcome == Rejected && sound ==> after == before + QUEUE_FULL + EXIT)
    && (outcome == DialFailed && admission.Granted? ==> after == before + Concat(admission.notices))
  }

  /** What `relay` does with the request in the buffer. */
  method Serve(down: Conn, up: Conn, buf: array<char>, n: nat, version: array<char>, known: set<string>, listing: string,
               admission: Admission, dialOk: bool, header: string)
      returns (outcome: Outcome)
    requires down != up && buf.Length == READ_BUFFER_SIZE && version != buf && 0 < n <= buf.Length
    modifies down, up, buf
    ensures
      || DecideCause(outcome, old(buf[..n]), known, admission, dialOk, Sound(old(down.writes)))
      || (Admitted(old(buf[..n]), known, admission) && dialOk
          && ConverseCause(outcome, old(up.Input()), Sound(old(down.writes)), Sound(old(up.writes))))
    ensures |down.pending| <= |old(down.pending)| && |up.pending| <= |old(up.pending)|
    ensures Carried(old(up.sent), up.sent,
              old(up.sent) + header + old(version[..]) + (Trimmed(old(buf[..n])) + "\n")
                + ReadSoFar(old(down.Input()), down.pending),
              outcome.Relayed? && outcome.upOk)
    ensures old(down.sent) <= down.sent
    ensures outcome.Relayed? ==>
      && admission.Granted?
      && Carried(old(down.sent), down.sent,
           old(down.sent) + Concat(admission.notices) + ClientPart(ReadSoFar(old(up.Input()), up.pending)), outcome.downOk)
    ensures outcome.Relayed? && outcome.upOk ==> down.Input() == AfterCopy(old(down.Input()))
    ensures outcome.Relayed? && outcome.downOk ==> up.Input() == AfterCopy(AfterLine(old(up.Input()), READ_BUFFER_SIZE))
    ensures NotDialled(outcome) ==>
      && up.sent == old(up.sent)
      && SaidInstead(outcome, old(buf[..n]), listing, admission, Sound(old(down.writes)), old(down.sent), down.sent)
  {
    hide FirstNewline, ClientPart, Concat, Carried, Trimmed, Sound, AfterCopy, AfterLine, LineOf, LineComplete, SaidInstead;
    ghost var request, front := buf[..n], down.sent;
    var over;
    over, outcome := Decide(down, buf[..n], known, listing, admission, dialOk);
    if over {
      assert ReadSoFar(old(down.Input()), down.pending) == "";
      NothingCarried(old(up.sent), header, version[..], Trimmed(request) + "\n", "");
      return;
    }
    ghost var mid, late := down.sent, Sound(down.writes);
    outcome := Converse(down, up, buf, header, version, Trimmed(buf[..n]));
    LaterSound(outcome, old(up.Input()), Sound(old(down.writes)), late, Sound(old(up.writes)));
    if outcome.Relayed? {
      CarriedFrom(front, mid, down.sent, mid + ClientPart(ReadSoFar(old(up.Input()), up.pending)), outcome.downOk);
    }
  }

  /** The outcomes in which no upstream connection was made after the request was read. */
  predicate NotDialled(outcome: Outcome) {
    outcome.Listed? || outcome in {UnknownModule, Rejected, SendNoticeFailed, DialFailed}
  }

  lemma NothingCarried(a: string, b: string, c: string, d: string, e: string)
    ensures Carried(a, a, a + b + c + d + e, false)
  {
    assert a + b + c + d + e == a + (b + c + d + e);
  }

  /** `relay`. The module table, the queue's verdict, the dial and the PROXY header are inputs; `header` is
      empty when the upstream does not use one.

      The outcome: each one has its cause in the inputs, so a relay that can take place does, and completely, unless
      a write fails.
      Upstream: if the module read ended in a newline, the bytes written after the header are a prefix of the
      client's bytes, in order; and when the relay phase was reached and no write failed, they are exactly
      the bytes read from the client if and only if it did.
      Downstream: an admitted client gets the preamble and then, of the upstream's stream, what follows the
      first line, whatever the fragments.
      Both copies run to the first end or error of their streams; a stream that arrives whole is delivered whole. */
  method Relay(down: Conn, up: Conn, buf: array<char>, motd: string, known: set<string>, listing: string,
               admission: Admission, dialOk: bool, header: string)
      returns (outcome: Outcome)
    requires down != up && buf.Length == READ_BUFFER_SIZE
    modifies down, up, buf
    ensures Explained(outcome, old(down.Input()), old(up.Input()), known, admission, dialOk,
                      Sound(old(down.writes)), Sound(old(up.writes)))
    ensures outcome.Relayed? ==> CanRelay(old(down.Input()), old(up.Input()), known, admission, dialOk)
    ensures (CanRelay(old(down.Input()), old(up.Input()), known, admission, dialOk)
             && Sound(old(down.writes)) && Sound(old(up.writes))) ==>
      outcome.Relayed? && outcome.upOk && outcome.downOk
    ensures |down.pending| <= |old(down.pending)| && |up.pending| <= |old(up.pending)|
    ensures Transparent(old(up.sent), up.sent, header, ReadSoFar(old(down.Input()), down.pending),
              RequestOf(old(down.Input())), outcome.Relayed? && outcome.upOk)
    ensures old(down.sent) <= down.sent
    ensures outcome.Relayed? ==>
      Carried(old(down.sent), down.sent,
        old(down.sent) + Preamble(motd, admission.notices) + ClientPart(ReadSoFar(old(up.Input()), up.pending)),
        outcome.downOk)
    ensures outcome.Relayed? && outcome.upOk ==> down.Input() == AfterCopy(AfterRequest(old(down.Input())))
    ensures outcome.Relayed? && outcome.downOk ==> up.Input() == AfterCopy(AfterLine(old(up.Input()), READ_BUFFER_SIZE))
    ensures outcome.Relayed? && outcome.downOk && ArrivesWhole(AfterLine(old(up.Input()), READ_BUFFER_SIZE)) ==>
      && up.pending == ""
      && down.sent == old(down.sent) + Preamble(motd, admission.notices) + ClientPart(old(up.pending))
    ensures (Greeted(old(down.Input())) && Admitted(RequestOf(old(down.Input())), known, admission) && dialOk
             && Sound(old(down.writes)) && Sound(old(up.writes))
             && Steady(old(up.Input())) && UpstreamText(old(up.pending))) ==>
      && outcome.Relayed? && outcome.downOk && up.pending == ""
      && down.sent == old(down.sent) + Preamble(motd, admission.notices) + ClientPart(old(up.pending))
    ensures outcome.Relayed? && outcome.upOk && ArrivesWhole(AfterRequest(old(down.Input()))) ==>
      && down.pending == ""
      && (EndsInNewline(RequestOf(old(down.Input()))) <==> up.sent == old(up.sent) + header + old(down.pending))
    ensures NotDialled(outcome) ==>
      && up.sent == old(up.sent)
      && old(down.sent) + SERVER_VERSION + MotdText(motd) <= down.sent
      && SaidInstead(outcome, RequestOf(old(down.Input())), listing, admission, Sound(old(down.writes)),
           old(down.sent) + SERVER_VERSION + MotdText(motd), down.sent)
    ensures outcome == UnknownModule && Sound(old(down.writes)) ==>
      exists reply ::
        && down.sent == old(down.sent) + SERVER_VERSION + MotdText(motd) + reply
        && "@ERROR: " <= reply && EndsInNewline(reply)
        && reply == "@ERROR: Unknown module '" + Trimmed(RequestOf(old(down.Input()))) + "'" + "\n"
  {
    hide FirstNewline, ClientPart, Concat, MotdText, Transparent, Trimmed, Carried, Preamble, Sound, AfterCopy, LineOf;
    hide AfterLine, LineComplete, Explained, CanRelay, SaidInstead, GreetCause, DecideCause, ConverseCause, Admitted, Greeted;
    hide RequestOf, VersionOf, AfterRequest, ArrivesWhole, Steady, UpstreamText;
    ghost var c, u, before := down.Input(), up.Input(), down.sent;
    ghost var downSound, upSound := Sound(down.writes), Sound(up.writes);
    var over, version, n;
    over, outcome, version, n := Greet(down, buf, motd);
    if over {
      NothingSent(up.sent, header, ReadSoFar(c, down.pending), RequestOf(c));
      GreetExplains(outcome, c, u, known, admission, dialOk, downSound, upSound);
      RelayedExactly(outcome, c, u, known, admission, dialOk, downSound, upSound);
      SteadyUpstream(c, u, known, admission, dialOk);
      return;
    }
    ghost var greeted, midSound := down.sent, Sound(down.writes);
    outcome := Serve(down, up, buf, n, version, known, listing, admission, dialOk, header);
    ServeExplains(outcome, c, u, known, admission, dialOk, downSound, midSound, upSound);
    RelayedExactly(outcome, c, u, known, admission, dialOk, downSound, upSound);
    SteadyUpstream(c, u, known, admission, dialOk);
    ghost var complete := outcome.Relayed? && outcome.upOk;
    SentTransparently(old(up.sent), up.sent, header, c, down.pending, complete);
    SaidEarlier(outcome, RequestOf(c), listing, admission, downSound, midSound, greeted, down.sent);
    UnknownReplySent(outcome, RequestOf(c), listing, admission, downSound, greeted, down.sent);
    if outcome.Relayed? {
      ghost var part := ClientPart(ReadSoFar(u, up.pending));
      PreambleSplit(before, motd, admission.notices, part);
      CarriedFrom(before, greeted, down.sent, greeted + Concat(admission.notices) + part, outcome.downOk);
      if outcome.downOk {
        WholeUpstream(before + Preamble(motd, admission.notices), down.sent, u, up.Input());
      }
      if outcome.upOk {
        WholeClient(old(up.sent), up.sent, header, c, down.Input());
      }
    }
  }

  /** An upstream whose text qualifies, delivered without errors, is accepted and arrives whole. */
  lemma SteadyUpstream(c: Stream, u: Stream, known: set<string>, admission: Admission, dialOk: bool)
    ensures Steady(u) && UpstreamText(u.text) ==>
      && ArrivesWhole(AfterLine(u, READ_BUFFER_SIZE))
      && (Greeted(c) && Admitted(RequestOf(c), known, admission) && dialOk ==> CanRelay(c, u, known, admission, dialOk))
  {
    hide Steady, ArrivesWhole, AfterLine, LineComplete, Greeted, Admitted, UpstreamText;
    SteadyStreamsArrive(c, u);
    if Steady(u) && UpstreamText(u.text) {
      UpstreamTextExactly(u.text);
      assert u == Stream(u.text, u.script);
    }
  }

  lemma GreetExplains(outcome: Outcome, c: Stream, u: Stream, known: set<string>, admission: Admission, dialOk: bool,
                      downSound: bool, upSound: bool)
    requires GreetCause(outcome, c, downSound)
    ensures Explained(outcome, c, u, known, admission, dialOk, downSound, upSound)
    ensures !outcome.Relayed? && !NotDialled(outcome)
  {
  }

  lemma ServeExplains(outcome: Outcome, c: Stream, u: Stream, known: set<string>, admission: Admission, dialOk: bool,
                      downSound: bool, midSound: bool, upSound: bool)
    requires Greeted(c) && (downSound ==> midSound)
    requires
      || DecideCause(outcome, RequestOf(c), known, admission, dialOk, midSound)
      || (Admitted(RequestOf(c), known, admission) && dialOk && ConverseCause(outcome, u, midSound, upSound))
    ensures Explained(outcome, c, u, known, admission, dialOk, downSound, upSound)
  {
  }

  lemma UnknownReplySent(outcome: Outcome, request: string, listing: string, admission: Admission, sound: bool,
                         before: string, after: string)
    ensures outcome == UnknownModule && sound && SaidInstead(outcome, request, listing, admission, sound, before, after) ==>
      exists reply ::
        && after == before + reply
        && "@ERROR: " <= reply && EndsInNewline(reply)
        && reply == "@ERROR: Unknown module '" + Trimmed(request) + "'" + "\n"
  {
    hide Trimmed, EndsInNewline;
    UnknownModuleReply(Trimmed(request));
    if outcome == UnknownModule && sound && SaidInstead(outcome, request, listing, admission, sound, before, after) {
      var reply := UnknownModuleText(Trimmed(request));
      assert after == before + reply;
    }
  }

  lemma SaidEarlier(outcome: Outcome, request: string, listing: string, admission: Admission, early: bool, late: bool,
                    before: string, after: string)
    requires early ==> late
    ensures SaidInstead(outcome, request, listing, admission, late, before, after) ==>
              SaidInstead(outcome, request, listing, admission, early, before, after)
  {
  }

  lemma LaterSound(outcome: Outcome, u: Stream, early: bool, late: bool, upSound: bool)
    requires ConverseCause(outcome, u, late, upSound) && (early ==> late)
    ensures ConverseCause(outcome, u, early, upSound)
  {
  }

  lemma PreambleSplit(front: string, motd: string, notices: seq<string>, rest: string)
    ensures front + Preamble(motd, notices) + rest == front + SERVER_VERSION + MotdText(motd) + Concat(notices) + rest
  {
    var v, m, c := SERVER_VERSION, MotdText(motd), Concat(notices);
    assert front + (v + m + c) == front + v + m + c;
  }
}
