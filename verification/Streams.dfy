/** Connections as streams of bytes, over every fragmentation: `readLine` of `pkg/server/utils.go` and `io.Copy`.

A connection delivers its bytes in pieces of any size; a `script` says what each coming `Read` offers and when
the stream ends or fails, and a second one which `Write`s fail. A byte is a `char`. */
module Streams {

  /** One `Read`: at most `offer` bytes, and whether an error comes with them. */
  datatype ReadEvent = ReadEvent(offer: nat, err: bool)
  /** One `Write`: complete, or failed after some of the bytes. */
  datatype WriteEvent = WriteOk | WriteFail(written: nat)

  /** All a connection will deliver: the bytes to come and how they will come. */
  datatype Stream = Stream(text: string, script: seq<ReadEvent>)

  /** No `Write` of the script fails. */
  predicate Sound(writes: seq<WriteEvent>) {
    forall i :: 0 <= i < |writes| ==> writes[i].WriteOk?
  }

  function Least(a: nat, b: nat): nat {
    if a <= b then a else b
  }

  class Conn {
    var pending: string
    var script: seq<ReadEvent>
    var sent: string
    var writes: seq<WriteEvent>

    ghost function Input(): Stream
      reads `pending, `script
    {
      Stream(pending, script)
    }

    /** `conn.Read(buf[from:])`. */
    method Read(buf: array<char>, from: nat) returns (nr: nat, err: bool)
      requires from <= buf.Length
      modifies this`pending, this`script, buf
      ensures nr <= buf.Length - from && nr <= |old(pending)|
      ensures pending == old(pending)[nr..]
      ensures buf[..from] == old(buf[..from]) && buf[from..from + nr] == old(pending)[..nr]
      ensures buf[from + nr..] == old(buf[from + nr..])
      ensures if old(script) == [] then script == [] && err && nr == 0
              else script == old(script)[1..] && err == old(script)[0].err
                   && nr == Least(old(script)[0].offer, Least(buf.Length - from, |old(pending)|))
    {
      if script == [] {
        return 0, true;
      }
      nr := Least(script[0].offer, Least(buf.Length - from, |pending|));
      forall i | 0 <= i < nr {
        buf[from + i] := pending[i];
      }
      assert buf[from..from + nr] == pending[..nr];
      err, pending, script := script[0].err, pending[nr..], script[1..];
    }

    method Write(p: string) returns (ok: bool)
      modifies this`sent, this`writes
      ensures old(sent) <= sent <= old(sent) + p
      ensures ok <==> old(writes) == [] || old(writes)[0].WriteOk?
      ensures ok ==> sent == old(sent) + p
      ensures writes == if old(writes) == [] then [] else old(writes)[1..]
      ensures Sound(old(writes)) ==> ok && Sound(writes)
    {
      if writes == [] || writes[0].WriteOk? {
        sent, ok := sent + p, true;
      } else {
        sent, ok := sent + p[..Least(writes[0].written, |p|)], false;
      }
      writes := if writes == [] then [] else writes[1..];
    }
  }

  predicate EndsInNewline(s: string) {
    s != "" && s[|s| - 1] == '\n'
  }

  // ---- reading a line ----

  /** The bytes in the buffer after the first `k` reads of a script, with `total` bytes to come and room for `room`. */
  function Taken(script: seq<ReadEvent>, k: nat, total: nat, room: nat): (n: nat)
    requires k <= |script|
    ensures n <= total && n <= room
  {
    if k == 0 then 0
    else
      var n := Taken(script, k - 1, total, room);
      n + Least(script[k - 1].offer, Least(room - n, total - n))
  }

  /** Reading a line is over after `k` reads. */
  predicate LineOver(pending: string, script: seq<ReadEvent>, k: nat, room: nat)
    requires k <= |script|
  {
    var n := Taken(script, k, |pending|, room);
    EndsInNewline(pending[..n]) || n == room || (k > 0 && script[k - 1].err)
  }

  ghost predicate NotOverBefore(pending: string, script: seq<ReadEvent>, k: nat, room: nat) {
    forall i :: 0 < i < k && i <= |script| ==> !LineOver(pending, script, i, room)
  }

  /** How many reads a line takes from the `k`-th on: up to the first read after which the line is over. */
  function ReadsFrom(s: Stream, room: nat, k: nat): (m: nat)
    requires k <= |s.script|
    ensures k <= m <= |s.script|
    ensures forall i :: k <= i < m ==> !LineOver(s.text, s.script, i, room)
    ensures m < |s.script| ==> LineOver(s.text, s.script, m, room)
    decreases |s.script| - k
  {
    if k == |s.script| || LineOver(s.text, s.script, k, room) then k else ReadsFrom(s, room, k + 1)
  }

  /** How many of the scripted reads a line takes: it is never over before the first. */
  function LineReads(s: Stream, room: nat): (m: nat)
    ensures m <= |s.script|
  {
    if s.script == [] then 0 else ReadsFrom(s, room, 1)
  }

  /** The bytes that reading a line takes from the stream. */
  function LineOf(s: Stream, room: nat): (line: string)
    ensures line <= s.text && |line| <= room
  {
    s.text[..Taken(s.script, LineReads(s, room), |s.text|, room)]
  }

  /** What is left of the stream then. */
  function AfterLine(s: Stream, room: nat): Stream {
    Stream(s.text[|LineOf(s, room)|..], s.script[LineReads(s, room)..])
  }

  /** The line is read without an error. */
  predicate LineComplete(s: Stream, room: nat) {
    EndsInNewline(LineOf(s, room)) || |LineOf(s, room)| == room
  }

  /** The number of reads is the one before which the line was not over, and after which it is, or the script. */
  lemma LineReadsIs(s: Stream, room: nat, k: nat)
    requires k <= |s.script| && NotOverBefore(s.text, s.script, k, room)
    requires k == |s.script| || (k > 0 && LineOver(s.text, s.script, k, room))
    ensures LineReads(s, room) == k
  {
    hide LineOver;
    if s.script != [] {
      var m := ReadsFrom(s, room, 1);
    }
  }

  /** One more piece of a stream behind the `n` bytes that the first `k` reads have brought. */
  method ReadMore(conn: Conn, buf: array<char>, n: nat, ghost s: Stream, ghost k: nat)
      returns (m: nat, err: bool, ghost next: nat)
    requires k <= |s.script| && conn.script == s.script[k..] && n == Taken(s.script, k, |s.text|, buf.Length)
    requires buf[..n] == s.text[..n] && conn.pending == s.text[n..]
    modifies conn`pending, conn`script, buf
    ensures next <= |s.script| && conn.script == s.script[next..] && m == Taken(s.script, next, |s.text|, buf.Length)
    ensures buf[..m] == s.text[..m] && conn.pending == s.text[m..]
    ensures if k < |s.script| then next == k + 1 && err == s.script[k].err else next == k && err && m == n
    ensures EndsInNewline(s.text[..m]) <==> m > 0 && buf[m - 1] == '\n'
  {
    if k < |s.script| { TakenNext(s.script, k, |s.text|, buf.Length); }
    hide Taken;
    next := if k < |s.script| then k + 1 else k;
    var nr;
    nr, err := conn.Read(buf, n);
    m := n + nr;
    TakeMore(s.text, n, nr);
    assert buf[..m] == buf[..n] + buf[n..m];
  }

  /** `readLine`: fill the buffer until the last byte read is a newline or the buffer is full. It takes exactly the
      line from the stream, not one read more than that needs. */
  method ReadLine(conn: Conn, buf: array<char>) returns (n: nat, err: bool)
    modifies conn`pending, conn`script, buf
    ensures n <= buf.Length && buf[..n] == LineOf(old(conn.Input()), buf.Length)
    ensures conn.Input() == AfterLine(old(conn.Input()), buf.Length)
    ensures err <==> !LineComplete(old(conn.Input()), buf.Length)
  {
    ghost var s, room, rounds := conn.Input(), buf.Length, 0;
    hide Taken, LineOver, NotOverBefore, EndsInNewline, Least, LineOf, AfterLine, LineComplete;
    n := 0;
    NothingTaken(s.text, s.script, room);
    while true
      invariant rounds <= |s.script| && conn.script == s.script[rounds..]
      invariant n == Taken(s.script, rounds, |s.text|, room)
      invariant buf[..n] == s.text[..n] && conn.pending == s.text[n..]
      invariant NotOverBefore(s.text, s.script, rounds, room) && NotOverBefore(s.text, s.script, rounds + 1, room)
      decreases |s.script| - rounds
    {
      ghost var before := rounds;
      n, err, rounds := ReadMore(conn, buf, n, s, rounds);
      var done := (n > 0 && buf[n - 1] == '\n') || n == buf.Length;
      if done || err {
        LineEnds(s, room, before, rounds);
        return n, !done;
      }
      LineGoesOn(s.text, s.script, rounds, room);
    }
  }

  /** Where the loop stops, the line has been read. */
  lemma LineEnds(s: Stream, room: nat, before: nat, k: nat)
    requires before <= k <= |s.script| && k <= before + 1 && (before < |s.script| ==> k == before + 1)
    requires NotOverBefore(s.text, s.script, before, room) && NotOverBefore(s.text, s.script, before + 1, room)
    requires var n := Taken(s.script, k, |s.text|, room);
      EndsInNewline(s.text[..n]) || n == room || k == |s.script| || (k > 0 && s.script[k - 1].err)
    ensures var n := Taken(s.script, k, |s.text|, room);
      && LineOf(s, room) == s.text[..n] && AfterLine(s, room) == Stream(s.text[n..], s.script[k..])
      && (LineComplete(s, room) <==> EndsInNewline(s.text[..n]) || n == room)
  {
    LineReadsIs(s, room, k);
  }

  lemma NothingTaken(stream: string, script: seq<ReadEvent>, room: nat)
    ensures Taken(script, 0, |stream|, room) == 0
    ensures NotOverBefore(stream, script, 0, room) && NotOverBefore(stream, script, 1, room)
    ensures !EndsInNewline(stream[..0])
  {
  }

  lemma TakenNext(script: seq<ReadEvent>, k: nat, total: nat, room: nat)
    requires k < |script|
    ensures var n := Taken(script, k, total, room);
      Taken(script, k + 1, total, room) == n + Least(script[k].offer, Least(room - n, total - n))
  {
  }

  lemma LineGoesOn(stream: string, script: seq<ReadEvent>, k: nat, room: nat)
    requires 0 < k <= |script| && !script[k - 1].err && NotOverBefore(stream, script, k, room)
    requires var n := Taken(script, k, |stream|, room); !EndsInNewline(stream[..n]) && n != room
    ensures NotOverBefore(stream, script, k + 1, room)
  {
  }

  lemma TakeMore(stream: string, n: nat, more: nat)
    requires n + more <= |stream|
    ensures stream[..n + more] == stream[..n] + stream[n..][..more]
    ensures stream[n + more..] == stream[n..][more..]
  {
  }

  // ---- copying ----

  /** The buffer of `io.Copy`. */
  const CHUNK: nat := 32768

  /** How many bytes the first `k` reads of a copy can bring. */
  function Offered(script: seq<ReadEvent>, k: nat): nat
    requires k <= |script|
  {
    if k == 0 then 0 else Offered(script, k - 1) + Least(script[k - 1].offer, CHUNK)
  }

  /** How many reads a copy makes: up to the first one that reports an end or an error. */
  function CopyReads(script: seq<ReadEvent>): (m: nat)
    ensures m <= |script|
    ensures forall i :: 0 <= i < m - 1 ==> !script[i].err
    ensures m < |script| ==> m > 0 && script[m - 1].err
  {
    if script == [] then 0
    else if script[0].err then 1
    else
      assert forall i :: 1 <= i < |script| ==> script[i] == script[1..][i - 1];
      1 + CopyReads(script[1..])
  }

  function CopyBytes(s: Stream): (n: nat)
    ensures n <= |s.text|
  {
    Least(|s.text|, Offered(s.script, CopyReads(s.script)))
  }

  /** What is left of a stream after a copy that no failed write cut short. */
  function AfterCopy(s: Stream): Stream {
    Stream(s.text[CopyBytes(s)..], s.script[CopyReads(s.script)..])
  }

  /** Everything arrives before the first end or error. */
  predicate ArrivesWhole(s: Stream) {
    CopyBytes(s) == |s.text|
  }

  lemma {:induction false} CopyReadsIs(script: seq<ReadEvent>, k: nat)
    requires k <= |script| && forall i :: 0 <= i < k - 1 ==> !script[i].err
    requires k == |script| || (k > 0 && script[k - 1].err)
    ensures CopyReads(script) == k
    decreases k
  {
    if script != [] && !script[0].err {
      assert k > 0;
      assert forall i :: 0 <= i < |script| - 1 ==> script[1..][i] == script[i + 1];
      CopyReadsIs(script[1..], k - 1);
    }
  }

  lemma OfferedNext(script: seq<ReadEvent>, k: nat, total: nat, count: nat)
    requires k < |script| && count == Least(total, Offered(script, k))
    ensures count + Least(script[k].offer, Least(CHUNK, total - count)) == Least(total, Offered(script, k + 1))
  {
  }

  /** The next chunk of a copy that has read `count` bytes in `k` reads. */
  method ReadChunk(src: Conn, chunk: array<char>, ghost s: Stream, ghost count: nat, ghost k: nat)
      returns (nr: nat, err: bool)
    requires chunk.Length == CHUNK && count <= |s.text| && src.pending == s.text[count..]
    requires k <= |s.script| && src.script == s.script[k..] && count == Least(|s.text|, Offered(s.script, k))
    modifies src`pending, src`script, chunk
    ensures nr <= chunk.Length && count + nr <= |s.text| && src.pending == s.text[count + nr..]
    ensures s.text[..count + nr] == s.text[..count] + chunk[..nr]
    ensures k == |s.script| ==> src.script == [] && err && nr == 0
    ensures k < |s.script| ==>
      && src.script == s.script[k + 1..] && err == s.script[k].err
      && count + nr == Least(|s.text|, Offered(s.script, k + 1))
  {
    if k < |s.script| { OfferedNext(s.script, k, |s.text|, count); }
    hide Offered;
    nr, err := src.Read(chunk, 0);
    assert chunk[..nr] == chunk[0..0 + nr];
    TakeMore(s.text, count, nr);
  }

  /** `io.Copy` through a counting reader: how many bytes were read, and whether a write failed. Unless one does,
      everything that is read is written, up to the read that reports the end. */
  method Copy(dst: Conn, src: Conn) returns (count: nat, ok: bool)
    requires dst != src
    modifies src`pending, src`script, dst`sent, dst`writes
    ensures count <= |old(src.pending)| && src.pending == old(src.pending)[count..]
    ensures old(dst.sent) <= dst.sent <= old(dst.sent) + old(src.pending)[..count]
    ensures ok ==> dst.sent == old(dst.sent) + old(src.pending)[..count]
    ensures ok ==> src.Input() == AfterCopy(old(src.Input()))
    ensures Sound(old(dst.writes)) ==> ok && Sound(dst.writes)
  {
    var chunk := new char[CHUNK];
    ghost var s, k := src.Input(), 0;
    hide Offered, CopyReads, Least, Sound;
    NothingOffered(s);
    count := 0;
    while true
      invariant count <= |s.text| && src.pending == s.text[count..]
      invariant k <= |s.script| && src.script == s.script[k..]
      invariant count == Least(|s.text|, Offered(s.script, k))
      invariant dst.sent == old(dst.sent) + s.text[..count]
      invariant forall i :: 0 <= i < k ==> !s.script[i].err
      invariant Sound(old(dst.writes)) ==> Sound(dst.writes)
      decreases |s.script| - k
    {
      ghost var c := count;
      var nr, err := ReadChunk(src, chunk, s, count, k);
      if k < |s.script| { k := k + 1; }
      count := count + nr;
      Associate(old(dst.sent), s.text[..c], chunk[..nr]);
      if nr > 0 {
        var written := dst.Write(chunk[..nr]);
        if !written {
          return count, false;
        }
      }
      if err {
        CopyReadsIs(s.script, k);
        return count, true;
      }
    }
  }

  lemma Associate(a: string, b: string, c: string)
    ensures a + b + c == a + (b + c)
  {
  }

  lemma NothingOffered(s: Stream)
    ensures Least(|s.text|, Offered(s.script, 0)) == 0
  {
  }

  // ---- streams without errors ----

  /** For as many reads as there are bytes, each read brings at least one byte and no error. */
  predicate Steady(s: Stream) {
    |s.text| <= |s.script| && forall i :: 0 <= i < |s.text| ==> s.script[i].offer >= 1 && !s.script[i].err
  }

  lemma {:induction false} OfferedSteadily(script: seq<ReadEvent>, k: nat)
    requires k <= |script| && forall i :: 0 <= i < k ==> script[i].offer >= 1
    ensures Offered(script, k) >= k
  {
    if k > 0 { OfferedSteadily(script, k - 1); }
  }

  lemma {:induction false} OfferedMonotone(script: seq<ReadEvent>, j: nat, k: nat)
    requires j <= k <= |script|
    ensures Offered(script, j) <= Offered(script, k)
    decreases k
  {
    if j < k { OfferedMonotone(script, j, k - 1); }
  }

  /** Whatever the fragments, a stream without errors arrives whole. */
  lemma SteadyArrives(s: Stream)
    requires Steady(s)
    ensures ArrivesWhole(s)
  {
    hide Offered, CopyReads;
    var n, m := |s.text|, CopyReads(s.script);
    OfferedSteadily(s.script, n);
    assert m >= n;
    OfferedMonotone(s.script, n, m);
  }

  /** Before the line is over, each read of a steady stream brings a byte as long as there are any. */
  lemma {:induction false} TakenSteadily(s: Stream, room: nat, k: nat)
    requires Steady(s) && k <= |s.text| && forall i :: 0 < i < k ==> !LineOver(s.text, s.script, i, room)
    requires room > 0
    ensures k <= Taken(s.script, k, |s.text|, room)
    decreases k
  {
    if k > 0 {
      TakenSteadily(s, room, k - 1);
      assert k > 1 ==> !LineOver(s.text, s.script, k - 1, room);
    }
  }

  lemma {:induction false} TakenGrows(script: seq<ReadEvent>, j: nat, k: nat, total: nat, room: nat)
    requires j <= k <= |script|
    ensures Taken(script, j, total, room) <= Taken(script, k, total, room)
    decreases k
  {
    if j < k { TakenGrows(script, j, k - 1, total, room); }
  }

  /** What is left of a steady stream after a line is steady. */
  lemma SteadyAfterLine(s: Stream, room: nat)
    requires Steady(s) && room > 0
    ensures Steady(AfterLine(s, room))
  {
    hide Taken, LineOver;
    var k, n := LineReads(s, room), |LineOf(s, room)|;
    if k <= |s.text| {
      TakenSteadily(s, room, k);
    } else {
      TakenSteadily(s, room, |s.text|);
      TakenGrows(s.script, |s.text|, k, |s.text|, room);
    }
    var rest := AfterLine(s, room);
    forall i | 0 <= i < |rest.text| ensures rest.script[i].offer >= 1 && !rest.script[i].err {
      assert rest.script[i] == s.script[k + i];
    }
  }

  // ---- which texts are read as a line under every fragmentation ----

  /** Long enough to fill the room, or ending in a newline. */
  predicate LineText(text: string, room: nat) {
    |text| >= room || EndsInNewline(text)
  }

  lemma LineEndMeans(s: Stream, room: nat)
    ensures var k := LineReads(s, room);
      LineComplete(s, room) || k == |s.script| || (k > 0 && s.script[k - 1].err)
    ensures forall i :: 0 < i < LineReads(s, room) ==> !LineOver(s.text, s.script, i, room)
  {
    hide Taken;
    if s.script != [] {
      var m := ReadsFrom(s, room, 1);
    }
  }

  /** Unless it is complete before, reading a line takes in a whole steady stream. */
  lemma TakesAllOrCompletes(s: Stream, room: nat)
    requires Steady(s) && room > 0
    ensures LineComplete(s, room) || LineOf(s, room) == s.text
  {
    hide Taken, LineOver;
    var k := LineReads(s, room);
    LineEndMeans(s, room);
    if !LineComplete(s, room) {
      assert k >= |s.text|;
      TakenSteadily(s, room, |s.text|);
      TakenGrows(s.script, |s.text|, k, |s.text|, room);
      assert s.text[..|s.text|] == s.text;
    }
  }

  lemma LineTextSuffices(s: Stream, room: nat)
    requires Steady(s) && room > 0 && LineText(s.text, room)
    ensures LineComplete(s, room)
  {
    TakesAllOrCompletes(s, room);
  }

  /** A fragmentation with as many reads as there are bytes, of which the first may bring everything. */
  function AtOnce(text: string): seq<ReadEvent> {
    seq(|text|, _ => ReadEvent(|text|, false))
  }

  lemma {:induction false} AllInFirst(text: string, room: nat, k: nat)
    requires 0 < k <= |text| < room
    ensures Taken(AtOnce(text), k, |text|, room) == |text|
    decreases k
  {
    if k == 1 {
      assert Taken(AtOnce(text), 0, |text|, room) == 0;
    } else {
      AllInFirst(text, room, k - 1);
    }
  }

  lemma AtOnceIncomplete(text: string, room: nat)
    requires room > 0 && !LineText(text, room)
    ensures Steady(Stream(text, AtOnce(text))) && LineOf(Stream(text, AtOnce(text)), room) == text
    ensures !LineComplete(Stream(text, AtOnce(text)), room)
  {
    var s := Stream(text, AtOnce(text));
    var k := LineReads(s, room);
    if text != "" {
      AllInFirst(text, room, k);
    }
    assert text[..|text|] == text;
  }

  /** Exactly which texts are read as a line without an error, however an error-free stream delivers them. */
  lemma LineTextExactly(text: string, room: nat)
    requires room > 0
    ensures (forall script | Steady(Stream(text, script)) :: LineComplete(Stream(text, script), room))
            <==> LineText(text, room)
  {
    hide LineComplete, Steady;
    if LineText(text, room) {
      forall script | Steady(Stream(text, script)) ensures LineComplete(Stream(text, script), room) {
        LineTextSuffices(Stream(text, script), room);
      }
    } else {
      AtOnceIncomplete(text, room);
      assert !LineComplete(Stream(text, AtOnce(text)), room);
    }
  }

  // ---- newlines ----

  /** The first place of a newline, or -1: `bytes.IndexByte(data, '\n')`. */
  function FirstNewline(s: string): (i: int)
    ensures -1 <= i < |s|
    ensures i >= 0 ==> s[i] == '\n'
  {
    if s == "" then -1
    else if s[0] == '\n' then 0
    else
      var i := FirstNewline(s[1..]);
      if i < 0 then -1 else i + 1
  }

  lemma {:induction false} NoneBefore(s: string, j: nat)
    requires j < |s| && (FirstNewline(s) < 0 || j < FirstNewline(s))
    ensures s[j] != '\n'
    decreases |s|
  {
    if 0 < j {
      NoneBefore(s[1..], j - 1);
    }
  }

  lemma {:induction false} FirstAt(s: string, i: nat)
    requires i < |s| && s[i] == '\n' && forall j :: 0 <= j < i ==> s[j] != '\n'
    ensures FirstNewline(s) == i
  {
    if i > 0 {
      assert s[0] != '\n';
      FirstAt(s[1..], i - 1);
    }
  }

  /** Text put behind a newline does not move the first one. */
  lemma FirstNewlineExtends(data: string, rest: string)
    ensures var i, k := FirstNewline(data), FirstNewline(data + rest);
      if i >= 0 then k == i else k == -1 || k >= |data|
  {
    hide FirstNewline;
    var i, k := FirstNewline(data), FirstNewline(data + rest);
    var to := if i >= 0 then i else |data|;
    forall j | 0 <= j < to ensures (data + rest)[j] != '\n' {
      NoneBefore(data, j);
    }
    if i >= 0 {
      FirstAt(data + rest, i);
    }
  }

  lemma LastIsNewline(data: string)
    ensures EndsInNewline(data) ==> FirstNewline(data) >= 0
  {
    hide FirstNewline;
    if EndsInNewline(data) && FirstNewline(data) < 0 {
      NoneBefore(data, |data| - 1);
    }
  }
}
