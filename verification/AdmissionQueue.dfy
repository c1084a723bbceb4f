/** The queue object of `pkg/queue/queue.go`, updated in place under its mutex, with the one-slot status
channels it writes to. Every method is one critical section and is proved equal to the matching
function of `QueueModel`; sending on a closed or a full channel is ruled out by precondition. */
module AdmissionQueue {
  import opened QueueModel
  import opened QueueRuns

  /** `make(chan Status, 1)`. */
  class Channel {
    ghost const ticket: Ticket
    ghost const owner: Queue
    var buffer: seq<Status>
    var closed: bool

    constructor (ghost ticket: Ticket, ghost owner: Queue)
      ensures this.ticket == ticket && this.owner == owner && buffer == [] && !closed
    {
      this.ticket, this.owner := ticket, owner;
      buffer, closed := [], false;
    }

    /** A send panics on a closed channel and would block on a full one. */
    method Send(status: Status)
      requires !closed && buffer == []
      modifies this`buffer
      ensures buffer == [status]
    {
      buffer := [status];
    }

    /** `trySend`: drop an unread value, then send. */
    method TrySend(status: Status)
      requires !closed && |buffer| <= 1
      modifies this`buffer
      ensures buffer == [status]
    {
      if buffer != [] {
        buffer := buffer[1..];
      }
      Send(status);
    }

    /** Closing twice panics. */
    method Close()
      requires !closed
      modifies this`closed
      ensures closed
    {
      closed := true;
    }

    /** `<-ch` where it does not block; an empty closed channel yields the zero value. */
    method Receive() returns (status: Status)
      requires buffer != [] || closed
      modifies this`buffer
      ensures old(buffer) != [] ==> status == old(buffer)[0] && buffer == old(buffer)[1..]
      ensures old(buffer) == [] ==> status == Status(0, 0, false, false) && buffer == []
    {
      if buffer != [] {
        status, buffer := buffer[0], buffer[1..];
      } else {
        status := Status(0, 0, false, false);
      }
    }
  }

  ghost function Tickets(cs: seq<Channel>): seq<Ticket> {
    seq(|cs|, i requires 0 <= i < |cs| => cs[i].ticket)
  }

  class Queue {
    var max: nat
    var maxQueued: int
    var active: seq<Channel>
    var queued: seq<Channel>
    /** Every channel ever handed out, by ticket; the newest status written to each; the tickets released. */
    ghost var channels: seq<Channel>
    ghost var published: map<Ticket, Status>
    ghost var released: set<Ticket>

    ghost function Model(): State
      reads this
    {
      State(max, maxQueued, Tickets(active), Tickets(queued), |channels|, published, released)
    }

    ghost predicate Handed(ch: Channel)
      reads `channels
    {
      ch.ticket < |channels| && channels[ch.ticket] == ch
    }

    /** What must hold of the lists and the channels, whatever the limits, whenever a status may be written. */
    ghost predicate Wired()
      reads `channels, `active, `queued, `published, channels
    {
      && (forall t :: 0 <= t < |channels| ==> channels[t].ticket == t && channels[t].owner == this)
      && (forall i :: 0 <= i < |active| ==> Handed(active[i]))
      && (forall i :: 0 <= i < |queued| ==> Handed(queued[i]))
      && (forall t :: 0 <= t < |channels| ==> t in published && Carries(channels[t], published[t]))
    }

    /** A channel is closed exactly when its newest status is final, and holds that status until it is read. */
    ghost predicate Carries(ch: Channel, newest: Status)
      reads ch
    {
      ch.closed == newest.Final() && (ch.buffer == [] || ch.buffer == [newest])
    }

    ghost predicate Valid()
      reads this, channels
    {
      Wired() && Inv(Model())
    }

    constructor (max: nat, maxQueued: int)
      ensures Valid() && Model() == Init(max, maxQueued) && channels == []
    {
      this.max, this.maxQueued := max, maxQueued;
      active, queued := [], [];
      channels, published, released := [], map[], {};
    }

    method SetMax(max: nat, maxQueued: int)
      requires Valid()
      modifies this`max, this`maxQueued
      ensures Valid() && Model() == QueueModel.SetMax(old(Model()), max, maxQueued)
    {
      ghost var before := Model();
      this.max, this.maxQueued := max, maxQueued;
      StepInv(before, SetMaxOp(max, maxQueued));
    }

    method Acquire() returns (handle: Handle)
      requires Valid()
      modifies this
      ensures Valid() && Model() == QueueModel.Acquire(old(Model()))
      ensures fresh(handle) && fresh(handle.ch) && channels == old(channels) + [handle.ch]
      ensures handle.q == this && handle.Valid() && handle.ch.ticket == old(|channels|)
      ensures handle.ch.buffer == [FirstStatus(old(Model()))]
    {
      hide Inv;
      ghost var before := Model();
      var ch := new Channel(|channels|, this);
      Enlist(ch);
      channels := channels + [ch];
      published := published[ch.ticket := FirstStatus(before)];
      assert Model() == QueueModel.Acquire(before);
      assert ch.ticket !in released by { NextIsFresh(before); }
      assert Inv(Model()) by { AcquireInv(before); }
      handle := new Handle(ch, this);
    }

    /** The switch of `Acquire` on a channel nobody else has seen yet. */
    method Enlist(ch: Channel)
      requires !ch.closed && ch.buffer == [] && ch.ticket == |channels|
      modifies this`active, this`queued, ch
      ensures ch.buffer == [FirstStatus(old(Model()))] && ch.closed == FirstStatus(old(Model())).Final()
      ensures Model().(next := ch.ticket + 1) == QueueModel.Enlist(old(Model()))
      ensures forall i :: 0 <= i < |active| ==> active[i] == ch || active[i] in old(active)
      ensures forall i :: 0 <= i < |queued| ==> queued[i] == ch || queued[i] in old(queued)
    {
      ghost var before := Model();
      if |active| < max || max == 0 {
        active := active + [ch];
        assert Tickets(active) == before.active + [ch.ticket];
        ch.Send(OK);
        ch.Close();
      } else if maxQueued > 0 && |queued| >= maxQueued {
        ch.Send(FULL);
        ch.Close();
      } else {
        queued := queued + [ch];
        assert Tickets(queued) == before.queued + [ch.ticket];
        var surplus := |active| - max;
        ch.Send(Place(surplus + |queued| - 1, surplus + |queued|));
      }
    }

    /** `popHead`. */
    method PopHead()
      requires Valid() && queued != []
      modifies this, channels
      ensures Valid() && Model() == QueueModel.PopHead(old(Model())) && channels == old(channels)
    {
      ghost var before := Model();
      PopHeadInv(before);
      var head := queued[0];
      assert before.queued[0] == head.ticket && !head.closed;
      head.TrySend(OK);
      head.Close();
      active := active + [head];
      queued := queued[1..];
      published := published[head.ticket := OK];
      assert Tickets(active) == before.active + [head.ticket];
      assert Tickets(queued) == before.queued[1..];
    }

    /** Every waiter's channel is one of ours and open. */
    ghost predicate WaitersOpen()
      reads `channels, `queued, queued
    {
      forall j :: 0 <= j < |queued| ==> Handed(queued[j]) && !queued[j].closed
    }

    /** The body of the loop of `broadcastStatus`: one waiter is told its place while its channel is open. */
    method Announce(i: nat, surplus: int)
      requires Wired() && WaitersOpen() && i < |queued| && surplus == |active| - max
      modifies this`published, queued[i]
      ensures Wired() && WaitersOpen()
      ensures Model() == Publish(old(Model()), old(Model()).queued[i], PlaceAt(old(Model()), i))
    {
      var ch, status := queued[i], Place(surplus + i, surplus + |queued|);
      assert ch.buffer == [] || |ch.buffer| == 1;
      ch.TrySend(status);
      published := published[ch.ticket := status];
    }

    /** `broadcastStatus`. */
    method BroadcastStatus()
      requires Valid()
      modifies this`published, channels
      ensures Valid() && Model() == BroadcastFrom(old(Model()), 0)
    {
      BroadcastReady();
      ghost var before, m := Model(), Model();
      var surplus := |active| - max;
      assert |m.queued| == |queued|;
      hide Inv, Wired, WaitersOpen, BroadcastFrom, Model, Handed;
      for i := 0 to |queued|
        invariant Wired() && WaitersOpen() && Model() == m
        invariant |m.queued| == |queued| && BroadcastFrom(m, i) == BroadcastFrom(before, 0)
      {
        BroadcastNext(m, i);
        m := Publish(m, m.queued[i], PlaceAt(m, i));
        Announce(i, surplus);
      }
      BroadcastDone(m);
    }

    lemma BroadcastReady()
      requires Valid()
      ensures WaitersOpen() && Inv(BroadcastFrom(Model(), 0))
      ensures forall j :: 0 <= j < |queued| ==> queued[j] in channels
    {
      hide Inv, BroadcastFrom;
      BroadcastInv(Model());
      forall j | 0 <= j < |queued| ensures Handed(queued[j]) && !queued[j].closed && queued[j] in channels {
        WaiterOpen(Model(), j);
      }
    }

    /** The list without one channel: the rebuild loop that `releaseFromHandle` runs on each list. */
    method Rebuild(items: seq<Channel>, ch: Channel) returns (newList: seq<Channel>)
      requires Handed(ch) && forall i :: 0 <= i < |items| ==> Handed(items[i])
      ensures Tickets(newList) == Without(Tickets(items), ch.ticket)
      ensures forall i :: 0 <= i < |newList| ==> newList[i] in items
    {
      newList := [];
      for i := 0 to |items|
        invariant Tickets(newList) == Without(Tickets(items)[..i], ch.ticket)
        invariant forall k :: 0 <= k < |newList| ==> newList[k] in items
      {
        assert Tickets(items)[..i + 1][..i] == Tickets(items)[..i];
        if ch != items[i] {
          newList := newList + [items[i]];
        }
      }
      assert Tickets(items)[..|items|] == Tickets(items);
    }

    method ReleaseFromHandle(ch: Channel)
      requires Valid() && Handed(ch) && ch.ticket !in released
      modifies this, channels
      ensures Valid() && Model() == QueueModel.Release(old(Model()), ch.ticket)
      ensures channels == old(channels)
    {
      hide Inv, PopAll, BroadcastFrom, Without;
      ghost var before := Model();
      ghost var t := ch.ticket;
      var newList := Rebuild(queued, ch);
      assert |newList| == |Without(before.queued, t)|;
      assert |newList| != |queued| <==> t in before.queued by { RemoveCounts(before, t); }
      if |newList| != |queued| {
        queued := newList;
        released := released + {t};
        assert Inv(Model()) by { assert Model() == Remove(before, t); RemoveInv(before, t); }
        BroadcastStatus();
        return;
      }
      newList := Rebuild(active, ch);
      active := newList;
      released := released + {t};
      assert Inv(Model()) by { assert Model() == Remove(before, t); RemoveInv(before, t); }
      PopWhileRoom();
      BroadcastStatus();
    }

    /** The loop of `releaseFromHandle` that moves waiters into free slots. */
    method PopWhileRoom()
      requires Valid()
      modifies this, channels
      ensures Valid() && Model() == PopAll(old(Model())) && channels == old(channels)
    {
      while |queued| > 0 && (|active| < max || max == 0)
        invariant Valid() && PopAll(Model()) == PopAll(old(Model())) && channels == old(channels)
        decreases |queued|
      {
        PopHead();
      }
    }
  }

  lemma BroadcastNext(m: State, i: nat)
    requires i < |m.queued|
    ensures BroadcastFrom(m, i) == BroadcastFrom(Publish(m, m.queued[i], PlaceAt(m, i)), i + 1)
  {
  }

  lemma BroadcastDone(m: State)
    ensures BroadcastFrom(m, |m.queued|) == m
  {
  }

  /** Two queues never share a channel. */
  lemma ChannelsApart(a: Queue, b: Queue)
    requires a.Wired() && b.Wired() && a != b
    ensures forall i, j :: 0 <= i < |a.channels| && 0 <= j < |b.channels| ==> a.channels[i] != b.channels[j]
  {
    forall i, j | 0 <= i < |a.channels| && 0 <= j < |b.channels| ensures a.channels[i] != b.channels[j] {
      assert a.channels[i].owner == a && b.channels[j].owner == b;
    }
  }

  /** A handle and its internal part; `Release` is idempotent through the flag. */
  class Handle {
    const ch: Channel
    const q: Queue
    var released: bool

    constructor (ch: Channel, q: Queue)
      ensures this.ch == ch && this.q == q && !released
    {
      this.ch, this.q := ch, q;
      released := false;
    }

    ghost predicate Valid()
      reads this, q
    {
      q.Handed(ch) && (released <==> ch.ticket in q.released)
    }

    method Release()
      requires q.Valid() && Valid()
      modifies this`released, q, q.channels
      ensures q.Valid() && Valid() && q.channels == old(q.channels) && released
      ensures q.Model() == QueueModel.Release(old(q.Model()), ch.ticket)
    {
      if released {
        return;
      }
      released := true;
      ghost var before := q.Model();
      q.ReleaseFromHandle(ch);
      ReleaseInv(before, ch.ticket);
    }

    /** `<-h.C` by the owner that has not read the newest status yet. */
    method Next() returns (status: Status)
      requires q.Valid() && Valid() && ch.buffer != []
      modifies ch`buffer
      ensures q.Valid() && q.Model() == old(q.Model()) && Valid()
      ensures status == q.published[ch.ticket] && ch.buffer == []
    {
      status := ch.Receive();
    }
  }
}
