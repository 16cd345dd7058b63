/** The FIFO lock of a database connection: a linked queue of requesters whose head owns the
    connection. Later requesters wait on a descriptor that is signalled when they become the head. */
module LockQueues {

  class LockNode {
    var next: LockNode?
    const value: int

    constructor (v: int)
      ensures next == null && value == v
    {
      next, value := null, v;
    }
  }

  ghost function ValuesOf(nodes: seq<LockNode>): seq<int> {
    seq(|nodes|, i requires 0 <= i < |nodes| => nodes[i].value)
  }

  class LockQueue {
    var head: LockNode?
    var last: LockNode?
    ghost var nodes: seq<LockNode>

    /** The links from the head spell out `nodes`. */
    ghost predicate Valid()
      reads this, nodes
    {
      && (head == null <==> nodes == [])
      && (nodes != [] ==> head == nodes[0] && last == nodes[|nodes| - 1] && nodes[|nodes| - 1].next == null)
      && (forall i, j :: 0 <= i < j < |nodes| ==> nodes[i] != nodes[j])
      && forall i {:trigger nodes[i].next} :: 0 <= i < |nodes| - 1 ==> nodes[i].next == nodes[i + 1]
    }

    ghost function Values(): seq<int>
      reads this
    {
      ValuesOf(nodes)
    }

    constructor ()
      ensures Valid() && nodes == [] && Values() == []
    {
      head, last, nodes := null, null, [];
    }

    method Enqueue(value: int)
      requires Valid()
      modifies this, nodes
      ensures Valid() && Values() == old(Values()) + [value]
      ensures forall k :: 0 <= k < |nodes| ==> nodes[k] in old(nodes) || fresh(nodes[k])
    {
      var nw := new LockNode(value);
      if head == null {
        head := nw;
        last := nw;
      } else {
        last.next := nw;
        last := nw;
      }
      nodes := nodes + [nw];
      assert ValuesOf(nodes) == ValuesOf(old(nodes)) + [value];
    }

    /** Drops the head and returns the value of the next one, or -1 when nobody is left. */
    method Dequeue() returns (value: int)
      requires Valid() && head != null
      modifies this
      ensures Valid() && Values() == old(Values())[1..]
      ensures value == if Values() == [] then -1 else Values()[0]
      ensures forall k :: 0 <= k < |nodes| ==> nodes[k] in old(nodes)
    {
      var next := head.next;
      assert nodes[0].next == if 1 < |nodes| then nodes[1] else null;
      head := next;
      nodes := nodes[1..];
      assert forall i :: 0 <= i < |nodes| ==> nodes[i] == old(nodes)[i + 1] && nodes[i].next == old(nodes)[i + 1].next;
      value := if head == null then -1 else head.value;
    }

    method Empty() returns (r: bool)
      requires Valid()
      ensures r <==> Values() == []
    {
      r := head == null;
    }
  }

  /** A request for the connection: the descriptor made for it, and whether it had to wait. */
  datatype Ticket = Ticket(fd: int, waited: bool)

  /** What a queue of tickets stores: requesters that were served at once have no descriptor. */
  ghost function Stored(ts: seq<Ticket>): seq<int> {
    seq(|ts|, i requires 0 <= i < |ts| => if ts[i].waited then ts[i].fd else -1)
  }

  /** The descriptors of the tickets that waited, in order. */
  ghost function Waiters(ts: seq<Ticket>): seq<int> {
    if ts == [] then []
    else Waiters(ts[..|ts| - 1]) + if ts[|ts| - 1].waited then [ts[|ts| - 1].fd] else []
  }

  class Connection {
    const queue: LockQueue
    var signals: seq<int>        // descriptors written to, in order
    ghost var tickets: seq<Ticket>  // all requests ever made, in order of arrival
    ghost var served: nat        // how many of them have released the connection

    ghost predicate Valid()
      reads this, queue, queue.nodes
    {
      && queue.Valid()
      && served <= |tickets|
      // the queue is exactly the requests that have not released the connection, in order of arrival
      && queue.Values() == Stored(tickets[served..])
      // whoever is not the owner is waiting
      && (forall k :: served < k < |tickets| ==> tickets[k].waited)
      // every waiter up to the owner was signalled, in order, and nobody else
      && signals == Waiters(tickets[..Told(tickets, served)])
      && forall k :: 0 <= k < |tickets| && tickets[k].waited ==> tickets[k].fd >= 0
    }

    constructor ()
      ensures Valid() && fresh(queue) && tickets == [] && served == 0 && signals == []
    {
      queue := new LockQueue();
      signals, tickets, served := [], [], 0;
      new;
      assert queue.Values() == Stored(tickets[served..]);
    }

    /** -2 tells the caller that it owns the connection already; anything else is the descriptor to wait on. */
    method Lock(fd: int) returns (r: int)
      requires Valid() && fd >= 0
      modifies this, queue, queue.nodes
      ensures Valid()
      ensures forall k :: 0 <= k < |queue.nodes| ==> queue.nodes[k] in old(queue.nodes) || fresh(queue.nodes[k])
      ensures served == old(served) && signals == old(signals)
      ensures tickets == old(tickets) + [Ticket(fd, r != -2)]
      ensures r == if old(served) == old(|tickets|) then -2 else fd
    {
      hide Waiters;
      var empty := queue.Empty();
      ghost var t := Ticket(fd, !empty);
      assert empty <==> served == |tickets| by { assert |queue.Values()| == |tickets[served..]|; }
      WaitersStep(tickets, t);
      assert (tickets + [t])[served..] == tickets[served..] + [t];
      assert Stored(tickets[served..] + [t]) == Stored(tickets[served..]) + [if t.waited then fd else -1];
      if empty {
        queue.Enqueue(-1);
        r := -2;
        assert tickets[..served] == tickets && (tickets + [t])[..served + 1] == tickets + [t];
      } else {
        queue.Enqueue(fd);
        r := fd;
        assert (tickets + [t])[..served + 1] == tickets[..served + 1];
      }
      tickets := tickets + [t];
    }

    /** The owner lets go: the next requester, if any, becomes the owner and is signalled. */
    method Unlock()
      requires Valid() && served < |tickets|
      modifies this, queue
      ensures Valid() && tickets == old(tickets) && served == old(served) + 1
      ensures signals == if served < |tickets| then old(signals) + [tickets[served].fd] else old(signals)
      ensures forall k :: 0 <= k < |queue.nodes| ==> queue.nodes[k] in old(queue.nodes)
    {
      hide Waiters;
      assert |queue.Values()| > 0;
      var fd := queue.Dequeue();
      if fd != -1 {
        signals := signals + [fd];
      }
      StoredTail(tickets, served);
      served := served + 1;
      if served < |tickets| {
        WaitersStep(tickets[..served], tickets[served]);
        assert tickets[..served + 1] == tickets[..served] + [tickets[served]];
      }
    }
  }

  lemma StoredTail(ts: seq<Ticket>, k: nat)
    requires k < |ts|
    ensures Stored(ts[k..])[1..] == Stored(ts[k + 1..])
  {
    var a, b := Stored(ts[k..]), Stored(ts[k + 1..]);
    assert |a| == |b| + 1;
    assert forall i :: 0 <= i < |b| ==> a[i + 1] == b[i];
  }

  lemma WaitersStep(ts: seq<Ticket>, t: Ticket)
    ensures Waiters(ts + [t]) == Waiters(ts) + if t.waited then [t.fd] else []
  {
    assert (ts + [t])[..|ts|] == ts;
  }

  /** With distinct descriptors, a waiter's descriptor is signalled once if it is among
      the tickets signalled so far, and never otherwise. */
  lemma {:induction false} SignalledOnce(ts: seq<Ticket>, n: nat, k: nat)
    requires k < |ts| && n <= |ts| && ts[k].waited
    requires forall i, j :: 0 <= i < j < |ts| && ts[i].waited && ts[j].waited ==> ts[i].fd != ts[j].fd
    ensures multiset(Waiters(ts[..n]))[ts[k].fd] == if k < n then 1 else 0
    decreases n
  {
    hide Waiters;
    if n == 0 {
      assert ts[..0] == [];
      NobodyWaits();
    } else {
      SignalledOnce(ts, n - 1, k);
      assert ts[..n] == ts[..n - 1] + [ts[n - 1]];
      WaitersStep(ts[..n - 1], ts[n - 1]);
    }
  }

  lemma NobodyWaits()
    ensures Waiters([]) == []
  {
  }

  // ---------- whole runs ----------

  datatype Event = Request(fd: int) | Release

  /** The lock as a list of arrivals and a count of releases. */
  datatype History = History(tickets: seq<Ticket>, served: nat)

  ghost function Step(h: History, e: Event): History {
    match e
    case Request(fd) => h.(tickets := h.tickets + [Ticket(fd, h.served < |h.tickets|)])
    case Release => if h.served < |h.tickets| then h.(served := h.served + 1) else h
  }

  ghost function RunOf(events: seq<Event>): History {
    if events == [] then History([], 0) else Step(RunOf(events[..|events| - 1]), events[|events| - 1])
  }

  /** One event; `told` are the requests that learn that they own the connection now. */
  method Perform(c: Connection, e: Event) returns (told: seq<Ticket>, freed: nat)
    requires c.Valid() && (e.Request? ==> e.fd >= 0)
    modifies c, c.queue, c.queue.nodes
    ensures c.Valid()
    ensures forall k :: 0 <= k < |c.queue.nodes| ==> c.queue.nodes[k] in old(c.queue.nodes) || fresh(c.queue.nodes[k])
    ensures History(c.tickets, c.served) == Step(old(History(c.tickets, c.served)), e)
    ensures c.tickets[..Told(c.tickets, c.served)] == old(c.tickets[..Told(c.tickets, c.served)]) + told
    ensures c.served == old(c.served) + freed
  {
    hide Waiters;
    told, freed := [], 0;
    match e {
      case Request(fd) =>
        var r := c.Lock(fd);
        if r == -2 {
          told := [Ticket(fd, false)];
        }
      case Release =>
        var free := c.queue.Empty();
        assert |c.queue.Values()| == |c.tickets[c.served..]|;
        if !free {
          var before := |c.signals|;
          c.Unlock();
          freed := 1;
          if |c.signals| > before {
            told := [Ticket(c.signals[before], true)];
          }
        }
    }
  }

  /** Through any requests and releases, `granted` lists the requests that were told they own the
      connection, at once or by a signal, when they were told. They are the first arrivals in order of
      arrival, and apart from the ones that have let go there is never more than one. */
  method Replay(events: seq<Event>) returns (granted: seq<Ticket>, released: nat, signals: seq<int>)
    requires forall i :: 0 <= i < |events| && events[i].Request? ==> events[i].fd >= 0
    ensures var h := RunOf(events);
            && released == h.served <= |granted| <= released + 1 && |granted| <= |h.tickets|
            && granted == h.tickets[..|granted|]
            && (|granted| == released ==> released == |h.tickets|)
            && signals == Waiters(granted)
  {
    hide Waiters;
    var c := new Connection();
    granted, released := [], 0;
    for i := 0 to |events|
      invariant c.Valid() && fresh(c) && fresh(c.queue)
      invariant forall k :: 0 <= k < |c.queue.nodes| ==> fresh(c.queue.nodes[k])
      invariant History(c.tickets, c.served) == RunOf(events[..i])
      invariant released == c.served && granted == c.tickets[..Told(c.tickets, c.served)]
    {
      assert events[..i + 1][..i] == events[..i];
      var told, freed := Perform(c, events[i]);
      granted, released := granted + told, released + freed;
    }
    assert events[..|events|] == events;
    signals := c.signals;
  }

  /** How many requests have been told that they own the connection: those that let go and the owner. */
  ghost function Told(ts: seq<Ticket>, served: nat): (n: nat)
    requires served <= |ts|
    ensures n <= |ts|
  {
    if served < |ts| then served + 1 else served
  }
}
