/** The transmit queue on a millisecond counter that wraps. */
module TxWrap {
  import opened MdnsCommon
  import opened Clock
  import opened TxQueue
  import opened TxProofs

  /** A packet with its time as it is stored. */
  function Stored(p: Packet): Packet {
    p.(sendAt := Clock.Tick(p.sendAt))
  }

  function StoredQueue(queue: seq<Packet>): (r: seq<Packet>)
    ensures |r| == |queue| && forall i :: 0 <= i < |queue| ==> r[i] == Stored(queue[i])
  {
    seq(|queue|, i requires 0 <= i < |queue| => Stored(queue[i]))
  }

  /** How often the counter has wrapped before a moment. */
  function Turn(t: nat): nat {
    t / TICK_MODULUS
  }

  /** The times of a queue and of a packet are less than a turn apart. */
  predicate Near(queue: seq<Packet>, t: nat, range: nat) {
    forall i :: 0 <= i < |queue| ==> queue[i].sendAt < t + range && t < queue[i].sendAt + range
  }

  /** Two moments in one turn compare as they are stored; across a wrap they compare the other way round. */
  lemma StoredOrder(a: nat, b: nat)
    requires a < b + TICK_MODULUS && b < a + TICK_MODULUS
    ensures Clock.Tick(a) > Clock.Tick(b) <==> if Turn(a) == Turn(b) then a > b else a < b
  {
    assert a == Turn(a) * TICK_MODULUS + Clock.Tick(a) && b == Turn(b) * TICK_MODULUS + Clock.Tick(b);
    if Turn(a) > Turn(b) {
      assert Turn(a) == Turn(b) + 1;
    } else if Turn(b) > Turn(a) {
      assert Turn(b) == Turn(a) + 1;
    }
  }

  /** The first packets are not later than p. */
  predicate NotLater(queue: seq<Packet>, p: Packet, n: nat)
    requires n <= |queue|
  {
    forall i :: 0 <= i < n ==> queue[i].sendAt <= p.sendAt
  }

  /** No packet that is to stay in front, nor the one that is to come behind, is on the other side of a wrap. */
  predicate InOneTurn(queue: seq<Packet>, p: Packet) {
    forall i :: 0 <= i < |queue| && NotLater(queue, p, i) ==> Turn(queue[i].sendAt) == Turn(p.sendAt)
  }

  /**
   * mdns_priv_send_after compares the stored times without a sign: a packet goes to its place exactly when no wrap
   * lies between it and the packets before it and the one behind it.
   */
  lemma InsertExact(queue: seq<Packet>, p: Packet)
    requires Sorted(queue) && Near(queue, p.sendAt, TICK_MODULUS) && !InQueue(queue, p.id)
    ensures Insert(StoredQueue(queue), Stored(p)) == StoredQueue(Insert(queue, p)) <==> InOneTurn(queue, p)
  {
    hide Clock.Tick, Turn, Insert;
    var stored := StoredQueue(queue);
    forall i | 0 <= i < |queue|
      ensures stored[i].sendAt > Stored(p).sendAt <==>
              if Turn(queue[i].sendAt) == Turn(p.sendAt) then queue[i].sendAt > p.sendAt else queue[i].sendAt < p.sendAt
    {
      StoredOrder(queue[i].sendAt, p.sendAt);
    }
    var k := InsertSplit(queue, p);
    var j := InsertSplit(stored, Stored(p));
    PlaceShows(queue, p, k, j);
    assert j == k <==> InOneTurn(queue, p) by { SamePlace(queue, p, k, j); }
  }

  lemma SamePlace(queue: seq<Packet>, p: Packet, k: nat, j: nat)
    requires Sorted(queue) && k <= |queue| && j <= |queue|
    requires (forall i :: 0 <= i < k ==> queue[i].sendAt <= p.sendAt) && (k < |queue| ==> queue[k].sendAt > p.sendAt)
    requires forall i :: 0 <= i < j ==> !StoredLater(queue[i], p)
    requires j < |queue| ==> StoredLater(queue[j], p)
    ensures j == k <==> InOneTurn(queue, p)
  {
    hide Turn;
    assert forall i :: 0 <= i <= |queue| ==> (NotLater(queue, p, i) <==> i <= k);
    if InOneTurn(queue, p) {
      assert k < |queue| ==> Turn(queue[k].sendAt) == Turn(p.sendAt);
      assert forall i :: 0 <= i < k ==> !StoredLater(queue[i], p);
    }
  }

  /** How the stored times compare. */
  predicate StoredLater(q: Packet, p: Packet) {
    if Turn(q.sendAt) == Turn(p.sendAt) then q.sendAt > p.sendAt else q.sendAt < p.sendAt
  }

  /** The place of a new packet shows in the queue. */
  lemma PlaceShows(queue: seq<Packet>, p: Packet, k: nat, j: nat)
    requires k <= |queue| && j <= |queue| && !InQueue(queue, p.id)
    ensures var stored := StoredQueue(queue);
            stored[..j] + [Stored(p)] + stored[j..] == StoredQueue(queue[..k] + [p] + queue[k..]) <==> j == k
  {
    var stored := StoredQueue(queue);
    var a, b := stored[..j] + [Stored(p)] + stored[j..], StoredQueue(queue[..k] + [p] + queue[k..]);
    assert forall i :: 0 <= i < |queue| ==> queue[i].id != p.id;
    if j == k {
      assert a == b;
    } else if j < k {
      assert a[j].id == p.id && b[j].id == queue[j].id;
    } else {
      assert b[k].id == p.id && a[k].id == queue[k].id;
    }
  }

  // ----- what is due -----

  /** (int32_t) (send_at - now) < 0 */
  predicate Due(p: Packet, tick: Ticks)
    requires p.sendAt < TICK_MODULUS
  {
    !Reached(p.sendAt, tick)
  }

  predicate AllStored(queue: seq<Packet>) {
    forall i :: 0 <= i < |queue| ==> queue[i].sendAt < TICK_MODULUS
  }

  function MarkDueStored(queue: seq<Packet>, tick: Ticks, refused: set<nat>): (seq<Packet>, seq<nat>)
    requires AllStored(queue)
  {
    if queue == [] || !Due(queue[0], tick) then (queue, [])
    else
      var (rest, actions) := MarkDueStored(queue[1..], tick, refused);
      if queue[0].id in refused then ([queue[0].(queued := false)] + rest, actions)
      else ([queue[0].(queued := true)] + rest, [queue[0].id] + actions)
  }

  /** mdns_priv_send_packets on the stored times. */
  function SendPacketsStored(queue: seq<Packet>, tick: Ticks, refused: set<nat>): (seq<Packet>, seq<nat>)
    requires AllStored(queue)
  {
    if queue == [] then ([], [])
    else if queue[0].queued then
      var (rest, actions) := SendPacketsStored(queue[1..], tick, refused);
      ([queue[0]] + rest, actions)
    else MarkDueStored(queue, tick, refused)
  }

  lemma StoredCons(p: Packet, queue: seq<Packet>)
    ensures StoredQueue([p] + queue) == [Stored(p)] + StoredQueue(queue)
  {
  }

  lemma {:induction false} MarkDueWraps(queue: seq<Packet>, now: nat, refused: set<nat>)
    requires Near(queue, now, TICK_MODULUS / 2)
    ensures var (q, actions) := MarkDue(queue, now, refused);
            MarkDueStored(StoredQueue(queue), Clock.Tick(now), refused) == (StoredQueue(q), actions)
    decreases |queue|
  {
    hide Clock.Tick, Reached;
    if queue == [] {
    } else {
      ReachedExact(queue[0].sendAt, now);
      MarkDueWraps(queue[1..], now, refused);
      var rest := MarkDue(queue[1..], now, refused).0;
      assert StoredQueue(queue)[1..] == StoredQueue(queue[1..]);
      StoredCons(queue[0].(queued := false), rest);
      StoredCons(queue[0].(queued := true), rest);
    }
  }

  /** The timer's signed comparison survives the wrap for times less than half a turn from now. */
  lemma {:induction false} SendPacketsWraps(queue: seq<Packet>, now: nat, refused: set<nat>)
    requires Near(queue, now, TICK_MODULUS / 2)
    ensures var (q, actions) := SendPackets(queue, now, refused);
            SendPacketsStored(StoredQueue(queue), Clock.Tick(now), refused) == (StoredQueue(q), actions)
    decreases |queue|
  {
    hide Clock.Tick, Reached, MarkDue, MarkDueStored;
    if queue == [] {
    } else if queue[0].queued {
      SendPacketsWraps(queue[1..], now, refused);
      assert StoredQueue(queue)[1..] == StoredQueue(queue[1..]);
      StoredCons(queue[0], SendPackets(queue[1..], now, refused).0);
    } else {
      MarkDueWraps(queue, now, refused);
    }
  }

  // ----- what a wrap does -----

  /**
   * Two packets on both sides of the wrap: the later one is put in front, and while it is not due the timer sends
   * neither, also when the other is overdue.
   */
  lemma WrapDelays(early: Packet, late: Packet, now: nat, refused: set<nat>)
    requires early.sendAt < now < late.sendAt < early.sendAt + TICK_MODULUS / 2
    requires Turn(early.sendAt) < Turn(late.sendAt) && !early.queued && !late.queued
    ensures Insert(StoredQueue([early]), Stored(late)) == StoredQueue([late, early])
    ensures SendPacketsStored(StoredQueue([late, early]), Clock.Tick(now), refused) == (StoredQueue([late, early]), [])
    ensures SendPackets([early, late], now, {}).1 == [early.id]
  {
    hide Clock.Tick, Reached;
    StoredOrder(early.sendAt, late.sendAt);
    assert Insert(StoredQueue([early]), Stored(late)) == [Stored(late)] + StoredQueue([early]);
    assert [Stored(late)] + StoredQueue([early]) == StoredQueue([late, early]);
    ReachedExact(late.sendAt, now);
    var behind := [late];
    assert [early, late][1..] == behind;
    assert MarkDue(behind, now, {}) == (behind, []);
    assert [early.id] + [] == [early.id];
  }
}
