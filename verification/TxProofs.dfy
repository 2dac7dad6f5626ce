/** In every interleaving: a transmit action finds its packet at the head, and probing sends three spaced probes. */
module TxProofs {
  import opened TxQueue
  import opened MdnsCommon

  // ----- which actions are live -----

  lemma IdsJoined(a: seq<nat>, b: seq<nat>, c: seq<nat>)
    ensures a + (b + c) == (a + b) + c
  {
  }

  lemma {:induction false} LiveAppend(a: seq<nat>, b: seq<nat>, queue: seq<Packet>)
    ensures Live(a + b, queue) == Live(a, queue) + Live(b, queue)
    decreases |a|
  {
    hide InQueue;
    if a == [] {
      assert a + b == b;
    } else {
      LiveAppend(a[1..], b, queue);
      assert (a + b)[0] == a[0] && (a + b)[1..] == a[1..] + b;
      var first := if InQueue(queue, a[0]) then [a[0]] else [];
      assert Live(a, queue) == first + Live(a[1..], queue);
      assert Live(a + b, queue) == first + (Live(a[1..], queue) + Live(b, queue));
      IdsJoined(first, Live(a[1..], queue), Live(b, queue));
    }
  }

  lemma {:induction false} LiveAll(ids: seq<nat>, queue: seq<Packet>)
    requires forall i :: 0 <= i < |ids| ==> InQueue(queue, ids[i])
    ensures Live(ids, queue) == ids
    decreases |ids|
  {
    hide InQueue;
    if ids == [] {
    } else {
      LiveAll(ids[1..], queue);
    }
  }

  /** Two queues that agree about the actions have the same live ones. */
  lemma {:induction false} LiveAgrees(actions: seq<nat>, a: seq<Packet>, b: seq<Packet>)
    requires forall i :: 0 <= i < |actions| ==> (InQueue(a, actions[i]) <==> InQueue(b, actions[i]))
    ensures Live(actions, a) == Live(actions, b)
    decreases |actions|
  {
    hide InQueue;
    if actions == [] {
    } else {
      LiveAgrees(actions[1..], a, b);
    }
  }

  lemma {:induction false} LiveTwice(actions: seq<nat>, big: seq<Packet>, small: seq<Packet>)
    requires forall id :: InQueue(small, id) ==> InQueue(big, id)
    ensures Live(Live(actions, big), small) == Live(actions, small)
    decreases |actions|
  {
    hide InQueue;
    if actions == [] {
    } else {
      LiveTwice(actions[1..], big, small);
      var first := if InQueue(big, actions[0]) then [actions[0]] else [];
      LiveAppend(first, Live(actions[1..], big), small);
      assert first != [] ==> first[1..] == [];
    }
  }

  lemma {:induction false} LiveMember(actions: seq<nat>, queue: seq<Packet>, i: nat)
    requires i < |actions| && InQueue(queue, actions[i])
    ensures exists k :: 0 <= k < |Live(actions, queue)| && Live(actions, queue)[k] == actions[i]
    decreases |actions|
  {
    hide InQueue;
    if i > 0 {
      LiveMember(actions[1..], queue, i - 1);
      var k :| 0 <= k < |Live(actions[1..], queue)| && Live(actions[1..], queue)[k] == actions[1..][i - 1];
      var first := if InQueue(queue, actions[0]) then [actions[0]] else [];
      assert Live(actions, queue)[|first| + k] == actions[i];
    } else {
      assert Live(actions, queue)[0] == actions[0];
    }
  }

  lemma {:induction false} QueuedIdsAt(queue: seq<Packet>, k: nat)
    requires k < |QueuedIds(queue)|
    ensures k < |queue| && queue[k].queued && queue[k].id == QueuedIds(queue)[k]
    decreases |queue|
  {
    if k > 0 {
      QueuedIdsAt(queue[1..], k - 1);
    }
  }

  // ----- insertion -----

  lemma Slices(queue: seq<Packet>, k: nat)
    requires k < |queue|
    ensures [queue[0]] + queue[1..][..k] == queue[..k + 1] && queue[1..][k..] == queue[k + 1..]
  {
  }

  lemma {:induction false} InsertSplit(queue: seq<Packet>, p: Packet) returns (k: nat)
    ensures k <= |queue| && Insert(queue, p) == queue[..k] + [p] + queue[k..]
    ensures forall i :: 0 <= i < k ==> queue[i].sendAt <= p.sendAt
    ensures k < |queue| ==> queue[k].sendAt > p.sendAt
    decreases |queue|
  {
    if queue == [] || queue[0].sendAt > p.sendAt {
      k := 0;
      assert queue[..0] + [p] + queue[0..] == [p] + queue;
    } else {
      k := InsertSplit(queue[1..], p);
      Slices(queue, k);
      k := k + 1;
    }
  }

  lemma {:induction false} QueuedIdsInsert(queue: seq<Packet>, p: Packet, now: nat)
    requires !p.queued && p.sendAt >= now && Prefix(queue, now)
    ensures QueuedIds(Insert(queue, p)) == QueuedIds(queue)
    decreases |queue|
  {
    if queue != [] && queue[0].sendAt <= p.sendAt {
      QueuedIdsInsert(queue[1..], p, now);
      assert ([queue[0]] + Insert(queue[1..], p))[1..] == Insert(queue[1..], p);
    }
  }

  /** The queue with a packet put in at a position. */
  lemma InsertOrdered(queue: seq<Packet>, p: Packet, k: nat, now: nat)
    requires Sorted(queue) && DistinctIds(queue) && Prefix(queue, now) && !InQueue(queue, p.id)
    requires k <= |queue| && (forall i :: 0 <= i < k ==> queue[i].sendAt <= p.sendAt)
    requires k < |queue| ==> queue[k].sendAt > p.sendAt
    requires !p.queued && p.sendAt >= now
    ensures var q := queue[..k] + [p] + queue[k..]; Sorted(q) && DistinctIds(q) && Prefix(q, now)
  {
    var q := queue[..k] + [p] + queue[k..];
    assert forall i :: 0 <= i < |queue| ==> queue[i].id != p.id;
    forall i, j | 0 <= i < j < |q|
      ensures q[i].sendAt <= q[j].sendAt && q[i].id != q[j].id && (q[j].queued ==> q[i].queued)
    {
      var a, b := if i < k then i else i - 1, if j < k then j else j - 1;
      assert i != k ==> q[i] == queue[a];
      assert j != k ==> q[j] == queue[b];
      assert k < b < |queue| ==> queue[k].sendAt <= queue[b].sendAt;
    }
    forall i | 0 <= i < |q| && q[i].queued ensures q[i].sendAt < now {
      assert q[i] == queue[if i < k then i else i - 1];
    }
  }

  lemma InsertMembers(queue: seq<Packet>, p: Packet, k: nat, id: nat)
    requires k <= |queue|
    ensures InQueue(queue[..k] + [p] + queue[k..], id) <==> InQueue(queue, id) || id == p.id
  {
    hide InQueue;
    InQueueAppend(queue[..k] + [p], queue[k..], id);
    InQueueAppend(queue[..k], [p], id);
    InQueueAppend(queue[..k], queue[k..], id);
    OnlyOne(p, id);
    assert queue == queue[..k] + queue[k..];
  }

  lemma SendAfterKeeps(net: Net, id: nat, link: Link, delay: nat, nextId: nat)
    requires InOrder(net) && !InQueue(net.queue, id) && id < nextId && net.nextId <= nextId
    requires forall i :: 0 <= i < |net.actions| ==> net.actions[i] != id
    ensures InOrder(SendAfter(net, id, link, delay).(nextId := nextId))
  {
    var p := Packet(id, link, net.now + delay, false);
    var k := InsertSplit(net.queue, p);
    var q := Insert(net.queue, p);
    InsertOrdered(net.queue, p, k, net.now);
    QueuedIdsInsert(net.queue, p, net.now);
    hide InQueue, Sorted, DistinctIds, Prefix, Insert, Live, QueuedIds;
    forall i | 0 <= i < |net.actions|
      ensures InQueue(net.queue, net.actions[i]) <==> InQueue(q, net.actions[i])
    {
      InsertMembers(net.queue, p, k, net.actions[i]);
    }
    LiveAgrees(net.actions, net.queue, q);
    InsertIds(net.queue, p, k, nextId);
  }

  lemma InsertIds(queue: seq<Packet>, p: Packet, k: nat, bound: nat)
    requires k <= |queue| && p.id < bound && forall i :: 0 <= i < |queue| ==> queue[i].id < bound
    ensures forall i :: 0 <= i < |queue| + 1 ==> (queue[..k] + [p] + queue[k..])[i].id < bound
  {
  }

  // ----- packets that are taken out -----

  lemma {:induction false} KeptFrom(queue: seq<Packet>, ids: set<nat>, i: nat) returns (k: nat)
    requires i < |Kept(queue, ids)|
    ensures k < |queue| && queue[k] == Kept(queue, ids)[i]
    decreases |queue|
  {
    var first := if queue[0].id in ids then 1 else 0;
    if i < first {
      k := 0;
    } else {
      k := KeptFrom(queue[1..], ids, i - first);
      k := k + 1;
    }
  }

  lemma ConsOrdered(p: Packet, rest: seq<Packet>, now: nat)
    requires Sorted(rest) && DistinctIds(rest) && Prefix(rest, now) && (p.queued ==> p.sendAt < now)
    requires forall i :: 0 <= i < |rest| ==>
               p.sendAt <= rest[i].sendAt && p.id != rest[i].id && (rest[i].queued ==> p.queued)
    ensures Sorted([p] + rest) && DistinctIds([p] + rest) && Prefix([p] + rest, now)
  {
  }

  lemma {:induction false} KeptIsOrdered(queue: seq<Packet>, ids: set<nat>, now: nat)
    requires Sorted(queue) && DistinctIds(queue) && Prefix(queue, now)
    ensures Sorted(Kept(queue, ids)) && DistinctIds(Kept(queue, ids)) && Prefix(Kept(queue, ids), now)
    decreases |queue|
  {
    if queue == [] {
    } else {
      var rest := Kept(queue[1..], ids);
      KeptIsOrdered(queue[1..], ids, now);
      forall i | 0 <= i < |rest|
        ensures queue[0].sendAt <= rest[i].sendAt && queue[0].id != rest[i].id && (rest[i].queued ==> queue[0].queued)
      {
        var k := KeptFrom(queue[1..], ids, i);
        assert rest[i] == queue[k + 1];
      }
      assert queue[0].queued ==> queue[0].sendAt < now;
      hide Sorted, DistinctIds, Prefix;
      KeptCons(queue, ids, now);
    }
  }

  lemma KeptCons(queue: seq<Packet>, ids: set<nat>, now: nat)
    requires queue != [] && (queue[0].queued ==> queue[0].sendAt < now)
    requires var rest := Kept(queue[1..], ids);
             && Sorted(rest) && DistinctIds(rest) && Prefix(rest, now)
             && forall i :: 0 <= i < |rest| ==>
                  queue[0].sendAt <= rest[i].sendAt && queue[0].id != rest[i].id && (rest[i].queued ==> queue[0].queued)
    ensures Sorted(Kept(queue, ids)) && DistinctIds(Kept(queue, ids)) && Prefix(Kept(queue, ids), now)
  {
    hide Sorted, DistinctIds, Prefix;
    var rest := Kept(queue[1..], ids);
    ConsOrdered(queue[0], rest, now);
    assert [] + rest == rest;
  }

  lemma {:induction false} KeptMembers(queue: seq<Packet>, ids: set<nat>, id: nat)
    ensures InQueue(Kept(queue, ids), id) <==> InQueue(queue, id) && id in ids
    decreases |queue|
  {
    if queue == [] {
    } else {
      KeptMembers(queue[1..], ids, id);
      var rest := Kept(queue[1..], ids);
      var first := if queue[0].id in ids then [queue[0]] else [];
      InQueueAppend(first, rest, id);
      InQueueAppend([queue[0]], queue[1..], id);
      assert queue == [queue[0]] + queue[1..];
    }
  }

  lemma InQueueAppend(a: seq<Packet>, b: seq<Packet>, id: nat)
    ensures InQueue(a + b, id) <==> InQueue(a, id) || InQueue(b, id)
  {
    if InQueue(b, id) {
      var i :| 0 <= i < |b| && b[i].id == id;
      assert (a + b)[|a| + i].id == id;
    }
    if InQueue(a, id) {
      var i :| 0 <= i < |a| && a[i].id == id;
      assert (a + b)[i].id == id;
    }
  }

  lemma {:induction false} KeptQueuedIds(queue: seq<Packet>, ids: set<nat>, all: seq<Packet>, now: nat)
    requires Prefix(queue, now)
    requires forall i :: 0 <= i < |queue| ==> (InQueue(all, queue[i].id) <==> queue[i].id in ids)
    ensures QueuedIds(Kept(queue, ids)) == Live(QueuedIds(queue), all)
    decreases |queue|
  {
    hide InQueue;
    if queue == [] {
    } else {
      KeptQueuedIds(queue[1..], ids, all, now);
      if queue[0].queued {
        assert ([queue[0].id] + QueuedIds(queue[1..]))[1..] == QueuedIds(queue[1..]);
        assert ([queue[0]] + Kept(queue[1..], ids))[1..] == Kept(queue[1..], ids);
        assert [] + Kept(queue[1..], ids) == Kept(queue[1..], ids);
      } else {
        NoneQueued(Kept(queue, ids), queue, ids);
      }
    }
  }

  lemma {:induction false} NoneQueued(kept: seq<Packet>, queue: seq<Packet>, ids: set<nat>)
    requires kept == Kept(queue, ids) && forall i :: 0 <= i < |queue| ==> !queue[i].queued
    ensures QueuedIds(kept) == []
    decreases |queue|
  {
    if queue == [] {
    } else {
      NoneQueued(Kept(queue[1..], ids), queue[1..], ids);
    }
  }

  lemma KeptKeeps(net: Net, ids: set<nat>)
    requires InOrder(net)
    ensures InOrder(net.(queue := Kept(net.queue, ids)))
  {
    hide InQueue, Prefix;
    var q := Kept(net.queue, ids);
    KeptIsOrdered(net.queue, ids, net.now);
    forall i | 0 <= i < |q| ensures q[i].id < net.nextId {
      var k := KeptFrom(net.queue, ids, i);
    }
    forall id ensures InQueue(q, id) <==> InQueue(net.queue, id) && id in ids { KeptMembers(net.queue, ids, id); }
    forall i | 0 <= i < |net.queue| ensures InQueue(net.queue, net.queue[i].id) { Present(net.queue, i); }
    KeptQueuedIds(net.queue, ids, q, net.now);
    LiveTwice(net.actions, net.queue, q);
  }

  lemma Present(queue: seq<Packet>, i: nat)
    requires i < |queue|
    ensures InQueue(queue, queue[i].id)
  {
  }

  lemma {:induction false} ClearIsKept(queue: seq<Packet>, link: Link, ids: set<nat>)
    requires forall i :: 0 <= i < |queue| ==> (queue[i].id in ids <==> queue[i].link != link)
    ensures ClearLink(queue, link) == Kept(queue, ids)
    decreases |queue|
  {
    if queue == [] {
    } else {
      ClearIsKept(queue[1..], link, ids);
    }
  }

  lemma ClearKeeps(net: Net, link: Link)
    requires InOrder(net)
    ensures InOrder(net.(queue := ClearLink(net.queue, link)))
    ensures forall id :: InQueue(ClearLink(net.queue, link), id) ==> InQueue(net.queue, id)
  {
    var ids := set i | 0 <= i < |net.queue| && net.queue[i].link != link :: net.queue[i].id;
    ClearIsKept(net.queue, link, ids);
    KeptKeeps(net, ids);
    forall id ensures InQueue(Kept(net.queue, ids), id) ==> InQueue(net.queue, id) { KeptMembers(net.queue, ids, id); }
  }

  lemma RemoveServiceKeeps(net: Net, service: nat, cleared: set<Link>, emptied: set<nat>)
    requires InOrder(net)
    ensures InOrder(RemoveService(net, service, cleared, emptied))
  {
    hide Sorted, DistinctIds, Prefix, Forget, NotEmpty, Live, QueuedIds;
    var forgotten := Forget(net, service, cleared);
    ForgetQueue(net, service, cleared);
    KeptKeeps(forgotten, NotEmpty(forgotten, emptied));
  }

  lemma ForgetQueue(net: Net, service: nat, cleared: set<Link>)
    ensures Forget(net, service, cleared) == net.(pcbs := Forget(net, service, cleared).pcbs)
  {
  }

  // ----- the timer -----

  /** The same packets in the same order, whatever is queued. */
  ghost predicate SamePackets(a: seq<Packet>, b: seq<Packet>) {
    |a| == |b| && forall i :: 0 <= i < |a| ==>
        a[i].id == b[i].id && a[i].sendAt == b[i].sendAt && a[i].link == b[i].link
  }

  lemma {:induction false} MarkDueSame(queue: seq<Packet>, now: nat, refused: set<nat>)
    ensures SamePackets(queue, MarkDue(queue, now, refused).0)
    ensures forall i :: 0 <= i < |queue| && MarkDue(queue, now, refused).0[i].queued ==>
            queue[i].queued || queue[i].sendAt < now
    decreases |queue|
  {
    if queue != [] && queue[0].sendAt < now {
      MarkDueSame(queue[1..], now, refused);
    }
  }

  lemma {:induction false} SendPacketsSame(queue: seq<Packet>, now: nat, refused: set<nat>)
    ensures SamePackets(queue, SendPackets(queue, now, refused).0)
    ensures forall i :: 0 <= i < |queue| && SendPackets(queue, now, refused).0[i].queued ==>
            queue[i].queued || queue[i].sendAt < now
    decreases |queue|
  {
    if queue == [] {
    } else {
      if queue[0].queued {
        SendPacketsSame(queue[1..], now, refused);
      } else {
        MarkDueSame(queue, now, refused);
      }
    }
  }

  lemma {:induction false} NothingAccepted(queue: seq<Packet>, now: nat, refused: set<nat>)
    requires Sorted(queue) && forall i :: 0 <= i < |queue| ==> !queue[i].queued
    requires forall i :: 0 <= i < |queue| && queue[i].sendAt < now ==> queue[i].id in refused
    ensures var (q, actions) := MarkDue(queue, now, refused);
            (forall i :: 0 <= i < |q| ==> !q[i].queued) && QueuedIds(q) == [] && actions == []
    decreases |queue|
  {
    if queue != [] && queue[0].sendAt < now {
      NothingAccepted(queue[1..], now, refused);
    }
  }

  lemma {:induction false} MarkDueOrder(queue: seq<Packet>, now: nat, refused: set<nat>)
    requires Sorted(queue) && forall i :: 0 <= i < |queue| ==> !queue[i].queued
    requires RefusedLast(queue, now, refused)
    ensures var (q, actions) := MarkDue(queue, now, refused); Prefix(q, now) && QueuedIds(q) == actions
    decreases |queue|
  {
    if queue != [] && queue[0].sendAt < now {
      var (q, actions) := MarkDue(queue[1..], now, refused);
      if queue[0].id in refused {
        NothingAccepted(queue[1..], now, refused);
      } else {
        MarkDueOrder(queue[1..], now, refused);
        assert ([queue[0].(queued := true)] + q)[1..] == q;
      }
    }
  }

  lemma PrefixBehind(p: Packet, q: seq<Packet>, now: nat)
    requires p.queued && p.sendAt < now && Prefix(q, now)
    ensures Prefix([p] + q, now)
  {
  }

  lemma {:induction false} SendPacketsOrder(queue: seq<Packet>, now: nat, refused: set<nat>)
    requires Sorted(queue) && Prefix(queue, now) && RefusedLast(queue, now, refused)
    ensures var (q, actions) := SendPackets(queue, now, refused);
            Prefix(q, now) && QueuedIds(q) == QueuedIds(queue) + actions
    decreases |queue|
  {
    hide MarkDue;
    if queue == [] {
    } else if queue[0].queued {
      SendPacketsOrder(queue[1..], now, refused);
      hide RefusedLast, Sorted;
      var (q, actions) := SendPackets(queue[1..], now, refused);
      PrefixBehind(queue[0], q, now);
      assert ([queue[0]] + q)[1..] == q;
      assert [queue[0].id] + (QueuedIds(queue[1..]) + actions) == ([queue[0].id] + QueuedIds(queue[1..])) + actions;
    } else {
      assert forall i :: 0 <= i < |queue| ==> !queue[i].queued;
      hide Prefix, Sorted;
      MarkDueOrder(queue, now, refused);
    }
  }

  /** Which packets are marked in the end. */
  lemma {:induction false} MarkedExactly(queue: seq<Packet>, now: nat, refused: set<nat>, i: nat)
    requires i < |queue| && Sorted(queue) && !queue[i].queued
    ensures SendPackets(queue, now, refused).0[i].queued ==> queue[i].sendAt < now && queue[i].id !in refused
    ensures queue[i].sendAt < now && queue[i].id !in refused ==> MarkDue(queue, now, refused).0[i].queued
    ensures queue[i].sendAt < now && queue[i].id !in refused ==> SendPackets(queue, now, refused).0[i].queued
    ensures MarkDue(queue, now, refused).0[i].queued ==> queue[i].sendAt < now && queue[i].id !in refused
    decreases i
  {
    if i > 0 {
      MarkedExactly(queue[1..], now, refused, i - 1);
    }
  }

  /** The condition is exact: the marked packets form a prefix exactly when the refused ones come last. */
  lemma MarkedPrefixExact(queue: seq<Packet>, now: nat, refused: set<nat>)
    requires Sorted(queue) && Prefix(queue, now)
    ensures Prefix(SendPackets(queue, now, refused).0, now) <==> RefusedLast(queue, now, refused)
  {
    var q := SendPackets(queue, now, refused).0;
    if RefusedLast(queue, now, refused) {
      SendPacketsOrder(queue, now, refused);
    } else {
      var i, j :| 0 <= i < j < |queue| && !queue[i].queued && !queue[j].queued && queue[j].sendAt < now
                  && queue[j].id !in refused && queue[i].id in refused;
      MarkedExactly(queue, now, refused, i);
      MarkedExactly(queue, now, refused, j);
      assert q[j].queued && !q[i].queued;
    }
  }

  lemma SameInQueue(a: seq<Packet>, b: seq<Packet>, id: nat)
    requires SamePackets(a, b)
    ensures InQueue(a, id) <==> InQueue(b, id)
  {
  }

  lemma SameOrder(a: seq<Packet>, b: seq<Packet>, nextId: nat)
    requires SamePackets(a, b) && Sorted(a) && DistinctIds(a) && forall i :: 0 <= i < |a| ==> a[i].id < nextId
    ensures Sorted(b) && DistinctIds(b) && forall i :: 0 <= i < |b| ==> b[i].id < nextId
  {
  }

  lemma TimerKeeps(net: Net, refused: set<nat>)
    requires InOrder(net) && RefusedLast(net.queue, net.now, refused)
    ensures InOrder(Step(net, Timer(refused)))
  {
    hide InQueue, Prefix, RefusedLast, Sorted, DistinctIds, SamePackets, SendPackets, Live, QueuedIds;
    var (q, actions) := SendPackets(net.queue, net.now, refused);
    SendPacketsOrder(net.queue, net.now, refused);
    SendPacketsSame(net.queue, net.now, refused);
    SameOrder(net.queue, q, net.nextId);
    forall id ensures InQueue(net.queue, id) <==> InQueue(q, id) { SameInQueue(net.queue, q, id); }
    LiveAgrees(net.actions, net.queue, q);
    LiveAppend(net.actions, actions, q);
    forall i | 0 <= i < |actions|
      ensures InQueue(q, actions[i]) && actions[i] < net.nextId
    {
      var k := |QueuedIds(net.queue)| + i;
      assert QueuedIds(q)[k] == actions[i];
      QueuedIdsAt(q, k);
      Present(q, k);
    }
    LiveAll(actions, q);
  }

  /** The timer keeps everything in order exactly when no refused packet stands before one that is accepted. */
  lemma TimerKeepsExact(net: Net, refused: set<nat>)
    requires InOrder(net)
    ensures InOrder(Step(net, Timer(refused))) <==> RefusedLast(net.queue, net.now, refused)
  {
    hide Sorted, DistinctIds, Prefix, RefusedLast, Live, QueuedIds;
    MarkedPrefixExact(net.queue, net.now, refused);
    if RefusedLast(net.queue, net.now, refused) { TimerKeeps(net, refused); }
  }

  // ----- actions -----

  /** A transmit action whose packet is still in the queue finds it at the head, waiting for it. */
  lemma ActionFindsHead(net: Net)
    requires InOrder(net) && net.actions != [] && InQueue(net.queue, net.actions[0])
    ensures net.queue != [] && net.queue[0].id == net.actions[0] && net.queue[0].queued
  {
    assert Live(net.actions, net.queue)[0] == net.actions[0];
    QueuedIdsAt(net.queue, 0);
  }

  lemma TailInOrder(queue: seq<Packet>, now: nat)
    requires queue != [] && Sorted(queue) && DistinctIds(queue) && Prefix(queue, now)
    ensures Sorted(queue[1..]) && DistinctIds(queue[1..]) && Prefix(queue[1..], now)
  {
  }

  lemma FirstLive(actions: seq<nat>, queue: seq<Packet>)
    requires actions != [] && queue != [] && InQueue(queue, actions[0]) && queue[0].queued
    ensures Live(actions[1..], queue) == Live(actions, queue)[1..]
    ensures QueuedIds(queue[1..]) == QueuedIds(queue)[1..]
  {
    hide InQueue;
  }

  /** After the head has gone, nothing is left that points to it. */
  lemma PopKeeps(net: Net)
    requires InOrder(net) && net.actions != [] && InQueue(net.queue, net.actions[0])
    ensures var popped := net.(queue := net.queue[1..], actions := net.actions[1..]);
            InOrder(popped) && !InQueue(popped.queue, net.actions[0])
            && forall i :: 0 <= i < |popped.actions| ==> popped.actions[i] != net.actions[0]
  {
    hide InQueue, Sorted, DistinctIds, Prefix, Live, QueuedIds;
    ActionFindsHead(net);
    var q, actions, id := net.queue[1..], net.actions[1..], net.actions[0];
    TailInOrder(net.queue, net.now);
    FirstLive(net.actions, net.queue);
    HeadGone(net.queue);
    forall i | 0 <= i < |actions|
      ensures actions[i] != id
    {
      if actions[i] == id {
        LiveMember(actions, net.queue, i);
        var k :| 0 <= k < |QueuedIds(q)| && QueuedIds(q)[k] == id;
        QueuedIdsAt(q, k);
        Present(q, k);
        assert false;
      }
    }
    forall i | 0 <= i < |actions|
      ensures InQueue(net.queue, actions[i]) <==> InQueue(q, actions[i])
    {
      InQueueAppend([net.queue[0]], q, actions[i]);
      assert net.queue == [net.queue[0]] + q;
      OnlyOne(net.queue[0], actions[i]);
    }
    LiveAgrees(actions, net.queue, q);
  }

  lemma OnlyOne(p: Packet, id: nat)
    ensures InQueue([p], id) <==> p.id == id
  {
    assert [p][0] == p;
  }

  lemma HeadGone(queue: seq<Packet>)
    requires queue != [] && DistinctIds(queue)
    ensures !InQueue(queue[1..], queue[0].id)
  {
  }

  lemma ActKeeps(net: Net)
    requires InOrder(net)
    ensures InOrder(Act(net))
  {
    hide InQueue, Prefix;
    if net.actions != [] {
      var rest := net.(actions := net.actions[1..]);
      if InQueue(net.queue, net.actions[0]) {
        ActionFindsHead(net);
        PopKeeps(net);
        HandleKeeps(rest.(queue := net.queue[1..]), net.queue[0].(queued := false));
      } else {
        if net.queue != [] { Present(net.queue, 0); }
      }
    }
  }

  lemma HandleKeeps(net: Net, p: Packet)
    requires InOrder(net) && !InQueue(net.queue, p.id) && p.id < net.nextId
    requires forall i :: 0 <= i < |net.actions| ==> net.actions[i] != p.id
    ensures InOrder(Handle(net, p))
  {
    hide Prefix, Insert, Sorted, DistinctIds;
    SendAfterKeeps(net, p.id, p.link, 250, net.nextId);
    SendAfterKeeps(net, p.id, p.link, 1000, net.nextId);
    SendAfterKeeps(net, net.nextId, p.link, 250, net.nextId + 1);
  }

  lemma StepKeepsOrder(net: Net, e: Event)
    requires InOrder(net)
    ensures InOrder(Step(net, e)) <==> (e.Timer? ==> RefusedLast(net.queue, net.now, e.refused))
  {
    hide InOrder, RefusedLast, SendPackets, StartProbe, RestartAll, RemoveService, Act, Announce, Stop, Answer;
    match e
    case Tick(ms) => TickKeeps(net, ms);
    case Timer(refused) => TimerKeepsExact(net, refused);
    case Action => ActKeeps(net);
    case DelayedAnswer(link, delay) => AnswerKeeps(net, link, delay);
    case BeginProbe(link, wish) => StartProbeKeeps(net, link, wish);
    case BeginAnnounce(link, wish) => AnnounceKeeps(net, link, wish);
    case Restart(table, wish) => RestartKeeps(net, table, wish);
    case ProbeFailed(link) =>
      PcbKeeps(net, link, PcbOf(net, link).(failed := (PcbOf(net, link).failed + 1) % 0x1_0000));
    case Disable(link) => StopKeeps(net, link, Off);
    case Duplicate(link) => StopKeeps(net, link, Dup);
    case Remove(service, cleared, emptied) => RemoveServiceKeeps(net, service, cleared, emptied);
  }

  lemma TickKeeps(net: Net, ms: nat)
    requires InOrder(net)
    ensures InOrder(net.(now := net.now + ms))
  {
  }

  /** The order does not depend on the control blocks. */
  lemma PcbKeeps(net: Net, link: Link, pcb: Pcb)
    requires InOrder(net)
    ensures InOrder(WithPcb(net, link, pcb))
  {
  }

  lemma AnswerKeeps(net: Net, link: Link, delay: nat)
    requires InOrder(net)
    ensures InOrder(Answer(net, link, delay))
  {
    hide InOrder;
    NewPacketKeeps(net, link, delay);
  }

  lemma AnnounceKeeps(net: Net, link: Link, wish: Wish)
    requires InOrder(net)
    ensures InOrder(Announce(net, link, wish))
  {
    hide InOrder, StartProbe;
    StartProbeKeeps(net, link, wish);
    NewPacketKeeps(net, link, 0);
    var pcb := PcbOf(net, link).(state := Announce1, announced := []);
    PcbKeeps(net, link, pcb);
    PcbKeeps(SendAfter(net, net.nextId, link, 0).(nextId := net.nextId + 1), link, pcb);
  }

  lemma StopKeeps(net: Net, link: Link, state: PcbState)
    requires InOrder(net)
    ensures InOrder(Stop(net, link, state))
  {
    hide InOrder;
    ClearKeeps(net, link);
    PcbKeeps(net.(queue := ClearLink(net.queue, link)), link, OFF.(state := state));
  }

  lemma {:induction false} ProbeAllKeeps(net: Net, table: seq<Link>, wish: Wish, restart: bool)
    requires InOrder(net)
    ensures InOrder(ProbeAll(net, table, wish, restart))
    decreases |table|
  {
    hide InOrder, StartProbe;
    if table == [] {
    } else {
      if Ready(net, table[0]) {
        var forgotten := if restart then WithPcb(net, table[0], PcbOf(net, table[0]).(services := [])) else net;
        PcbKeeps(net, table[0], PcbOf(net, table[0]).(services := []));
        StartProbeKeeps(forgotten, table[0], wish);
        ProbeAllKeeps(StartProbe(forgotten, table[0], wish), table[1..], wish, restart);
      } else {
        ProbeAllKeeps(net, table[1..], wish, restart);
      }
    }
  }

  lemma {:induction false} NothingLive(actions: seq<nat>)
    ensures Live(actions, []) == []
    decreases |actions|
  {
    if actions == [] {
    } else {
      NothingLive(actions[1..]);
    }
  }

  lemma RestartKeeps(net: Net, table: seq<Link>, wish: Wish)
    requires InOrder(net)
    ensures InOrder(RestartAll(net, table, wish))
  {
    NothingLive(net.actions);
    ProbeAllKeeps(net.(queue := []), table, wish, true);
  }

  lemma NewPacketKeeps(net: Net, link: Link, delay: nat)
    requires InOrder(net)
    ensures InOrder(SendAfter(net, net.nextId, link, delay).(nextId := net.nextId + 1))
  {
    hide Prefix;
    SendAfterKeeps(net, net.nextId, link, delay, net.nextId + 1);
  }

  lemma StartProbeKeeps(net: Net, link: Link, wish: Wish)
    requires InOrder(net)
    ensures InOrder(StartProbe(net, link, wish))
  {
    hide InOrder, Probed;
    ClearKeeps(net, link);
    var pcb := PcbOf(net, link);
    var cleared := net.(queue := ClearLink(net.queue, link));
    NewPacketKeeps(cleared, link, FirstDelay(pcb, wish.random));
    var sent := SendAfter(cleared, net.nextId, link, FirstDelay(pcb, wish.random)).(nextId := net.nextId + 1);
    PcbKeeps(cleared, link, pcb.(state := Running, probes := []));
    PcbKeeps(sent, link, PcbOf(StartProbe(net, link, wish), link));
  }

  /** What a run keeps, in terms of the queues alone. */
  ghost predicate Ordered(net: Net) {
    && Sorted(net.queue)
    && (forall i, j :: 0 <= i < j < |net.queue| && net.queue[j].queued ==> net.queue[i].queued)
    && Live(net.actions, net.queue) == QueuedIds(net.queue)
    && (net.actions != [] && InQueue(net.queue, net.actions[0]) ==>
          net.queue[0].id == net.actions[0] && net.queue[0].queued)
  }

  ghost predicate AlwaysOrdered(net: Net, events: seq<Event>)
    decreases |events|
  {
    Ordered(net) && (events != [] ==> AlwaysOrdered(Step(net, events[0]), events[1..]))
  }

  lemma InOrderIsOrdered(net: Net)
    requires InOrder(net)
    ensures Ordered(net)
  {
    hide InQueue, Sorted;
    if net.actions != [] && InQueue(net.queue, net.actions[0]) { ActionFindsHead(net); }
  }

  lemma RefusedOutOfOrder(net: Net, refused: set<nat>)
    requires InOrder(net) && !RefusedLast(net.queue, net.now, refused)
    ensures !Ordered(Step(net, Timer(refused)))
  {
    hide Live, QueuedIds, InQueue;
    MarkedPrefixExact(net.queue, net.now, refused);
    SendPacketsSame(net.queue, net.now, refused);
  }

  lemma {:induction false} RunKeepsOrder(net: Net, events: seq<Event>)
    requires InOrder(net)
    ensures AlwaysOrdered(net, events) <==> AlwaysRefusedLast(net, events)
    decreases |events|
  {
    hide InOrder, Ordered, Step, RefusedLast;
    InOrderIsOrdered(net);
    if events == [] {
    } else {
      var e := events[0];
      StepKeepsOrder(net, e);
      if InOrder(Step(net, e)) {
        RunKeepsOrder(Step(net, e), events[1..]);
      } else {
        RefusedOutOfOrder(net, e.refused);
        assert e == Timer(e.refused);
      }
    }
  }

  /**
   * In an interleaving it holds all the time that the queue is in order of time, that the queued packets are a
   * prefix of it and are the live pending actions in their order, and that the next action, if its packet is
   * still there, takes it from the head: this is so exactly when the action queue never refuses a packet and
   * then accepts a later one.
   */
  lemma TransmitOrder(events: seq<Event>)
    ensures AlwaysOrdered(QUIET, events) <==> AlwaysRefusedLast(QUIET, events)
  {
    RunKeepsOrder(QUIET, events);
  }
}
