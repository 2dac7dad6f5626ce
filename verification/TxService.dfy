/** The transmit queue as the timer task and the service task change it, each under the service lock. */
module TxService {
  import opened TxQueue
  import opened MdnsCommon

  lemma {:induction false} InsertBehind(queue: seq<Packet>, p: Packet, k: nat)
    requires k <= |queue| && (forall i :: 0 <= i < k ==> queue[i].sendAt <= p.sendAt)
    requires k < |queue| ==> queue[k].sendAt > p.sendAt
    ensures Insert(queue, p) == queue[..k] + [p] + queue[k..]
    decreases k
  {
    if k == 0 {
      assert queue[..0] + [p] + queue[0..] == [p] + queue;
    } else {
      InsertBehind(queue[1..], p, k - 1);
      assert queue[..k] == [queue[0]] + queue[1..][..k - 1] && queue[1..][k - 1..] == queue[k..];
    }
  }

  lemma {:induction false} ClearAppend(a: seq<Packet>, b: seq<Packet>, link: Link)
    ensures ClearLink(a + b, link) == ClearLink(a, link) + ClearLink(b, link)
    decreases |a|
  {
    if a == [] {
      assert a + b == b;
    } else {
      ClearAppend(a[1..], b, link);
      assert (a + b)[1..] == a[1..] + b;
    }
  }

  lemma MarkDueStep(queue: seq<Packet>, now: nat, refused: set<nat>)
    requires queue != [] && queue[0].sendAt < now
    ensures var rest := MarkDue(queue[1..], now, refused); var p := queue[0];
            MarkDue(queue, now, refused) ==
            ([p.(queued := p.id !in refused)] + rest.0, (if p.id in refused then [] else [p.id]) + rest.1)
  {
    assert [] + MarkDue(queue[1..], now, refused).1 == MarkDue(queue[1..], now, refused).1;
  }

  lemma NothingDue(queue: seq<Packet>, now: nat, refused: set<nat>)
    requires queue == [] || queue[0].sendAt >= now
    ensures MarkDue(queue, now, refused).0 == queue && MarkDue(queue, now, refused).1 == []
  {
  }

  lemma {:induction false} PassQueued(queue: seq<Packet>, now: nat, refused: set<nat>, k: nat)
    requires k <= |queue| && (forall i :: 0 <= i < k ==> queue[i].queued) && (k < |queue| ==> !queue[k].queued)
    ensures SendPackets(queue, now, refused)
         == (queue[..k] + MarkDue(queue[k..], now, refused).0, MarkDue(queue[k..], now, refused).1)
    decreases k
  {
    if k == 0 {
      assert queue[0..] == queue && queue[..0] + MarkDue(queue, now, refused).0 == MarkDue(queue, now, refused).0;
    } else {
      PassQueued(queue[1..], now, refused, k - 1);
      assert queue[1..][k - 1..] == queue[k..] && queue[..k] == [queue[0]] + queue[1..][..k - 1];
      assert [queue[0]] + (queue[1..][..k - 1] + MarkDue(queue[k..], now, refused).0) ==
          queue[..k] + MarkDue(queue[k..], now, refused).0;
    }
  }

  lemma NewOnesStep(services: seq<nat>, j: nat, known: seq<nat>)
    requires j < |services|
    ensures NewOnes(services[j..], known) ==
            (if services[j] in known then [] else [services[j]]) + NewOnes(services[j + 1..], known)
  {
    assert services[j..][0] == services[j] && services[j..][1..] == services[j + 1..];
  }

  lemma NewOnesEnd(services: seq<nat>, known: seq<nat>)
    ensures NewOnes(services[|services|..], known) == []
  {
  }

  lemma Joined(a: seq<nat>, b: seq<nat>, c: seq<nat>)
    ensures a + (b + c) == (a + b) + c && a + [] == a
  {
  }

  /** s_tx_queue_head, the action queue and the control blocks. */
  class Transmitter {
    var now: nat
    var queue: seq<Packet>
    var actions: seq<nat>
    var nextId: nat
    var pcbs: map<Link, Pcb>

    constructor ()
      ensures State() == QUIET
    {
      now, queue, actions, nextId, pcbs := 0, [], [], 0, map[];
    }

    ghost function State(): Net
      reads this
    {
      Net(now, queue, actions, nextId, pcbs)
    }

    method StateOf(link: Link) returns (pcb: Pcb)
      ensures pcb == PcbOf(State(), link)
    {
      pcb := if link in pcbs then pcbs[link] else OFF;
    }

    /** mdns_priv_send_after */
    method SendAfter(id: nat, link: Link, delay: nat)
      modifies this`queue
      ensures State() == TxQueue.SendAfter(old(State()), id, link, delay)
    {
      var p := Packet(id, link, now + delay, false);
      if queue == [] || queue[0].sendAt > p.sendAt {
        queue := [p] + queue;
        return;
      }
      var q := 1;
      while q < |queue| && queue[q].sendAt <= p.sendAt
        invariant 1 <= q <= |queue| && forall i :: 0 <= i < q ==> queue[i].sendAt <= p.sendAt
      {
        q := q + 1;
      }
      InsertBehind(queue, p, q);
      queue := queue[..q] + [p] + queue[q..];
    }

    /** mdns_priv_clear_tx_queue_if: first at the head, then behind it. */
    method ClearIf(link: Link)
      modifies this`queue
      ensures queue == ClearLink(old(queue), link)
    {
      while queue != [] && queue[0].link == link
        invariant ClearLink(queue, link) == ClearLink(old(queue), link)
        decreases |queue|
      {
        assert [] + ClearLink(queue[1..], link) == ClearLink(queue[1..], link);
        queue := queue[1..];
      }
      if queue == [] { return; }
      ghost var all := queue;
      var q := 1;
      ghost var passed := 1;
      assert all[..1] == [all[0]] && [all[0]][1..] == [];
      while q < |queue|
        invariant 1 <= q <= |queue| && passed <= |all| && |queue| - q == |all| - passed
        invariant queue[..q] == ClearLink(all[..passed], link) && queue[q..] == all[passed..]
        decreases |queue| - q
      {
        assert queue[q] == all[passed] && queue[q..][1..] == queue[q + 1..] && all[passed..][1..] == all[passed + 1..];
        assert all[..passed + 1] == all[..passed] + [queue[q]];
        ClearAppend(all[..passed], [queue[q]], link);
        assert [queue[q]][1..] == [];
        if queue[q].link == link {
          queue := queue[..q] + queue[q + 1..];
        } else {
          q := q + 1;
        }
        passed := passed + 1;
      }
      assert all[..passed] == all && queue[..q] == queue;
    }

    /** mdns_priv_send_packets; `refused` are the packets for whose action there is no room. */
    method SendPackets(refused: set<nat>)
      modifies this`queue, this`actions
      ensures State() == Step(old(State()), Timer(refused))
    {
      var p := 0;
      while p < |queue| && queue[p].queued
        invariant p <= |queue| && forall i :: 0 <= i < p ==> queue[i].queued
      {
        p := p + 1;
      }
      PassQueued(queue, now, refused, p);
      MarkFrom(p, refused);
    }

    /** The second loop. */
    method MarkFrom(start: nat, refused: set<nat>)
      requires start <= |queue|
      modifies this`queue, this`actions
      ensures queue == old(queue[..start]) + MarkDue(old(queue[start..]), now, refused).0
      ensures actions == old(actions) + MarkDue(old(queue[start..]), now, refused).1
    {
      hide MarkDue;
      ghost var marked := queue[..start] + MarkDue(queue[start..], now, refused).0;
      ghost var pending := actions + MarkDue(queue[start..], now, refused).1;
      var p := start;
      while p < |queue| && queue[p].sendAt < now
        invariant p <= |queue|
        invariant queue[..p] + MarkDue(queue[p..], now, refused).0 == marked
        invariant actions + MarkDue(queue[p..], now, refused).1 == pending
        decreases |queue| - p
      {
        var packet := queue[p];
        ghost var rest := queue[p + 1..];
        assert queue[p..][0] == packet && queue[p..][1..] == rest;
        MarkDueStep(queue[p..], now, refused);
        var accepted := packet.id !in refused;
        queue := queue[p := packet.(queued := accepted)];
        if accepted {
          actions := actions + [packet.id];
        }
        p := p + 1;
        assert queue[p..] == rest;
      }
      NothingDue(queue[p..], now, refused);
      assert queue[..p] + queue[p..] == queue && actions + [] == actions;
    }

    /** send_packet, for the action at the front of the action queue. */
    method SendPacket()
      modifies this
      ensures State() == Act(old(State()))
    {
      if actions == [] { return; }
      var packet := actions[0];
      actions := actions[1..];
      if queue != [] && queue[0].id == packet && queue[0].queued {
        var p := queue[0].(queued := false);
        queue := queue[1..];
        HandlePacket(p);
      }
    }

    /** handle_packet and mdns_priv_pcb_schedule_tx_packet */
    method HandlePacket(p: Packet)
      modifies this
      ensures State() == Handle(old(State()), p)
    {
      var pcb := StateOf(p.link);
      if pcb.state.Off? { return; }
      if pcb.state.Probe1? || pcb.state.Probe2? || pcb.state.Probe3? {
        pcb := pcb.(probes := pcb.probes + [now]);
      } else if pcb.state.Announce1? || pcb.state.Announce2? || pcb.state.Announce3? {
        pcb := pcb.(announced := pcb.announced + [now]);
      }
      match pcb.state
      case Probe1 =>
        SendAfter(p.id, p.link, 250);
        pcbs := pcbs[p.link := pcb.(state := Probe2)];
      case Probe2 =>
        SendAfter(p.id, p.link, 250);
        pcbs := pcbs[p.link := pcb.(state := Probe3)];
      case Probe3 =>
        SendAfter(nextId, p.link, 250);
        nextId := nextId + 1;
        pcbs := pcbs[p.link := pcb.(state := Announce1, announced := [], services := [], probeIp := false,
            failed := 0)];
      case Announce1 =>
        SendAfter(p.id, p.link, 1000);
        pcbs := pcbs[p.link := pcb.(state := Announce2)];
      case Announce2 =>
        SendAfter(p.id, p.link, 1000);
        pcbs := pcbs[p.link := pcb.(state := Announce3)];
      case Announce3 =>
        pcbs := pcbs[p.link := pcb.(state := Running)];
      case _ =>
    }

    /** The services that a control block does not probe for yet. */
    method NewServices(services: seq<nat>, known: seq<nat>) returns (added: seq<nat>)
      ensures added == NewOnes(services, known)
    {
      hide NewOnes;
      added := [];
      assert services[0..] == services && [] + NewOnes(services, known) == NewOnes(services, known);
      for j := 0 to |services|
        invariant added + NewOnes(services[j..], known) == NewOnes(services, known)
      {
        var found := false;
        for i := 0 to |known|
          invariant found <==> services[j] in known[..i]
        {
          if known[i] == services[j] {
            found := true;
            break;
          }
        }
        assert found <==> services[j] in known by { assert known[..|known|] == known; }
        NewOnesStep(services, j, known);
        Joined(added, if found then [] else [services[j]], NewOnes(services[j + 1..], known));
        if !found {
          added := added + [services[j]];
        }
      }
      NewOnesEnd(services, known);
    }

    /** mdns_priv_init_pcb_probe with init_probe_new_service */
    method InitPcbProbe(link: Link, wish: Wish)
      modifies this
      ensures State() == StartProbe(old(State()), link, wish)
    {
      hide NewOnes;
      ClearIf(link);
      var pcb := StateOf(link);
      if !wish.named {
        pcbs := pcbs[link := pcb.(state := Running, probes := [])];
        return;
      }
      var services := wish.services;
      if IsProbing(pcb.state) {
        services := NewServices(wish.services, pcb.services);
        services := services + pcb.services;
      }
      var delay := (if pcb.failed > 5 then 1000 else 120) + wish.random % 128;
      SendAfter(nextId, link, delay);
      nextId := nextId + 1;
      services := services[..|services| % 256];
      pcb := pcb.(probes := [], services := services, probeIp := pcb.probeIp || wish.probeIp);
      pcbs := pcbs[link := pcb.(state := Probe1)];
    }

    /** mdns_priv_restart_all_pcbs with mdns_priv_clear_tx_queue and mdns_priv_probe_all_pcbs. */
    method RestartAllPcbs(table: seq<Link>, wish: Wish)
      modifies this
      ensures State() == RestartAll(old(State()), table, wish)
    {
      hide StartProbe;
      while queue != []
        invariant State().(queue := []) == old(State()).(queue := [])
        decreases |queue|
      {
        queue := queue[1..];
      }
      ghost var all := RestartAll(old(State()), table, wish);
      assert table[0..] == table;
      for i := 0 to |table|
        invariant ProbeAll(State(), table[i..], wish, true) == all
      {
        var pcb := StateOf(table[i]);
        assert table[i..][1..] == table[i + 1..];
        if !pcb.state.Off? && !pcb.state.Dup? {
          pcbs := pcbs[table[i] := pcb.(services := [])];
          InitPcbProbe(table[i], wish);
        }
      }
    }
  }
}
