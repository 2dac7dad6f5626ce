/** Announcing, as section 8.3 of RFC 6762 wants it: more than once, at least a second apart. */
module TxAnnounce {
  import opened TxQueue
  import opened TxProofs
  import opened TxProbes
  import opened MdnsCommon

  /** How many announcements have gone out in a state. */
  function Told(s: PcbState): nat {
    match s
    case Announce2 => 1
    case Announce3 => 2
    case _ => 0
  }

  // ----- always three -----

  ghost predicate Counted(net: Net) {
    forall link :: IsAnnouncing(PcbOf(net, link).state) ==> |PcbOf(net, link).announced| == Told(PcbOf(net, link).state)
  }

  lemma StartProbeCounted(net: Net, link: Link, wish: Wish)
    requires Counted(net)
    ensures Counted(StartProbe(net, link, wish))
  {
    hide ClearLink, Insert, Probed, FirstDelay;
    var net' := StartProbe(net, link, wish);
    forall other | IsAnnouncing(PcbOf(net', other).state)
      ensures |PcbOf(net', other).announced| == Told(PcbOf(net', other).state)
    {
      assert other != link && PcbOf(net', other) == PcbOf(net, other);
    }
  }

  lemma {:induction false} ProbeAllCounted(net: Net, table: seq<Link>, wish: Wish, restart: bool)
    requires Counted(net)
    ensures Counted(ProbeAll(net, table, wish, restart))
    decreases |table|
  {
    hide StartProbe;
    if table == [] {
    } else {
      if Ready(net, table[0]) {
        var forgotten := if restart then WithPcb(net, table[0], PcbOf(net, table[0]).(services := [])) else net;
        assert Counted(forgotten) by { SamePcbsCounted(net, forgotten); }
        StartProbeCounted(forgotten, table[0], wish);
        ProbeAllCounted(StartProbe(forgotten, table[0], wish), table[1..], wish, restart);
      } else {
        ProbeAllCounted(net, table[1..], wish, restart);
      }
    }
  }

  /** What has been announced stays, or the control block has left that state. */
  ghost predicate SameCounts(net: Net, net': Net) {
    forall link :: IsAnnouncing(PcbOf(net', link).state) ==>
      PcbOf(net', link).state == PcbOf(net, link).state && PcbOf(net', link).announced == PcbOf(net, link).announced
  }

  lemma SamePcbsCounted(net: Net, net': Net)
    requires Counted(net) && SameCounts(net, net')
    ensures Counted(net')
  {
  }

  lemma HandleCounted(net: Net, p: Packet)
    requires Counted(net)
    ensures Counted(Handle(net, p))
  {
    hide Insert;
    var net' := Handle(net, p);
    forall link | IsAnnouncing(PcbOf(net', link).state)
      ensures |PcbOf(net', link).announced| == Told(PcbOf(net', link).state)
    {
      assert link != p.link ==> PcbOf(net', link) == PcbOf(net, link);
    }
  }

  lemma StepCounted(net: Net, e: Event)
    requires Counted(net)
    ensures Counted(Step(net, e))
  {
    hide SendPackets, Insert, ClearLink, Kept, NotEmpty, StartProbe, ProbeAll, Handle, Counted;
    match e
    case Action =>
      SamePcbsCounted(net, net.(actions := if net.actions == [] then [] else net.actions[1..]));
      if net.queue != [] && net.actions != [] {
        var popped := net.(actions := net.actions[1..], queue := net.queue[1..]);
        SamePcbsCounted(net, popped);
        HandleCounted(popped, net.queue[0].(queued := false));
      }
    case BeginProbe(link, wish) => StartProbeCounted(net, link, wish);
    case BeginAnnounce(link, wish) => AnnounceCounted(net, link, wish);
    case Restart(table, wish) =>
      if InTable(net, table) {
        SamePcbsCounted(net, net.(queue := []));
        ProbeAllCounted(net.(queue := []), table, wish, true);
      }
    case Remove(service, cleared, emptied) =>
      forall link ensures Forgotten(PcbOf(net, link), PcbOf(Step(net, e), link)) {
        ForgetsAnnounced(net, service, cleared, link);
      }
      SamePcbsCounted(net, Step(net, e));
    case _ => SamePcbsCounted(net, Step(net, e));
  }

  predicate Forgotten(pcb: Pcb, pcb': Pcb) {
    pcb'.announced == pcb.announced && (pcb'.state == pcb.state || pcb'.state == Running)
  }

  lemma ForgetsAnnounced(net: Net, service: nat, cleared: set<Link>, link: Link)
    ensures Forgotten(PcbOf(net, link), PcbOf(Forget(net, service, cleared), link))
    ensures IsAnnouncing(PcbOf(Forget(net, service, cleared), link).state) && HasPacket(net.queue, link) ==>
              link !in cleared
  {
  }

  lemma AnnounceCounted(net: Net, link: Link, wish: Wish)
    requires Counted(net)
    ensures Counted(Announce(net, link, wish))
  {
    hide StartProbe, Insert, HasPacket;
    StartProbeCounted(net, link, wish);
    var net' := Announce(net, link, wish);
    if !IsProbing(PcbOf(net, link).state) {
      forall other | IsAnnouncing(PcbOf(net', other).state)
        ensures |PcbOf(net', other).announced| == Told(PcbOf(net', other).state)
      {
        assert other != link ==> PcbOf(net', other) == PcbOf(net, other);
      }
    }
  }

  lemma {:induction false} RunCounted(net: Net, events: seq<Event>)
    requires Counted(net)
    ensures Counted(Run(net, events))
    decreases |events|
  {
    hide Counted, Step;
    if events == [] {
    } else {
      StepCounted(net, events[0]);
      RunCounted(Step(net, events[0]), events[1..]);
    }
  }

  /**
   * Whenever the handling of a packet takes a control block from announcing to running, three packets of it have
   * gone out since it last began to announce, the third of them now.
   */
  lemma ThreeAnnouncements(events: seq<Event>, link: Link)
    requires IsAnnouncing(PcbOf(Run(QUIET, events), link).state)
    requires PcbOf(Step(Run(QUIET, events), Action), link).state.Running?
    ensures var net := Run(QUIET, events); var announced := PcbOf(Step(net, Action), link).announced;
            |announced| == 3 && announced[2] == net.now
  {
    hide Run, Insert;
    var net := Run(QUIET, events);
    RunCounted(QUIET, events);
    assert |PcbOf(net, link).announced| == Told(PcbOf(net, link).state);
  }

  // ----- spaced, where nothing disturbs them -----

  ghost predicate SecondsApart(times: seq<nat>) {
    forall i :: 0 < i < |times| ==> times[i - 1] + 1000 < times[i]
  }

  /** The time before which the next announcement cannot go out. */
  function Earliest(pcb: Pcb): nat {
    if pcb.announced != [] then pcb.announced[|pcb.announced| - 1] + 1000
    else if pcb.probes != [] then pcb.probes[|pcb.probes| - 1] + 250
    else 0
  }

  /** One packet while announcing, none after that, and all that went out went out in time. */
  ghost predicate AnnounceOk(net: Net, link: Link, probes: seq<nat>) {
    var pcb, packets := PcbOf(net, link), Of(net.queue, link);
    && pcb.probes == probes && SecondsApart(pcb.announced)
    && (pcb.announced != [] && probes != [] ==> probes[|probes| - 1] + 250 < pcb.announced[0])
    && (IsAnnouncing(pcb.state) || pcb.state.Running?)
    && (IsAnnouncing(pcb.state) ==>
        |pcb.announced| == Told(pcb.state) && |packets| == 1 && Earliest(pcb) <= packets[0].sendAt)
    && (pcb.state.Running? ==> |pcb.announced| == 3 && packets == [])
  }

  /** Nothing is queued for the interface, taken from it, or begun on it. */
  ghost predicate Undisturbed(net: Net, e: Event, link: Link) {
    match e
    case DelayedAnswer(other, _) => other != link
    case BeginProbe(other, _) => other != link
    case BeginAnnounce(other, _) => other != link
    case Restart(_, _) => false
    case Disable(other) => other != link
    case Duplicate(other) => other != link
    case Remove(_, cleared, emptied) =>
      link !in cleared && forall i :: 0 <= i < |net.queue| && net.queue[i].link == link ==> net.queue[i].id !in emptied
    case _ => true
  }

  ghost predicate AllUndisturbed(net: Net, events: seq<Event>, link: Link)
    decreases |events|
  {
    events == [] || (Undisturbed(net, events[0], link) && AllUndisturbed(Step(net, events[0]), events[1..], link))
  }

  /** A step that leaves the packets and the control block of the link alone. */
  lemma LeftAlone(net: Net, net': Net, link: Link, probes: seq<nat>)
    requires AnnounceOk(net, link, probes) && SamePackets(Of(net.queue, link), Of(net'.queue, link))
    requires var pcb, pcb' := PcbOf(net, link), PcbOf(net', link);
             pcb'.state == pcb.state && pcb'.probes == pcb.probes && pcb'.announced == pcb.announced
    ensures AnnounceOk(net', link, probes)
  {
  }

  lemma OtherStarts(net: Net, other: Link, wish: Wish, link: Link)
    requires other != link
    ensures Of(StartProbe(net, other, wish).queue, link) == Of(net.queue, link)
    ensures PcbOf(StartProbe(net, other, wish), link) == PcbOf(net, link)
  {
    hide ClearLink, Insert, Of, Probed, FirstDelay;
    OfClear(net.queue, other, link);
    OfInsert(ClearLink(net.queue, other),
             Packet(net.nextId, other, net.now + FirstDelay(PcbOf(net, other), wish.random), false), link);
  }

  lemma OtherAnnounces(net: Net, other: Link, wish: Wish, link: Link)
    requires other != link
    ensures Of(Announce(net, other, wish).queue, link) == Of(net.queue, link)
    ensures PcbOf(Announce(net, other, wish), link) == PcbOf(net, link)
  {
    hide StartProbe, Insert, Of, HasPacket;
    OtherStarts(net, other, wish, link);
    OfInsert(net.queue, Packet(net.nextId, other, net.now + 0, false), link);
  }

  lemma OtherHandled(net: Net, p: Packet, link: Link)
    requires p.link != link
    ensures Of(Handle(net, p).queue, link) == Of(net.queue, link)
    ensures PcbOf(Handle(net, p), link) == PcbOf(net, link)
  {
    hide Insert, Of;
    OfInsert(net.queue, Packet(p.id, p.link, net.now + 250, false), link);
    OfInsert(net.queue, Packet(p.id, p.link, net.now + 1000, false), link);
    OfInsert(net.queue, Packet(net.nextId, p.link, net.now + 250, false), link);
  }

  lemma OneMoreSecond(times: seq<nat>, now: nat)
    requires SecondsApart(times) && (times != [] ==> times[|times| - 1] + 1000 < now)
    ensures SecondsApart(times + [now])
  {
  }

  /** An announcement goes out, now that it is due. */
  lemma AnnouncementHandled(net: Net, p: Packet, probes: seq<nat>)
    requires p.sendAt < net.now && IsAnnouncing(PcbOf(net, p.link).state)
    requires AnnounceOk(net.(queue := [p] + net.queue), p.link, probes)
    ensures AnnounceOk(Handle(net, p), p.link, probes)
  {
    hide Insert, SecondsApart, Of;
    var pcb := PcbOf(net, p.link);
    assert Of([p] + net.queue, p.link) == [p] + Of(net.queue, p.link) by { OfHead(p, net.queue); }
    assert Of(net.queue, p.link) == [];
    OfInsert(net.queue, Packet(p.id, p.link, net.now + 1000, false), p.link);
    OneMoreSecond(pcb.announced, net.now);
  }

  lemma OfHead(p: Packet, queue: seq<Packet>)
    ensures Of([p] + queue, p.link) == [p] + Of(queue, p.link)
    ensures forall link :: link != p.link ==> Of([p] + queue, link) == Of(queue, link)
  {
    assert ([p] + queue)[1..] == queue;
    forall link | link != p.link ensures Of([p] + queue, link) == Of(queue, link) {
      assert [] + Of(queue, link) == Of(queue, link);
    }
  }

  lemma ActAnnounces(net: Net, link: Link, probes: seq<nat>)
    requires Overdue(net.queue, net.now) && AnnounceOk(net, link, probes)
    ensures AnnounceOk(Act(net), link, probes)
  {
    hide AnnounceOk, Handle, Of;
    if net.actions != [] {
      var rest := net.(actions := net.actions[1..]);
      assert AnnounceOk(rest, link, probes) by { LeftAloneItself(net, rest, link, probes); }
      if net.queue != [] && net.queue[0].id == net.actions[0] && net.queue[0].queued {
        var p := net.queue[0].(queued := false);
        var popped := rest.(queue := net.queue[1..]);
        OfHead(p, popped.queue);
        OfHead(net.queue[0], popped.queue);
        assert net.queue == [net.queue[0]] + popped.queue;
        if p.link != link {
          OtherHandled(popped, p, link);
          LeftAloneItself(net, Handle(popped, p), link, probes);
        } else {
          Unmarked(net, popped, p, probes);
          AnnouncementHandled(popped, p, probes);
        }
      }
    }
  }

  lemma LeftAloneItself(net: Net, net': Net, link: Link, probes: seq<nat>)
    requires AnnounceOk(net, link, probes) && Of(net.queue, link) == Of(net'.queue, link)
    requires PcbOf(net', link) == PcbOf(net, link)
    ensures AnnounceOk(net', link, probes)
  {
    LeftAlone(net, net', link, probes);
  }

  lemma Unmarked(net: Net, popped: Net, p: Packet, probes: seq<nat>)
    requires net.queue != [] && p == net.queue[0].(queued := false) && AnnounceOk(net, p.link, probes)
    requires popped == net.(actions := popped.actions, queue := net.queue[1..])
    ensures AnnounceOk(popped.(queue := [p] + popped.queue), p.link, probes)
    ensures IsAnnouncing(PcbOf(popped, p.link).state)
  {
    OfHead(p, popped.queue);
    OfHead(net.queue[0], popped.queue);
    assert net.queue == [net.queue[0]] + popped.queue;
  }

  lemma UndisturbedStep(net: Net, e: Event, link: Link, probes: seq<nat>)
    requires Overdue(net.queue, net.now) && AnnounceOk(net, link, probes) && Undisturbed(net, e, link)
    ensures AnnounceOk(Step(net, e), link, probes)
  {
    hide AnnounceOk, SendPackets, Insert, ClearLink, Kept, NotEmpty, StartProbe, Act, Of, Announce, Forget;
    match e
    case Tick(ms) => LeftAloneItself(net, Step(net, e), link, probes);
    case Timer(refused) =>
      SendPacketsSame(net.queue, net.now, refused);
      OfSame(net.queue, Step(net, e).queue, link);
      LeftAlone(net, Step(net, e), link, probes);
    case Action => ActAnnounces(net, link, probes);
    case DelayedAnswer(other, delay) =>
      OfInsert(net.queue, Packet(net.nextId, other, net.now + delay, false), link);
      LeftAloneItself(net, Step(net, e), link, probes);
    case BeginProbe(other, wish) =>
      OtherStarts(net, other, wish, link);
      LeftAloneItself(net, Step(net, e), link, probes);
    case BeginAnnounce(other, wish) =>
      OtherAnnounces(net, other, wish, link);
      LeftAloneItself(net, Step(net, e), link, probes);
    case ProbeFailed(other) =>
      OfSame(net.queue, net.queue, link);
      LeftAlone(net, Step(net, e), link, probes);
    case Disable(other) =>
      OfClear(net.queue, other, link);
      LeftAloneItself(net, Step(net, e), link, probes);
    case Duplicate(other) =>
      OfClear(net.queue, other, link);
      LeftAloneItself(net, Step(net, e), link, probes);
    case Remove(service, cleared, emptied) => RemoveAnnounces(net, service, cleared, emptied, link, probes);
  }

  lemma RemoveAnnounces(net: Net, service: nat, cleared: set<Link>, emptied: set<nat>, link: Link, probes: seq<nat>)
    requires AnnounceOk(net, link, probes) && Undisturbed(net, Remove(service, cleared, emptied), link)
    ensures AnnounceOk(RemoveService(net, service, cleared, emptied), link, probes)
  {
    hide AnnounceOk, Of, Kept;
    var net' := RemoveService(net, service, cleared, emptied);
    OfKept(net.queue, NotEmpty(Forget(net, service, cleared), emptied), link);
    assert IsAnnouncing(PcbOf(net, link).state) || PcbOf(net, link).state.Running? by { StateOk(net, link, probes); }
    LeftAloneItself(net, net', link, probes);
  }

  lemma StateOk(net: Net, link: Link, probes: seq<nat>)
    requires AnnounceOk(net, link, probes)
    ensures IsAnnouncing(PcbOf(net, link).state) || PcbOf(net, link).state.Running?
  {
  }

  lemma {:induction false} RunAnnounces(net: Net, events: seq<Event>, link: Link, probes: seq<nat>)
    requires Probing(net) && AnnounceOk(net, link, probes) && AllUndisturbed(net, events, link)
    ensures AnnounceOk(Run(net, events), link, probes)
    decreases |events|
  {
    hide AnnounceOk, Step, Undisturbed, Overdue, ProbeOk;
    if events == [] {
    } else {
      UndisturbedStep(net, events[0], link, probes);
      StepProbing(net, events[0]);
      RunAnnounces(Step(net, events[0]), events[1..], link, probes);
    }
  }

  /** The third probe leaves one announcement in the queue, a quarter of a second away. */
  lemma AnnouncingBegins(net: Net, link: Link)
    requires Probing(net) && InProbe(PcbOf(net, link).state) && PcbOf(Step(net, Action), link).state == Announce1
    ensures AnnounceOk(Step(net, Action), link, PcbOf(Step(net, Action), link).probes)
  {
    hide Insert, Of, Spaced, Overdue;
    assert ProbeOk(net, link);
    var p, rest := net.queue[0], net.queue[1..];
    assert p.link == link;
    OfHead(p, rest);
    assert net.queue == [p] + rest;
    assert Of(rest, link) == [];
    OfInsert(rest, Packet(net.nextId, link, net.now + 250, false), link);
    NoneYet();
  }

  lemma NoneYet()
    ensures SecondsApart([])
  {
  }

  /**
   * After its probes, and while nothing disturbs the interface, a control block sends three announcements, the first
   * more than 250 ms after the last probe and each of the others more than a second after the one before; until the
   * third there is always one in the queue, and then it is running.
   */
  lemma SpacedAnnouncements(before: seq<Event>, events: seq<Event>, link: Link)
    requires InProbe(PcbOf(Run(QUIET, before), link).state)
    requires PcbOf(Step(Run(QUIET, before), Action), link).state == Announce1
    requires AllUndisturbed(Step(Run(QUIET, before), Action), events, link)
    ensures var net := Run(Step(Run(QUIET, before), Action), events);
            var pcb, packets, probe := PcbOf(net, link), Of(net.queue, link), Run(QUIET, before).now;
            && (forall i :: 0 < i < |pcb.announced| ==> pcb.announced[i - 1] + 1000 < pcb.announced[i])
            && (pcb.announced != [] ==> probe + 250 < pcb.announced[0])
            && (|pcb.announced| < 3 ==> IsAnnouncing(pcb.state) && |packets| == 1)
            && (|pcb.announced| >= 3 ==> |pcb.announced| == 3 && pcb.state.Running? && packets == [])
  {
    hide Run, Step, Probing, AllUndisturbed, InProbe;
    var start := Run(QUIET, before);
    StartsQuiet();
    RunProbing(QUIET, before);
    ThreeSpacedProbes(before, Action, link);
    AnnouncingBegins(start, link);
    StepProbing(start, Action);
    RunAnnounces(Step(start, Action), events, link, PcbOf(Step(start, Action), link).probes);
  }

  // ----- an announcement is always waiting -----

  ghost predicate Waits(net: Net, link: Link) {
    IsAnnouncing(PcbOf(net, link).state) ==> HasPacket(net.queue, link)
  }

  ghost predicate AllWait(net: Net) {
    forall link :: Waits(net, link)
  }

  /** Packets of an announcing control block have answers, so one that is emptied has lost them. */
  ghost predicate LosesAnswers(net: Net, e: Event) {
    e.Remove? ==>
      forall i :: 0 <= i < |net.queue| ==>
        (net.queue[i].id in e.emptied && IsAnnouncing(PcbOf(net, net.queue[i].link).state) ==>
         net.queue[i].link in e.cleared)
  }

  ghost predicate AllLoseAnswers(net: Net, events: seq<Event>)
    decreases |events|
  {
    events == [] || (LosesAnswers(net, events[0]) && AllLoseAnswers(Step(net, events[0]), events[1..]))
  }

  lemma {:induction false} OfSome(queue: seq<Packet>, link: Link)
    ensures Of(queue, link) != [] <==> HasPacket(queue, link)
    decreases |queue|
  {
    if queue == [] {
    } else {
      OfSome(queue[1..], link);
      if HasPacket(queue[1..], link) {
        var i :| 0 <= i < |queue[1..]| && queue[1..][i].link == link;
        assert queue[i + 1].link == link;
      }
      if HasPacket(queue, link) && queue[0].link != link {
        var i :| 0 <= i < |queue| && queue[i].link == link;
        assert queue[1..][i - 1].link == link;
      }
    }
  }

  lemma HasInserted(queue: seq<Packet>, p: Packet, link: Link)
    ensures HasPacket(Insert(queue, p), link) <==> HasPacket(queue, link) || p.link == link
  {
    var k := InsertSplit(queue, p);
    var q := Insert(queue, p);
    assert forall i :: 0 <= i < |q| ==> q[i] == if i < k then queue[i] else if i == k then p else queue[i - 1];
    assert q[k] == p;
    forall i | 0 <= i < |queue| ensures queue[i] == q[if i < k then i else i + 1] { }
  }

  lemma HasCleared(queue: seq<Packet>, gone: Link, link: Link)
    ensures HasPacket(ClearLink(queue, gone), link) <==> HasPacket(queue, link) && link != gone
  {
    OfClear(queue, gone, link);
    OfSome(queue, link);
    OfSome(ClearLink(queue, gone), link);
  }

  lemma SamePacketsHas(a: seq<Packet>, b: seq<Packet>, link: Link)
    requires SamePackets(a, b)
    ensures HasPacket(a, link) == HasPacket(b, link)
  {
    forall i | 0 <= i < |a| ensures a[i].link == b[i].link { }
    if HasPacket(a, link) {
      var i :| 0 <= i < |a| && a[i].link == link;
      assert b[i].link == link;
    }
  }

  lemma StartWaits(net: Net, link: Link, wish: Wish, other: Link)
    requires other == link || Waits(net, other)
    ensures Waits(StartProbe(net, link, wish), other)
  {
    hide ClearLink, Insert, Probed, FirstDelay, HasPacket;
    HasCleared(net.queue, link, other);
    HasInserted(ClearLink(net.queue, link),
                Packet(net.nextId, link, net.now + FirstDelay(PcbOf(net, link), wish.random), false), other);
  }

  lemma {:induction false} ProbeAllWaits(net: Net, table: seq<Link>, wish: Wish, restart: bool, link: Link)
    requires Waits(net, link) || link in table
    ensures Waits(ProbeAll(net, table, wish, restart), link)
    decreases |table|
  {
    hide StartProbe;
    if table == [] {
    } else {
      if Ready(net, table[0]) {
        var forgotten := if restart then WithPcb(net, table[0], PcbOf(net, table[0]).(services := [])) else net;
        if Waits(net, link) || link == table[0] { StartWaits(forgotten, table[0], wish, link); }
        ProbeAllWaits(StartProbe(forgotten, table[0], wish), table[1..], wish, restart, link);
      } else {
        ProbeAllWaits(net, table[1..], wish, restart, link);
      }
    }
  }

  lemma HandleWaits(net: Net, p: Packet, link: Link)
    requires Waits(net.(queue := [p] + net.queue), link)
    ensures Waits(Handle(net, p), link)
  {
    hide Insert, HasPacket;
    assert link != p.link ==> HasPacket([p] + net.queue, link) == HasPacket(net.queue, link) by {
      OfHead(p, net.queue);
      OfSome([p] + net.queue, link);
      OfSome(net.queue, link);
    }
    HasInserted(net.queue, Packet(p.id, p.link, net.now + 250, false), link);
    HasInserted(net.queue, Packet(p.id, p.link, net.now + 1000, false), link);
    HasInserted(net.queue, Packet(net.nextId, p.link, net.now + 250, false), link);
  }

  lemma ActWaits(net: Net, link: Link)
    requires Waits(net, link)
    ensures Waits(Act(net), link)
  {
    hide Handle, HasPacket;
    if net.actions != [] && net.queue != [] && net.queue[0].id == net.actions[0] && net.queue[0].queued {
      var p := net.queue[0].(queued := false);
      var popped := net.(actions := net.actions[1..], queue := net.queue[1..]);
      assert net.queue == [net.queue[0]] + popped.queue;
      SamePacketsHas(net.queue, [p] + popped.queue, link);
      HandleWaits(popped, p, link);
    }
  }

  lemma RemoveWaits(net: Net, service: nat, cleared: set<Link>, emptied: set<nat>, link: Link)
    requires Waits(net, link) && LosesAnswers(net, Remove(service, cleared, emptied))
    ensures Waits(RemoveService(net, service, cleared, emptied), link)
  {
    hide Kept, Of, Forget;
    var net' := RemoveService(net, service, cleared, emptied);
    ForgetsAnnounced(net, service, cleared, link);
    ForgetQueue(net, service, cleared);
    if IsAnnouncing(PcbOf(net', link).state) {
      assert IsAnnouncing(PcbOf(net, link).state) && link !in cleared;
      forall i | 0 <= i < |net.queue| && net.queue[i].link == link
        ensures net.queue[i].id in NotEmpty(Forget(net, service, cleared), emptied)
      {
        assert net.queue[i].id !in emptied;
      }
      OfKept(net.queue, NotEmpty(Forget(net, service, cleared), emptied), link);
      OfSome(net.queue, link);
      OfSome(net'.queue, link);
    }
  }

  lemma StepWaits(net: Net, e: Event, link: Link)
    requires AllWait(net) && LosesAnswers(net, e)
    ensures Waits(Step(net, e), link)
  {
    hide SendPackets, Insert, ClearLink, RemoveService, StartProbe, ProbeAll, Act, HasPacket;
    assert Waits(net, link);
    match e
    case Timer(refused) =>
      SendPacketsSame(net.queue, net.now, refused);
      SamePacketsHas(net.queue, Step(net, e).queue, link);
    case Action => ActWaits(net, link);
    case DelayedAnswer(other, delay) =>
      HasInserted(net.queue, Packet(net.nextId, other, net.now + delay, false), link);
    case BeginProbe(other, wish) => StartWaits(net, other, wish, link);
    case BeginAnnounce(other, wish) =>
      StartWaits(net, other, wish, link);
      HasInserted(net.queue, Packet(net.nextId, other, net.now + 0, false), link);
    case Restart(table, wish) =>
      if InTable(net, table) {
        var cleared := net.(queue := []);
        assert Waits(cleared, link) || link in table by { InTableOrOff(net, table, link); }
        ProbeAllWaits(cleared, table, wish, true, link);
      }
    case Disable(other) => HasCleared(net.queue, other, link);
    case Duplicate(other) => HasCleared(net.queue, other, link);
    case Remove(service, cleared, emptied) => RemoveWaits(net, service, cleared, emptied, link);
    case _ =>
  }

  lemma InTableOrOff(net: Net, table: seq<Link>, link: Link)
    requires InTable(net, table)
    ensures !IsAnnouncing(PcbOf(net, link).state) || link in table
  {
  }

  lemma {:induction false} RunWaits(net: Net, events: seq<Event>)
    requires AllWait(net) && AllLoseAnswers(net, events)
    ensures AllWait(Run(net, events))
    decreases |events|
  {
    hide Waits, Step, LosesAnswers;
    if events == [] {
    } else {
      forall link ensures Waits(Step(net, events[0]), link) { StepWaits(net, events[0], link); }
      RunWaits(Step(net, events[0]), events[1..]);
    }
  }

  /** In every run an announcing control block has a packet in the queue, as long as removals take answers with them. */
  lemma AnnouncementsWait(events: seq<Event>, link: Link)
    requires AllLoseAnswers(QUIET, events) && IsAnnouncing(PcbOf(Run(QUIET, events), link).state)
    ensures exists i :: 0 <= i < |Run(QUIET, events).queue| && Run(QUIET, events).queue[i].link == link
  {
    hide Run;
    RunWaits(QUIET, events);
    assert Waits(Run(QUIET, events), link);
  }

  // ----- the first probe -----

  /** The first probe of an interface waits 120 to 247 ms, and about a second after more than five failures. */
  lemma FirstProbeWaits(net: Net, link: Link, wish: Wish)
    requires wish.named
    ensures var net' := StartProbe(net, link, wish);
            && PcbOf(net', link).state == Probe1 && |Of(net'.queue, link)| == 1
            && var wait := Of(net'.queue, link)[0].sendAt - net.now;
               if PcbOf(net, link).failed > 5 then 1000 <= wait < 1128 else 120 <= wait < 248
  {
    hide Insert, ClearLink, Of, Probed;
    OfClear(net.queue, link, link);
    OfInsert(ClearLink(net.queue, link),
             Packet(net.nextId, link, net.now + FirstDelay(PcbOf(net, link), wish.random), false), link);
  }

  // ----- beginning again, and less to announce -----

  /** A running interface begins to announce at once, and an announcing one from the start. */
  lemma AnnounceBegins(net: Net, link: Link, wish: Wish)
    requires PcbOf(net, link).state.Running? || IsAnnouncing(PcbOf(net, link).state)
    ensures var net', pcb, pcb' := Announce(net, link, wish), PcbOf(net, link), PcbOf(Announce(net, link, wish), link);
            if pcb.state.Running? && wish.named then
              && pcb'.state == Announce1 && pcb'.announced == []
              && exists i :: 0 <= i < |net'.queue| && net'.queue[i].link == link && net'.queue[i].sendAt == net.now
            else if IsAnnouncing(pcb.state) && HasPacket(net.queue, link) then
              pcb'.state == Announce1 && pcb'.announced == [] && net'.queue == net.queue
            else net' == net
  {
    hide Insert, HasPacket;
    var p := Packet(net.nextId, link, net.now + 0, false);
    var k := InsertSplit(net.queue, p);
    assert Insert(net.queue, p)[k] == p;
  }

  lemma {:induction false} WithoutOne(services: seq<nat>, service: nat)
    requires NoDuplicates(services)
    ensures var rest := WithoutFirst(services, service);
            && NoDuplicates(rest) && (forall s :: s in rest <==> s in services && s != service)
            && |rest| == |services| - if service in services then 1 else 0
    decreases |services|
  {
    if services == [] {
    } else {
      var tail := WithoutFirst(services[1..], service);
      assert services == [services[0]] + services[1..];
      WithoutOne(services[1..], service);
      if services[0] != service {
        forall i | 0 <= i < |tail| ensures tail[i] != services[0] { assert tail[i] in services[1..]; }
      }
    }
  }

  /**
   * A service that goes is not probed for any more, and with the last of them, unless an address is probed for too,
   * the probing is over; an announcement that loses its answers is over as well.
   */
  lemma ServiceForgotten(net: Net, service: nat, cleared: set<Link>, link: Link)
    requires HasPacket(net.queue, link) && NoDuplicates(PcbOf(net, link).services)
    ensures var pcb, pcb' := PcbOf(net, link), PcbOf(Forget(net, service, cleared), link);
            if IsProbing(pcb.state) then
              && (forall s :: s in pcb'.services <==> s in pcb.services && s != service)
              && (pcb'.state == if service in pcb.services && |pcb.services| == 1 && !pcb.probeIp then Running
                                else pcb.state)
            else pcb'.state == if IsAnnouncing(pcb.state) && link in cleared then Running else pcb.state
  {
    hide NoDuplicates, HasPacket;
    WithoutOne(PcbOf(net, link).services, service);
  }

  /** A restart forgets what was probed for: every interface that is ready then probes for exactly what is wished. */
  lemma {:induction false} RestartProbesFor(net: Net, table: seq<Link>, wish: Wish, link: Link)
    requires wish.named && NoDuplicates(wish.services) && |wish.services| < 256
    requires (link in table && Ready(net, link)) || (PcbOf(net, link).state == Probe1 && ProbesFor(net, link, wish))
    ensures var net' := ProbeAll(net, table, wish, true);
            PcbOf(net', link).state == Probe1 && ProbesFor(net', link, wish)
    decreases |table|
  {
    hide StartProbe, ProbesFor, NoDuplicates;
    if table == [] {
    } else {
      var forgotten := WithPcb(net, table[0], PcbOf(net, table[0]).(services := []));
      var started := StartProbe(forgotten, table[0], wish);
      if Ready(net, table[0]) {
        StartsForWish(forgotten, table[0], wish);
        if link != table[0] { OtherStarts(forgotten, table[0], wish, link); }
        if link != table[0] && PcbOf(net, link).state == Probe1 && ProbesFor(net, link, wish) {
          SameProbesFor(net, started, link, wish);
        }
        RestartProbesFor(started, table[1..], wish, link);
      } else {
        RestartProbesFor(net, table[1..], wish, link);
      }
    }
  }

  ghost predicate ProbesFor(net: Net, link: Link, wish: Wish) {
    forall s :: s in PcbOf(net, link).services <==> s in wish.services
  }

  lemma SameProbesFor(net: Net, net': Net, link: Link, wish: Wish)
    requires ProbesFor(net, link, wish) && PcbOf(net', link) == PcbOf(net, link)
    ensures ProbesFor(net', link, wish)
  {
  }

  lemma StartsForWish(net: Net, link: Link, wish: Wish)
    requires wish.named && NoDuplicates(wish.services) && |wish.services| < 256 && PcbOf(net, link).services == []
    ensures var net' := StartProbe(net, link, wish); PcbOf(net', link).state == Probe1 && ProbesFor(net', link, wish)
  {
    hide Insert, ClearLink, NewOnes;
    ProbedExact(PcbOf(net, link), wish.services);
  }
}
