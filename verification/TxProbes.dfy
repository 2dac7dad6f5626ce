/** Probing, as section 8.1 of RFC 6762 wants it: three probes, 250 ms apart. */
module TxProbes {
  import opened TxQueue
  import opened TxProofs
  import opened MdnsCommon

  /** The packets of one interface and protocol, in queue order. */
  function Of(queue: seq<Packet>, link: Link): seq<Packet> {
    if queue == [] then [] else (if queue[0].link == link then [queue[0]] else []) + Of(queue[1..], link)
  }

  ghost predicate Spaced(probes: seq<nat>) {
    forall i :: 0 < i < |probes| ==> probes[i - 1] + 250 < probes[i]
  }

  /** How many probes have gone out in a state. */
  function Sent(s: PcbState): nat {
    match s
    case Probe2 => 1
    case Probe3 => 2
    case _ => 0
  }

  predicate InProbe(s: PcbState) {
    s.Probe1? || s.Probe2? || s.Probe3?
  }

  /** A probing control block has one packet, not due before the time of its next probe. */
  ghost predicate ProbeOk(net: Net, link: Link) {
    var pcb := PcbOf(net, link);
    InProbe(pcb.state) ==>
      && |pcb.probes| == Sent(pcb.state) && Spaced(pcb.probes)
      && |Of(net.queue, link)| == 1
      && (pcb.probes != [] ==> pcb.probes[|pcb.probes| - 1] + 250 <= Of(net.queue, link)[0].sendAt)
  }

  ghost predicate Overdue(queue: seq<Packet>, now: nat) {
    forall i :: 0 <= i < |queue| && queue[i].queued ==> queue[i].sendAt < now
  }

  ghost predicate Probing(net: Net) {
    Overdue(net.queue, net.now) && forall link :: ProbeOk(net, link)
  }

  // ----- the packets of a link -----

  lemma {:induction false} OfInsert(queue: seq<Packet>, p: Packet, link: Link)
    ensures p.link != link ==> Of(Insert(queue, p), link) == Of(queue, link)
    ensures p.link == link && Of(queue, link) == [] ==> Of(Insert(queue, p), link) == [p]
    decreases |queue|
  {
    if queue == [] || queue[0].sendAt > p.sendAt {
      assert ([p] + queue)[1..] == queue;
      assert [] + Of(queue, link) == Of(queue, link) && [p] + [] == [p];
    } else {
      OfInsert(queue[1..], p, link);
      assert ([queue[0]] + Insert(queue[1..], p))[1..] == Insert(queue[1..], p);
      assert [] + Of(Insert(queue[1..], p), link) == Of(Insert(queue[1..], p), link);
      assert [] + Of(queue[1..], link) == Of(queue[1..], link);
    }
  }

  lemma {:induction false} OfClear(queue: seq<Packet>, gone: Link, link: Link)
    ensures Of(ClearLink(queue, gone), link) == if link == gone then [] else Of(queue, link)
    decreases |queue|
  {
    if queue == [] {
    } else {
      OfClear(queue[1..], gone, link);
      var rest := ClearLink(queue[1..], gone);
      assert [] + rest == rest;
      assert ([queue[0]] + rest)[1..] == rest;
    }
  }

  /** Taking out packets of other links. */
  lemma {:induction false} OfKept(queue: seq<Packet>, ids: set<nat>, link: Link)
    requires forall i :: 0 <= i < |queue| && queue[i].link == link ==> queue[i].id in ids
    ensures Of(Kept(queue, ids), link) == Of(queue, link)
    decreases |queue|
  {
    if queue == [] {
    } else {
      OfKept(queue[1..], ids, link);
      var rest := Kept(queue[1..], ids);
      assert [] + rest == rest;
      assert ([queue[0]] + rest)[1..] == rest;
    }
  }

  lemma {:induction false} KeptOverdue(queue: seq<Packet>, ids: set<nat>, now: nat)
    requires Overdue(queue, now)
    ensures Overdue(Kept(queue, ids), now)
    decreases |queue|
  {
    if queue == [] {
    } else {
      KeptOverdue(queue[1..], ids, now);
    }
  }

  lemma {:induction false} OfSame(a: seq<Packet>, b: seq<Packet>, link: Link)
    requires SamePackets(a, b)
    ensures SamePackets(Of(a, link), Of(b, link))
    decreases |a|
  {
    if a == [] {
    } else {
      OfSame(a[1..], b[1..], link);
    }
  }

  lemma InsertOverdue(queue: seq<Packet>, p: Packet, now: nat)
    requires Overdue(queue, now) && !p.queued
    ensures Overdue(Insert(queue, p), now)
  {
  }

  lemma {:induction false} ClearOverdue(queue: seq<Packet>, link: Link, now: nat)
    requires Overdue(queue, now)
    ensures Overdue(ClearLink(queue, link), now)
    decreases |queue|
  {
    if queue == [] {
    } else {
      ClearOverdue(queue[1..], link, now);
    }
  }

  /** A change that leaves the packets and the control block of a link alone. */
  lemma Untouched(net: Net, net': Net, link: Link)
    requires ProbeOk(net, link) && PcbOf(net', link) == PcbOf(net, link)
    requires SamePackets(Of(net.queue, link), Of(net'.queue, link))
    ensures ProbeOk(net', link)
  {
  }

  // ----- steps -----

  lemma SendAfterOthers(net: Net, id: nat, link: Link, delay: nat, other: Link)
    requires ProbeOk(net, other) && (other != link || !InProbe(PcbOf(net, other).state))
    ensures ProbeOk(SendAfter(net, id, link, delay), other)
  {
    OfInsert(net.queue, Packet(id, link, net.now + delay, false), other);
  }

  lemma StartProbeOverdue(net: Net, link: Link, wish: Wish)
    requires Overdue(net.queue, net.now)
    ensures Overdue(StartProbe(net, link, wish).queue, net.now) && StartProbe(net, link, wish).now == net.now
  {
    hide Overdue, Probed;
    var delay := FirstDelay(PcbOf(net, link), wish.random);
    ClearOverdue(net.queue, link, net.now);
    InsertOverdue(ClearLink(net.queue, link), Packet(net.nextId, link, net.now + delay, false), net.now);
  }

  /** Beginning to probe puts the interface in order, and leaves the others as they are. */
  lemma StartProbeOne(net: Net, link: Link, wish: Wish, other: Link)
    requires other == link || ProbeOk(net, other)
    ensures ProbeOk(StartProbe(net, link, wish), other)
  {
    hide InProbe, Spaced, Insert, ClearLink, Of, Probed, FirstDelay;
    var p := Packet(net.nextId, link, net.now + FirstDelay(PcbOf(net, link), wish.random), false);
    OfClear(net.queue, link, other);
    OfInsert(ClearLink(net.queue, link), p, other);
    NoProbes();
  }

  lemma StartProbeProbing(net: Net, link: Link, wish: Wish)
    requires Probing(net)
    ensures Probing(StartProbe(net, link, wish))
  {
    hide ProbeOk, Overdue, StartProbe;
    StartProbeOverdue(net, link, wish);
    forall other
      ensures ProbeOk(StartProbe(net, link, wish), other)
    {
      StartProbeOne(net, link, wish, other);
    }
  }

  lemma {:induction false} ProbeAllOne(net: Net, table: seq<Link>, wish: Wish, restart: bool, link: Link)
    requires Overdue(net.queue, net.now) && (ProbeOk(net, link) || link in table)
    ensures var net' := ProbeAll(net, table, wish, restart); ProbeOk(net', link) && Overdue(net'.queue, net'.now)
    decreases |table|
  {
    hide StartProbe, Overdue;
    if table == [] {
    } else {
      if Ready(net, table[0]) {
        var forgotten := if restart then WithPcb(net, table[0], PcbOf(net, table[0]).(services := [])) else net;
        StartProbeOverdue(forgotten, table[0], wish);
        if ProbeOk(net, link) || link == table[0] { StartProbeOne(forgotten, table[0], wish, link); }
        ProbeAllOne(StartProbe(forgotten, table[0], wish), table[1..], wish, restart, link);
      } else {
        ProbeAllOne(net, table[1..], wish, restart, link);
      }
    }
  }

  /** A restart clears the whole queue, and puts every control block in order again. */
  lemma RestartProbing(net: Net, table: seq<Link>, wish: Wish)
    requires Probing(net) && InTable(net, table)
    ensures Probing(RestartAll(net, table, wish))
  {
    hide ProbeAll, Spaced;
    var cleared := net.(queue := []);
    forall link
      ensures ProbeOk(RestartAll(net, table, wish), link)
      ensures Overdue(RestartAll(net, table, wish).queue, RestartAll(net, table, wish).now)
    {
      if link !in net.pcbs { assert PcbOf(cleared, link) == OFF; }
      ProbeAllOne(cleared, table, wish, true, link);
    }
    var any := Link(0, 0);
    assert ProbeOk(RestartAll(net, table, wish), any);
  }

  lemma FailedProbing(net: Net, link: Link)
    requires Probing(net)
    ensures Probing(Step(net, ProbeFailed(link)))
  {
    hide Spaced;
    var net' := Step(net, ProbeFailed(link));
    forall other
      ensures ProbeOk(net', other)
    {
      assert ProbeOk(net, other);
    }
  }

  /** A service that goes away never takes the packet of a control block that goes on probing. */
  lemma RemoveProbing(net: Net, service: nat, cleared: set<Link>, emptied: set<nat>)
    requires Probing(net)
    ensures Probing(RemoveService(net, service, cleared, emptied))
  {
    hide Spaced, DropService, Overdue;
    var forgotten := Forget(net, service, cleared);
    var net' := RemoveService(net, service, cleared, emptied);
    ForgetQueue(net, service, cleared);
    KeptOverdue(net.queue, NotEmpty(forgotten, emptied), net.now);
    forall link
      ensures ProbeOk(net', link)
    {
      assert ProbeOk(net, link);
      ForgetsOnly(net, service, cleared, link);
      if InProbe(PcbOf(net', link).state) { OfKept(net.queue, NotEmpty(forgotten, emptied), link); }
    }
  }

  lemma ForgetsOnly(net: Net, service: nat, cleared: set<Link>, link: Link)
    ensures var pcb, pcb' := PcbOf(net, link), PcbOf(Forget(net, service, cleared), link);
            pcb'.probes == pcb.probes && (pcb'.state == pcb.state || pcb'.state == Running)
  {
  }

  lemma NoProbes()
    ensures Spaced([]) && !InProbe(Running) && !InProbe(Off) && !InProbe(Dup)
  {
  }

  lemma StopProbing(net: Net, link: Link, state: PcbState)
    requires Probing(net) && !InProbe(state)
    ensures Probing(Stop(net, link, state))
  {
    hide InProbe, Spaced, ClearLink, Of;
    var net' := Stop(net, link, state);
    ClearOverdue(net.queue, link, net.now);
    forall other
      ensures ProbeOk(net', other)
    {
      assert ProbeOk(net, other);
      OfClear(net.queue, link, other);
    }
  }

  lemma TimerProbing(net: Net, refused: set<nat>)
    requires Probing(net)
    ensures Probing(Step(net, Timer(refused)))
  {
    hide InProbe, Spaced;
    var net' := Step(net, Timer(refused));
    SendPacketsSame(net.queue, net.now, refused);
    assert Overdue(net'.queue, net'.now);
    forall link
      ensures ProbeOk(net', link)
    {
      assert ProbeOk(net, link);
      OfSame(net.queue, net'.queue, link);
      Untouched(net, net', link);
    }
  }

  /** Handling a packet of another link. */
  lemma HandleOther(net: Net, p: Packet, link: Link)
    requires p.link != link && ProbeOk(net.(queue := [p] + net.queue), link)
    ensures ProbeOk(Handle(net, p), link)
  {
    hide InProbe, Spaced, Insert;
    assert ([p] + net.queue)[1..] == net.queue && [] + Of(net.queue, link) == Of(net.queue, link);
    assert ProbeOk(net, link);
    OfInsert(net.queue, Packet(p.id, p.link, net.now + 250, false), link);
    OfInsert(net.queue, Packet(p.id, p.link, net.now + 1000, false), link);
    OfInsert(net.queue, Packet(net.nextId, p.link, net.now + 250, false), link);
  }

  /** Handling the one packet of a link that probes, now that it is due. */
  lemma HandleProbe(net: Net, p: Packet)
    requires p.sendAt < net.now && ProbeOk(net.(queue := [p] + net.queue), p.link)
    requires PcbOf(net, p.link).state.Probe1? || PcbOf(net, p.link).state.Probe2?
    ensures ProbeOk(Handle(net, p), p.link)
  {
    hide Insert, Spaced;
    var pcb := PcbOf(net, p.link);
    assert ([p] + net.queue)[1..] == net.queue;
    assert Of([p] + net.queue, p.link) == [p] + Of(net.queue, p.link);
    assert Of(net.queue, p.link) == [];
    OfInsert(net.queue, Packet(p.id, p.link, net.now + 250, false), p.link);
    OneMore(pcb.probes, net.now);
  }

  lemma OneMore(probes: seq<nat>, now: nat)
    requires Spaced(probes) && (probes != [] ==> probes[|probes| - 1] + 250 < now)
    ensures Spaced(probes + [now])
  {
  }

  lemma HandleProbing(net: Net, p: Packet, link: Link)
    requires p.sendAt < net.now && ProbeOk(net.(queue := [p] + net.queue), link)
    ensures ProbeOk(Handle(net, p), link)
  {
    hide Insert, Of, Spaced;
    if p.link != link {
      HandleOther(net, p, link);
    } else if PcbOf(net, link).state.Probe1? || PcbOf(net, link).state.Probe2? {
      HandleProbe(net, p);
    }
  }

  lemma HandleOverdue(net: Net, p: Packet)
    requires Overdue(net.queue, net.now)
    ensures Overdue(Handle(net, p).queue, net.now) && Handle(net, p).now == net.now
  {
    hide Overdue;
    InsertOverdue(net.queue, Packet(p.id, p.link, net.now + 250, false), net.now);
    InsertOverdue(net.queue, Packet(p.id, p.link, net.now + 1000, false), net.now);
    InsertOverdue(net.queue, Packet(net.nextId, p.link, net.now + 250, false), net.now);
  }

  lemma ActProbing(net: Net)
    requires Probing(net)
    ensures Probing(Act(net))
  {
    hide ProbeOk, Handle;
    if net.actions != [] {
      var rest := net.(actions := net.actions[1..]);
      if net.queue != [] && net.queue[0].id == net.actions[0] && net.queue[0].queued {
        var p := net.queue[0].(queued := false);
        var popped := rest.(queue := net.queue[1..]);
        HandleOverdue(popped, p);
        forall link
          ensures ProbeOk(Handle(popped, p), link)
        {
          HeadUnmarked(net, popped, p, link);
          HandleProbing(popped, p, link);
        }
      } else {
        forall link ensures ProbeOk(rest, link) { ActionsDoNotMatter(net, link); }
      }
    }
  }

  lemma HeadUnmarked(net: Net, popped: Net, p: Packet, link: Link)
    requires ProbeOk(net, link) && net.queue != [] && p == net.queue[0].(queued := false)
    requires popped == net.(actions := popped.actions, queue := net.queue[1..])
    ensures ProbeOk(popped.(queue := [p] + popped.queue), link)
  {
  }

  lemma ActionsDoNotMatter(net: Net, link: Link)
    requires ProbeOk(net, link) && net.actions != []
    ensures ProbeOk(net.(actions := net.actions[1..]), link)
  {
  }

  lemma NewPacketProbing(net: Net, link: Link, delay: nat)
    requires Probing(net) && !InProbe(PcbOf(net, link).state)
    ensures Probing(SendAfter(net, net.nextId, link, delay).(nextId := net.nextId + 1))
  {
    InsertOverdue(net.queue, Packet(net.nextId, link, net.now + delay, false), net.now);
    var net' := SendAfter(net, net.nextId, link, delay).(nextId := net.nextId + 1);
    forall other
      ensures ProbeOk(net', other)
    {
      assert ProbeOk(net, other);
      SendAfterOthers(net, net.nextId, link, delay, other);
    }
  }

  lemma SetState(net: Net, link: Link)
    requires Probing(net)
    ensures Probing(WithPcb(net, link, PcbOf(net, link).(state := Announce1, announced := [])))
  {
    var net' := WithPcb(net, link, PcbOf(net, link).(state := Announce1, announced := []));
    forall other
      ensures ProbeOk(net', other)
    {
      assert ProbeOk(net, other);
    }
  }

  lemma StepProbing(net: Net, e: Event)
    requires Probing(net)
    ensures Probing(Step(net, e))
  {
    match e
    case Tick(ms) =>
      forall link ensures ProbeOk(Step(net, e), link) { assert ProbeOk(net, link); }
    case Timer(refused) => TimerProbing(net, refused);
    case Action => ActProbing(net);
    case DelayedAnswer(link, delay) => AnswerProbing(net, link, delay);
    case BeginProbe(link, wish) => StartProbeProbing(net, link, wish);
    case BeginAnnounce(link, wish) => AnnounceProbing(net, link, wish);
    case Restart(table, wish) => if InTable(net, table) { RestartProbing(net, table, wish); }
    case ProbeFailed(link) => FailedProbing(net, link);
    case Disable(link) => StopProbing(net, link, Off);
    case Duplicate(link) => StopProbing(net, link, Dup);
    case Remove(service, cleared, emptied) => RemoveProbing(net, service, cleared, emptied);
  }

  lemma AnswerProbing(net: Net, link: Link, delay: nat)
    requires Probing(net)
    ensures Probing(Answer(net, link, delay))
  {
    hide Probing;
    if IsAfterProbing(PcbOf(net, link).state) { NewPacketProbing(net, link, delay); }
  }

  lemma AnnounceProbing(net: Net, link: Link, wish: Wish)
    requires Probing(net)
    ensures Probing(Announce(net, link, wish))
  {
    hide Probing;
    var pcb := PcbOf(net, link);
    if IsProbing(pcb.state) {
      StartProbeProbing(net, link, wish);
    } else if IsAnnouncing(pcb.state) {
      SetState(net, link);
    } else if pcb.state.Running? && wish.named {
      NewPacketProbing(net, link, 0);
      SetState(SendAfter(net, net.nextId, link, 0).(nextId := net.nextId + 1), link);
    }
  }

  lemma {:induction false} RunProbing(net: Net, events: seq<Event>)
    requires Probing(net)
    ensures Probing(Run(net, events))
    decreases |events|
  {
    hide Probing, Step;
    if events == [] {
    } else {
      StepProbing(net, events[0]);
      RunProbing(Step(net, events[0]), events[1..]);
    }
  }

  lemma StartsQuiet()
    ensures Probing(QUIET)
  {
  }

  /**
   * Whenever a control block goes from probing to announcing, three probes have gone out since it began to
   * probe, the last of them now, each more than 250 ms after the one before.
   */
  lemma ThreeSpacedProbes(events: seq<Event>, e: Event, link: Link)
    requires InProbe(PcbOf(Run(QUIET, events), link).state)
    requires PcbOf(Step(Run(QUIET, events), e), link).state == Announce1
    ensures var net := Run(QUIET, events); var probes := PcbOf(Step(net, e), link).probes;
            |probes| == 3 && probes[2] == net.now && probes[0] + 250 < probes[1] && probes[1] + 250 < probes[2]
  {
    hide Run;
    var net := Run(QUIET, events);
    StartsQuiet();
    RunProbing(QUIET, events);
    LastProbe(net, e, link);
  }

  lemma {:induction false} ProbeAllState(net: Net, table: seq<Link>, wish: Wish, restart: bool, link: Link)
    requires !PcbOf(net, link).state.Announce1?
    ensures !PcbOf(ProbeAll(net, table, wish, restart), link).state.Announce1?
    decreases |table|
  {
    if table == [] {
    } else {
      if Ready(net, table[0]) {
        var forgotten := if restart then WithPcb(net, table[0], PcbOf(net, table[0]).(services := [])) else net;
        ProbeAllState(StartProbe(forgotten, table[0], wish), table[1..], wish, restart, link);
      } else {
        ProbeAllState(net, table[1..], wish, restart, link);
      }
    }
  }

  lemma LastProbe(net: Net, e: Event, link: Link)
    requires Probing(net) && InProbe(PcbOf(net, link).state) && PcbOf(Step(net, e), link).state == Announce1
    ensures var probes := PcbOf(Step(net, e), link).probes;
            |probes| == 3 && probes[2] == net.now && probes[0] + 250 < probes[1] && probes[1] + 250 < probes[2]
  {
    hide SendPackets, Insert, ClearLink, Kept, Forget, NotEmpty, ProbeAll;
    assert ProbeOk(net, link);
    match e {
      case Restart(table, wish) => ProbeAllState(net.(queue := []), table, wish, true, link);
      case Remove(service, cleared, emptied) => ForgetsOnly(net, service, cleared, link);
      case _ =>
    }
    assert e.Action?;
    var p := net.queue[0];
    assert p.link == link && p.sendAt < net.now;
    assert Of(net.queue, link)[0] == p;
  }

  // ----- what is probed for -----

  ghost predicate NoDuplicates(services: seq<nat>) {
    forall i, j :: 0 <= i < j < |services| ==> services[i] != services[j]
  }

  lemma {:induction false} NewOnesExact(services: seq<nat>, known: seq<nat>)
    requires NoDuplicates(services)
    ensures NoDuplicates(NewOnes(services, known))
    ensures forall s :: s in NewOnes(services, known) <==> s in services && s !in known
    decreases |services|
  {
    if services == [] {
    } else {
      NewOnesExact(services[1..], known);
      assert services == [services[0]] + services[1..];
      assert NewOnes(services, known) == NewOnes(services[1..], known)
          || NewOnes(services, known) == [services[0]] + NewOnes(services[1..], known);
    }
  }

  /**
   * Beginning to probe while probing adds the services that are new to those probed for, each once; with a
   * byte to count them, all of them when they are fewer than 256.
   */
  lemma ProbedExact(pcb: Pcb, services: seq<nat>)
    requires NoDuplicates(services) && NoDuplicates(pcb.services)
    ensures NoDuplicates(Probed(pcb, services))
    ensures |services| + |pcb.services| < 256 ==>
              forall s :: s in Probed(pcb, services) <==> s in services || (IsProbing(pcb.state) && s in pcb.services)
  {
    hide NewOnes, NoDuplicates;
    NewOnesExact(services, pcb.services);
    NewOnesLength(services, pcb.services);
    var added := NewOnes(services, pcb.services);
    var all := if IsProbing(pcb.state) then added + pcb.services else services;
    TogetherOnce(added, pcb.services);
    FirstFew(all, |all| % 256);
  }

  lemma TogetherOnce(a: seq<nat>, b: seq<nat>)
    requires NoDuplicates(a) && NoDuplicates(b) && forall s :: s in a ==> s !in b
    ensures NoDuplicates(a + b) && forall s :: s in a + b <==> s in a || s in b
  {
    assert forall i :: 0 <= i < |a| ==> a[i] in a;
  }

  lemma FirstFew(services: seq<nat>, n: nat)
    requires NoDuplicates(services) && n <= |services|
    ensures NoDuplicates(services[..n]) && services[..|services|] == services
  {
  }

  lemma {:induction false} NewOnesLength(services: seq<nat>, known: seq<nat>)
    ensures |NewOnes(services, known)| <= |services|
    decreases |services|
  {
    if services == [] {
    } else {
      NewOnesLength(services[1..], known);
    }
  }

  // ----- when the action queue is full -----

  /** The head is marked as queued, but no action will come for it. */
  ghost predicate Stranded(net: Net, id: nat) {
    && net.queue != [] && net.queue[0].id == id && net.queue[0].queued && net.queue[0].sendAt < net.now
    && id < net.nextId
    && (forall i :: 1 <= i < |net.queue| ==> net.queue[i].id != id)
    && id !in net.actions
  }

  /** What goes on while no interface starts, stops or announces. */
  predicate Routine(e: Event) {
    e.Tick? || e.Timer? || e.Action? || e.DelayedAnswer?
  }

  lemma {:induction false} MarkedIds(queue: seq<Packet>, now: nat, refused: set<nat>, id: nat)
    requires forall i :: 0 <= i < |queue| ==> queue[i].id != id
    ensures id !in SendPackets(queue, now, refused).1 && id !in MarkDue(queue, now, refused).1
    decreases |queue|
  {
    if queue == [] {
    } else {
      MarkedIds(queue[1..], now, refused, id);
    }
  }

  lemma StrandedStays(net: Net, e: Event, id: nat)
    requires Stranded(net, id) && Routine(e)
    ensures Stranded(Step(net, e), id)
  {
    match e
    case Tick(ms) =>
    case Timer(refused) =>
      MarkedIds(net.queue[1..], net.now, refused, id);
      SendPacketsSame(net.queue[1..], net.now, refused);
    case Action =>
    case DelayedAnswer(link, delay) =>
      var p := Packet(net.nextId, link, net.now + delay, false);
      var k := InsertSplit(net.queue, p);
      var q := Insert(net.queue, p);
      assert forall i :: 0 <= i < |q| ==>
          q[i] == if i < k then net.queue[i] else if i == k then p else net.queue[i - 1];
  }

  lemma {:induction false} StrandedForGood(net: Net, events: seq<Event>, id: nat)
    requires Stranded(net, id) && forall i :: 0 <= i < |events| ==> Routine(events[i])
    ensures Stranded(Run(net, events), id)
    decreases |events|
  {
    hide Stranded, Step;
    if events == [] {
    } else {
      StrandedStays(net, events[0], id);
      StrandedForGood(Step(net, events[0]), events[1..], id);
    }
  }

  lemma RunSplit(net: Net, e: Event, events: seq<Event>)
    ensures Run(net, [e] + events) == Run(Step(net, e), events)
  {
  }

  const IP: Wish := Wish(true, [], true, 0)
  const LATER: Wish := Wish(true, [], true, 1)

  /** Two control blocks that have just begun to probe. */
  lemma TwoProbes(a: Link, b: Link) returns (net: Net)
    requires a != b
    ensures net == Step(Step(Step(QUIET, BeginProbe(a, IP)), BeginProbe(b, LATER)), Tick(200))
    ensures net.queue == [Packet(0, a, 120, false), Packet(1, b, 121, false)]
    ensures net.now == 200 && net.actions == [] && net.nextId == 2
  {
    var first := Step(QUIET, BeginProbe(a, IP));
    assert first.queue == [Packet(0, a, 120, false)];
    var only := first.queue[1..];
    assert only == [];
    assert ClearLink(first.queue, b) == [Packet(0, a, 120, false)];
    var second := Step(first, BeginProbe(b, LATER));
    assert Insert(only, Packet(1, b, 121, false)) == [Packet(1, b, 121, false)];
    assert second.queue == [Packet(0, a, 120, false), Packet(1, b, 121, false)];
    net := Step(second, Tick(200));
  }

  /**
   * When the action queue has no room for one packet but has for the next, and the interface of the first then
   * goes down, the next is stranded, and whatever goes on after that, nothing behind it is sent.
   */
  lemma RefusalStrands(a: Link, b: Link, events: seq<Event>)
    requires a != b && forall i :: 0 <= i < |events| ==> Routine(events[i])
    ensures Stranded(Run(QUIET, [BeginProbe(a, IP), BeginProbe(b, LATER), Tick(200),
                                 Timer({0}), Action, Disable(a)] + events), 1)
  {
    hide Step, Run;
    var net := TwoProbes(a, b);
    var marked := OneRefused(net, a, b);
    var stopped := FirstGone(marked, a, b);
    StrandedForGood(stopped, events, 1);
    SixSteps(a, b, events);
  }

  lemma OneRefused(net: Net, a: Link, b: Link) returns (marked: Net)
    requires net.queue == [Packet(0, a, 120, false), Packet(1, b, 121, false)] && net.now == 200 && net.actions == []
    ensures marked == Step(net, Timer({0})) && marked.now == 200 && marked.nextId == net.nextId
    ensures marked.queue == [Packet(0, a, 120, false), Packet(1, b, 121, true)] && marked.actions == [1]
  {
    var second := [Packet(1, b, 121, false)];
    marked := Step(net, Timer({0}));
    assert second[1..] == [] && net.queue[1..] == second;
    assert MarkDue(second, 200, {0}).0 == [Packet(1, b, 121, true)] && MarkDue(second, 200, {0}).1 == [1];
  }

  lemma FirstGone(marked: Net, a: Link, b: Link) returns (stopped: Net)
    requires marked.queue == [Packet(0, a, 120, false), Packet(1, b, 121, true)] && marked.actions == [1]
    requires a != b && marked.now == 200 && marked.nextId == 2
    ensures stopped == Step(Step(marked, Action), Disable(a)) && Stranded(stopped, 1)
  {
    var acted := Step(marked, Action);
    assert acted.queue == marked.queue && acted.actions == [];
    stopped := Step(acted, Disable(a));
    var second := [Packet(1, b, 121, true)];
    assert acted.queue[1..] == second && second[1..] == [];
    assert ClearLink(second, a) == second;
    assert stopped.queue == [] + second == second;
  }

  lemma SixSteps(a: Link, b: Link, events: seq<Event>)
    ensures Run(QUIET, [BeginProbe(a, IP), BeginProbe(b, LATER), Tick(200), Timer({0}), Action, Disable(a)] + events)
         == Run(Step(Step(Step(Step(Step(Step(QUIET, BeginProbe(a, IP)), BeginProbe(b, LATER)), Tick(200)),
                                    Timer({0})), Action), Disable(a)), events)
  {
    hide Run, Step;
    var s1 := Step(QUIET, BeginProbe(a, IP));
    var s2 := Step(s1, BeginProbe(b, LATER));
    var s3 := Step(s2, Tick(200));
    var s4 := Step(s3, Timer({0}));
    var s5 := Step(s4, Action);
    var e5 := [Disable(a)] + events;
    var e4 := [Action] + e5;
    var e3 := [Timer({0})] + e4;
    var e2 := [Tick(200)] + e3;
    var e1 := [BeginProbe(b, LATER)] + e2;
    RunSplit(QUIET, BeginProbe(a, IP), e1);
    RunSplit(s1, BeginProbe(b, LATER), e2);
    RunSplit(s2, Tick(200), e3);
    RunSplit(s3, Timer({0}), e4);
    RunSplit(s4, Action, e5);
    RunSplit(s5, Disable(a), events);
    assert [BeginProbe(a, IP), BeginProbe(b, LATER), Tick(200), Timer({0}), Action, Disable(a)] + events
        == [BeginProbe(a, IP)] + e1;
  }
}
