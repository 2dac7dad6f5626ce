/** The transmit queue, the action queue and the protocol control blocks of mDNS. */
module TxQueue {
  import opened MdnsCommon

  /** mdns_tx_packet_t; the id is its address, times are milliseconds without wrap-around. */
  datatype Packet = Packet(id: nat, link: Link, sendAt: nat, queued: bool)

  datatype PcbState =
    | Off | Dup | Init
    | Probe1 | Probe2 | Probe3
    | Announce1 | Announce2 | Announce3
    | Running

  /**
   * mdns_pcb_t with the services it probes for, when its probes went out since it last began to probe, and when
   * packets of it went out since it last began to announce.
   */
  datatype Pcb = Pcb(
    state: PcbState, probes: seq<nat>, announced: seq<nat>, services: seq<nat>, probeIp: bool, failed: nat)

  /** What an interface is to probe for: `named` says that there is a host name, `random` is the jitter. */
  datatype Wish = Wish(named: bool, services: seq<nat>, probeIp: bool, random: nat)

  datatype Net = Net(now: nat, queue: seq<Packet>, actions: seq<nat>, nextId: nat, pcbs: map<Link, Pcb>)

  const OFF: Pcb := Pcb(Off, [], [], [], false, 0)
  const QUIET: Net := Net(0, [], [], 0, map[])

  function PcbOf(net: Net, link: Link): Pcb {
    if link in net.pcbs then net.pcbs[link] else OFF
  }

  function WithPcb(net: Net, link: Link, pcb: Pcb): Net {
    net.(pcbs := net.pcbs[link := pcb])
  }

  /** PCB_STATE_IS_PROBING, from PCB_DUP to PCB_PROBE_3 */
  predicate IsProbing(s: PcbState) {
    s.Dup? || s.Init? || s.Probe1? || s.Probe2? || s.Probe3?
  }

  predicate IsAnnouncing(s: PcbState) {
    s.Announce1? || s.Announce2? || s.Announce3?
  }

  /** mdns_priv_pcb_is_after_probing */
  predicate IsAfterProbing(s: PcbState) {
    IsAnnouncing(s) || s.Running?
  }

  // ----- the transmit queue -----

  /** mdns_priv_send_after: behind every packet that is not later. */
  function Insert(queue: seq<Packet>, p: Packet): (r: seq<Packet>)
    ensures |r| == |queue| + 1
  {
    if queue == [] || queue[0].sendAt > p.sendAt then [p] + queue
    else [queue[0]] + Insert(queue[1..], p)
  }

  function SendAfter(net: Net, id: nat, link: Link, delay: nat): Net {
    net.(queue := Insert(net.queue, Packet(id, link, net.now + delay, false)))
  }

  /** mdns_priv_clear_tx_queue_if */
  function ClearLink(queue: seq<Packet>, link: Link): seq<Packet> {
    if queue == [] then []
    else (if queue[0].link == link then [] else [queue[0]]) + ClearLink(queue[1..], link)
  }

  /** The packets whose id is kept. */
  function Kept(queue: seq<Packet>, ids: set<nat>): seq<Packet> {
    if queue == [] then [] else (if queue[0].id in ids then [queue[0]] else []) + Kept(queue[1..], ids)
  }

  /** The second loop of mdns_priv_send_packets: packets that are due, until one is not. */
  function MarkDue(queue: seq<Packet>, now: nat, refused: set<nat>): (r: (seq<Packet>, seq<nat>))
    ensures |r.0| == |queue|
  {
    if queue == [] || queue[0].sendAt >= now then (queue, [])
    else
      var (rest, actions) := MarkDue(queue[1..], now, refused);
      if queue[0].id in refused then ([queue[0].(queued := false)] + rest, actions)
      else ([queue[0].(queued := true)] + rest, [queue[0].id] + actions)
  }

  /** mdns_priv_send_packets; `refused` are the packets whose action finds the action queue full. */
  function SendPackets(queue: seq<Packet>, now: nat, refused: set<nat>): (r: (seq<Packet>, seq<nat>))
    ensures |r.0| == |queue|
  {
    if queue == [] then ([], [])
    else if queue[0].queued then
      var (rest, actions) := SendPackets(queue[1..], now, refused);
      ([queue[0]] + rest, actions)
    else MarkDue(queue, now, refused)
  }

  // ----- handling -----

  /** mdns_priv_dispatch_tx_packet, seen from the control block: a probe or an announcement goes out. */
  function Dispatched(net: Net, link: Link): Pcb {
    var pcb := PcbOf(net, link);
    if pcb.state.Probe1? || pcb.state.Probe2? || pcb.state.Probe3? then pcb.(probes := pcb.probes + [net.now])
    else if IsAnnouncing(pcb.state) then pcb.(announced := pcb.announced + [net.now])
    else pcb
  }

  /** handle_packet with mdns_priv_pcb_schedule_tx_packet. */
  function Handle(net: Net, p: Packet): Net {
    var pcb := Dispatched(net, p.link);
    match pcb.state
    case Off => net
    case Probe1 => WithPcb(SendAfter(net, p.id, p.link, 250), p.link, pcb.(state := Probe2))
    case Probe2 => WithPcb(SendAfter(net, p.id, p.link, 250), p.link, pcb.(state := Probe3))
    case Probe3 =>
      WithPcb(SendAfter(net, net.nextId, p.link, 250).(nextId := net.nextId + 1), p.link,
              pcb.(state := Announce1, announced := [], services := [], probeIp := false, failed := 0))
    case Announce1 => WithPcb(SendAfter(net, p.id, p.link, 1000), p.link, pcb.(state := Announce2))
    case Announce2 => WithPcb(SendAfter(net, p.id, p.link, 1000), p.link, pcb.(state := Announce3))
    case Announce3 => WithPcb(net, p.link, pcb.(state := Running))
    case _ => net
  }

  /** send_packet for the next action. */
  function Act(net: Net): Net {
    if net.actions == [] then net
    else
      var rest := net.(actions := net.actions[1..]);
      if net.queue != [] && net.queue[0].id == net.actions[0] && net.queue[0].queued
      then Handle(rest.(queue := net.queue[1..]), net.queue[0].(queued := false))
      else rest
  }

  /** The services that are not probed for yet. */
  function NewOnes(services: seq<nat>, known: seq<nat>): seq<nat> {
    if services == [] then []
    else (if services[0] in known then [] else [services[0]]) + NewOnes(services[1..], known)
  }

  /** What is probed for next; the number of services goes through a byte. */
  function Probed(pcb: Pcb, services: seq<nat>): seq<nat> {
    var all := if IsProbing(pcb.state) then NewOnes(services, pcb.services) + pcb.services else services;
    all[..|all| % 256]
  }

  /** The time before a first probe; after many failures it is longer. */
  function FirstDelay(pcb: Pcb, random: nat): nat {
    (if pcb.failed > 5 then 1000 else 120) + random % 128
  }

  /** mdns_priv_init_pcb_probe; without a host name there is nothing to probe for. */
  function StartProbe(net: Net, link: Link, w: Wish): Net {
    var cleared := net.(queue := ClearLink(net.queue, link));
    var pcb := PcbOf(net, link);
    if !w.named then WithPcb(cleared, link, pcb.(state := Running, probes := []))
    else
      var probing := pcb.(state := Probe1, probes := [], services := Probed(pcb, w.services),
          probeIp := pcb.probeIp || w.probeIp);
      WithPcb(SendAfter(cleared, net.nextId, link, FirstDelay(pcb, w.random)).(nextId := net.nextId + 1), link, probing)
  }

  /** mdns_priv_if_ready: a control block has its socket until it is off or a duplicate. */
  predicate Ready(net: Net, link: Link) {
    !PcbOf(net, link).state.Off? && !PcbOf(net, link).state.Dup?
  }

  /** mdns_priv_probe_all_pcbs on the interfaces in table order; `restart` forgets what was probed for. */
  function ProbeAll(net: Net, table: seq<Link>, w: Wish, restart: bool): Net
    decreases |table|
  {
    if table == [] then net
    else if Ready(net, table[0]) then
      var forgotten := if restart then WithPcb(net, table[0], PcbOf(net, table[0]).(services := [])) else net;
      ProbeAll(StartProbe(forgotten, table[0], w), table[1..], w, restart)
    else ProbeAll(net, table[1..], w, restart)
  }

  /** mdns_priv_restart_all_pcbs */
  function RestartAll(net: Net, table: seq<Link>, w: Wish): Net {
    ProbeAll(net.(queue := []), table, w, true)
  }

  predicate HasPacket(queue: seq<Packet>, link: Link) {
    exists i :: 0 <= i < |queue| && queue[i].link == link
  }

  /** mdns_priv_pcb_announce on an interface that is ready. */
  function Announce(net: Net, link: Link, w: Wish): Net {
    var pcb := PcbOf(net, link);
    if IsProbing(pcb.state) then StartProbe(net, link, w)
    else if IsAnnouncing(pcb.state) then
      if HasPacket(net.queue, link) then WithPcb(net, link, pcb.(state := Announce1, announced := [])) else net
    else if pcb.state.Running? && w.named then
      WithPcb(SendAfter(net, net.nextId, link, 0).(nextId := net.nextId + 1), link,
              pcb.(state := Announce1, announced := []))
    else net
  }

  /** mdns_priv_pcb_disable, or the half of mdns_priv_pcb_set_duplicate that stops an interface. */
  function Stop(net: Net, link: Link, state: PcbState): Net {
    WithPcb(net.(queue := ClearLink(net.queue, link)), link, OFF.(state := state))
  }

  /** mdns_priv_pcb_check_probing_services; `cleared` says that the packet at hand lost its last answer. */
  function DropService(pcb: Pcb, service: nat, cleared: bool): Pcb {
    if IsProbing(pcb.state) then
      if service !in pcb.services then pcb
      else
        var rest := WithoutFirst(pcb.services, service);
        pcb.(services := rest, state := if rest == [] && !pcb.probeIp then Running else pcb.state)
    else if IsAnnouncing(pcb.state) && cleared then pcb.(state := Running)
    else pcb
  }

  function WithoutFirst(services: seq<nat>, service: nat): seq<nat> {
    if services == [] then [] else if services[0] == service then services[1..]
    else [services[0]] + WithoutFirst(services[1..], service)
  }

  /** Interfaces with a packet in the queue forget a service. */
  function Forget(net: Net, service: nat, cleared: set<Link>): Net {
    net.(pcbs := map link | link in net.pcbs ::
      if HasPacket(net.queue, link) then DropService(net.pcbs[link], service, link in cleared) else net.pcbs[link])
  }

  /** The packets that have something left; a probe that is still for something keeps its questions. */
  function NotEmpty(net: Net, emptied: set<nat>): set<nat> {
    set i | 0 <= i < |net.queue|
            && (net.queue[i].id !in emptied || IsProbing(PcbOf(net, net.queue[i].link).state)) :: net.queue[i].id
  }

  /** mdns_priv_remove_scheduled_service_packets; `emptied` are the packets that held nothing else. */
  function RemoveService(net: Net, service: nat, cleared: set<Link>, emptied: set<nat>): Net {
    var forgotten := Forget(net, service, cleared);
    forgotten.(queue := Kept(net.queue, NotEmpty(forgotten, emptied)))
  }

  /** A delayed answer, which is only made after probing. */
  function Answer(net: Net, link: Link, delay: nat): Net {
    if IsAfterProbing(PcbOf(net, link).state)
    then SendAfter(net, net.nextId, link, delay).(nextId := net.nextId + 1)
    else net
  }

  // ----- runs -----

  /** One critical section, or the passing of time. */
  datatype Event =
    | Tick(ms: nat)
    | Timer(refused: set<nat>)
    | Action
    | DelayedAnswer(link: Link, delay: nat)
    | BeginProbe(link: Link, wish: Wish)
    | BeginAnnounce(link: Link, wish: Wish)
    | Restart(table: seq<Link>, wish: Wish)
    | ProbeFailed(link: Link)
    | Disable(link: Link)
    | Duplicate(link: Link)
    | Remove(service: nat, cleared: set<Link>, emptied: set<nat>)

  /** The table of interfaces has every control block that there is. */
  predicate InTable(net: Net, table: seq<Link>) {
    forall link :: link in net.pcbs ==> link in table
  }

  function Step(net: Net, e: Event): Net {
    match e
    case Tick(ms) => net.(now := net.now + ms)
    case Timer(refused) =>
      var (queue, actions) := SendPackets(net.queue, net.now, refused);
      net.(queue := queue, actions := net.actions + actions)
    case Action => Act(net)
    case DelayedAnswer(link, delay) => Answer(net, link, delay)
    case BeginProbe(link, wish) => StartProbe(net, link, wish)
    case BeginAnnounce(link, wish) => Announce(net, link, wish)
    case Restart(table, wish) => if InTable(net, table) then RestartAll(net, table, wish) else net
    case ProbeFailed(link) => WithPcb(net, link, PcbOf(net, link).(failed := (PcbOf(net, link).failed + 1) % 0x1_0000))
    case Disable(link) => Stop(net, link, Off)
    case Duplicate(link) => Stop(net, link, Dup)
    case Remove(service, cleared, emptied) => RemoveService(net, service, cleared, emptied)
  }

  function Run(net: Net, events: seq<Event>): Net
    decreases |events|
  {
    if events == [] then net else Run(Step(net, events[0]), events[1..])
  }

  /** No packet that is due finds the action queue full while a later one does not. */
  ghost predicate RefusedLast(queue: seq<Packet>, now: nat, refused: set<nat>) {
    forall i, j :: 0 <= i < j < |queue| && !queue[i].queued && !queue[j].queued && queue[j].sendAt < now ==>
      queue[j].id !in refused ==> queue[i].id !in refused
  }

  /** The same at every timer event of a run. */
  ghost predicate AlwaysRefusedLast(net: Net, events: seq<Event>)
    decreases |events|
  {
    events == [] ||
    ((events[0].Timer? ==> RefusedLast(net.queue, net.now, events[0].refused))
     && AlwaysRefusedLast(Step(net, events[0]), events[1..]))
  }

  // ----- order of the queue -----

  ghost predicate Sorted(queue: seq<Packet>) {
    forall i, j :: 0 <= i < j < |queue| ==> queue[i].sendAt <= queue[j].sendAt
  }

  ghost predicate DistinctIds(queue: seq<Packet>) {
    forall i, j :: 0 <= i < j < |queue| ==> queue[i].id != queue[j].id
  }

  predicate InQueue(queue: seq<Packet>, id: nat) {
    exists i :: 0 <= i < |queue| && queue[i].id == id
  }

  /** The ids of the queued packets at the front. */
  function QueuedIds(queue: seq<Packet>): seq<nat> {
    if queue == [] || !queue[0].queued then [] else [queue[0].id] + QueuedIds(queue[1..])
  }

  /** Queued packets come first, and they are overdue. */
  ghost predicate Prefix(queue: seq<Packet>, now: nat) {
    && (forall i, j :: 0 <= i < j < |queue| && queue[j].queued ==> queue[i].queued)
    && (forall i :: 0 <= i < |queue| && queue[i].queued ==> queue[i].sendAt < now)
  }

  /** The pending actions whose packet is still in the queue. */
  function Live(actions: seq<nat>, queue: seq<Packet>): seq<nat>
    decreases |actions|
  {
    if actions == [] then []
    else (if InQueue(queue, actions[0]) then [actions[0]] else []) + Live(actions[1..], queue)
  }

  ghost predicate InOrder(net: Net) {
    && Sorted(net.queue) && DistinctIds(net.queue) && Prefix(net.queue, net.now)
    && (forall i :: 0 <= i < |net.queue| ==> net.queue[i].id < net.nextId)
    && (forall i :: 0 <= i < |net.actions| ==> net.actions[i] < net.nextId)
    && Live(net.actions, net.queue) == QueuedIds(net.queue)
  }
}
