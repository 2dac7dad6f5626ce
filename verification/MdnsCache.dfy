/** The mDNS service cache and the browsers that are told about it. */
module MdnsCache {
  import opened CStrings
  import opened MdnsCommon
  import opened Sequences

  datatype Record = PtrRecord | SrvRecord | TxtRecord | AddrRecord
  datatype UpdateResult = NoChange | Added | Updated | Removed

  datatype CachedAddr = CachedAddr(addr: int, ttl: nat)

  /** mdns_service_cache_t; `dirty` is the browse bit of sync_consumers, `records` is sync_records. */
  datatype Service = Service(
    instance: string, service: string, proto: string,
    ptr: bool, ptrTtl: nat,
    srv: bool, priority: nat, weight: nat, port: nat, srvTtl: nat,
    txt: bool, txtList: seq<TxtItem>, txtTtl: nat,
    records: set<Record>, dirty: bool)

  /** mdns_cache_entry_t; the empty host name stands for NULL. */
  datatype Entry = Entry(host: string, link: Link, addrs: seq<CachedAddr>, services: seq<Service>)

  /** mdns_result_t as the notifier receives it. */
  datatype Notice = Notice(
    link: Link, instance: string, service: string, proto: string, ttl: nat,
    host: string, port: nat, addrs: seq<int>, txt: seq<TxtItem>)

  datatype BrowseState = BrowseInit | BrowseRunning | BrowseOff

  /** mdns_browse_t with everything its notifier has been told. */
  datatype Browse = Browse(
    id: nat, service: string, proto: string, state: BrowseState, notifier: bool, log: seq<Notice>)

  datatype State = State(cache: seq<Entry>, browses: seq<Browse>)

  predicate NamesEqual(a: string, b: string) {
    a != "" && b != "" && Fold(a) == Fold(b)
  }

  predicate NullableNamesEqual(a: string, b: string) {
    (a == "" && b == "") || NamesEqual(a, b)
  }

  predicate ServiceMatch(s: Service, instance: string, service: string, proto: string) {
    NamesEqual(s.instance, instance) && NamesEqual(s.service, service) && NamesEqual(s.proto, proto)
  }

  predicate HasRecord(s: Service) {
    s.ptr || s.srv || s.txt
  }

  /** service_cache_mark_sync_out */
  function Marked(s: Service, result: UpdateResult, record: Record): Service {
    if result.Added? || result.Updated? then s.(records := s.records + {record}, dirty := true) else s
  }

  /** service_cache_clear_sync_out for browsers, the only consumers there are. */
  function Cleared(s: Service): Service {
    s.(dirty := false, records := {})
  }

  function NewService(instance: string, service: string, proto: string): Service {
    Service(instance, service, proto, false, 0, false, 0, 0, 0, 0, false, [], 0, {}, false)
  }

  // ----- lookups -----

  function FindEntry(cache: seq<Entry>, host: string, link: Link): (i: nat)
    ensures i <= |cache|
    ensures i < |cache| ==> NullableNamesEqual(cache[i].host, host) && cache[i].link == link
    ensures forall k :: 0 <= k < i ==> !(NullableNamesEqual(cache[k].host, host) && cache[k].link == link)
  {
    if cache == [] then 0
    else if NullableNamesEqual(cache[0].host, host) && cache[0].link == link then 0
    else 1 + FindEntry(cache[1..], host, link)
  }

  function FindIn(services: seq<Service>, instance: string, service: string, proto: string): (j: nat)
    ensures j <= |services|
    ensures j < |services| ==> ServiceMatch(services[j], instance, service, proto)
    ensures forall k :: 0 <= k < j ==> !ServiceMatch(services[k], instance, service, proto)
  {
    if services == [] then 0
    else if ServiceMatch(services[0], instance, service, proto) then 0
    else 1 + FindIn(services[1..], instance, service, proto)
  }

  /** cache_find_service: the owner entry, |cache| for NULL. */
  function FindOwner(cache: seq<Entry>, link: Link, instance: string, service: string, proto: string): (i: nat)
    ensures i <= |cache|
    ensures i < |cache| ==>
              cache[i].link == link && FindIn(cache[i].services, instance, service, proto) < |cache[i].services|
    ensures forall k :: 0 <= k < i && cache[k].link == link ==>
              FindIn(cache[k].services, instance, service, proto) == |cache[k].services|
  {
    if cache == [] then 0
    else if cache[0].link == link && FindIn(cache[0].services, instance, service, proto) < |cache[0].services| then 0
    else 1 + FindOwner(cache[1..], link, instance, service, proto)
  }

  // ----- relinking -----

  function PutService(cache: seq<Entry>, i: nat, j: nat, s: Service): (r: seq<Entry>)
    requires i < |cache| && j < |cache[i].services|
    ensures |r| == |cache|
  {
    cache[i := cache[i].(services := cache[i].services[j := s])]
  }

  function PushService(cache: seq<Entry>, i: nat, s: Service): (r: seq<Entry>)
    requires i < |cache|
    ensures |r| == |cache|
  {
    cache[i := cache[i].(services := [s] + cache[i].services)]
  }

  function DetachService(cache: seq<Entry>, i: nat, j: nat): (r: seq<Entry>)
    requires i < |cache| && j < |cache[i].services|
    ensures |r| == |cache|
  {
    cache[i := cache[i].(services := RemoveAt(cache[i].services, j))]
  }

  /** An entry goes with its last service, whatever addresses it holds. */
  function DropIfBare(cache: seq<Entry>, i: nat): seq<Entry>
    requires i < |cache|
  {
    if cache[i].services == [] then RemoveAt(cache, i) else cache
  }

  /** cache_remove_service */
  function RemoveService(cache: seq<Entry>, i: nat, j: nat): seq<Entry>
    requires i < |cache| && j < |cache[i].services|
  {
    DropIfBare(DetachService(cache, i, j), i)
  }

  /** cache_move_service, with the service as it is stored afterwards. */
  function MoveService(cache: seq<Entry>, i: nat, j: nat, k: nat, s: Service): seq<Entry>
    requires i < |cache| && j < |cache[i].services| && k < |cache| && k != i
  {
    DropIfBare(PushService(DetachService(cache, i, j), k, s), i)
  }

  function WithEntry(cache: seq<Entry>, host: string, link: Link): (r: seq<Entry>)
    ensures FindEntry(cache, host, link) < |cache| ==> r == cache
    ensures FindEntry(cache, host, link) == |cache| ==> r == [Entry(host, link, [], [])] + cache
  {
    if FindEntry(cache, host, link) < |cache| then cache else [Entry(host, link, [], [])] + cache
  }

  /** cache_get_or_add_entry: the index in the cache that WithEntry gives. */
  function EntryIndex(cache: seq<Entry>, host: string, link: Link): (k: nat)
    ensures k < |WithEntry(cache, host, link)|
  {
    var k := FindEntry(cache, host, link);
    if k < |cache| then k else 0
  }

  predicate SameType(s: Service, service: string, proto: string) {
    NamesEqual(s.service, service) && NamesEqual(s.proto, proto)
  }

  function IfOther(s: Service, service: string, proto: string): seq<Service> {
    if SameType(s, service, proto) then [] else [s]
  }

  function OtherServices(services: seq<Service>, service: string, proto: string): seq<Service> {
    if services == [] then []
    else IfOther(services[0], service, proto) + OtherServices(services[1..], service, proto)
  }

  /** What is left of an entry. */
  function EntryLeft(e: Entry, service: string, proto: string): seq<Entry> {
    var left := OtherServices(e.services, service, proto);
    if left == [] then [] else [e.(services := left)]
  }

  /** remove_service_caches */
  function RemoveType(cache: seq<Entry>, service: string, proto: string): seq<Entry> {
    if cache == [] then [] else EntryLeft(cache[0], service, proto) + RemoveType(cache[1..], service, proto)
  }

  // ----- notices -----

  function AddrsOf(addrs: seq<CachedAddr>): seq<int> {
    seq(|addrs|, i requires 0 <= i < |addrs| => addrs[i].addr)
  }

  /** A service with the entry data that its result shows. */
  datatype Slot = Slot(host: string, link: Link, addrs: seq<CachedAddr>, s: Service)

  /** mdns_priv_service_cache_to_result */
  function Project(slot: Slot): Notice {
    var s := slot.s;
    Notice(slot.link, s.instance, s.service, s.proto, s.ptrTtl,
           if s.srv then slot.host else "",
           if s.srv then s.port else 0,
           if s.srv then AddrsOf(slot.addrs) else [],
           if s.txt then AllDelivered(s.txtList) else [])
  }

  function Goodbye(slot: Slot): Notice {
    Project(slot).(ttl := 0)
  }

  /** browse_matches_service_cache */
  predicate Matches(b: Browse, s: Service) {
    b.state == BrowseRunning && b.notifier && s.ptr && SameType(s, b.service, b.proto)
  }

  function Told(b: Browse, n: Notice): Browse {
    b.(log := b.log + [n])
  }

  function NotifyMatching(browses: seq<Browse>, s: Service, n: Notice): (r: seq<Browse>)
    ensures |r| == |browses|
    ensures forall i :: 0 <= i < |browses| ==>
            r[i] == if Matches(browses[i], s) then Told(browses[i], n) else browses[i]
  {
    seq(|browses|, i requires 0 <= i < |browses| => if Matches(browses[i], s) then Told(browses[i], n) else browses[i])
  }

  function SlotAt(e: Entry, j: nat): Slot
    requires j < |e.services|
  {
    Slot(e.host, e.link, e.addrs, e.services[j])
  }

  function EntrySlots(e: Entry): (r: seq<Slot>)
    ensures |r| == |e.services|
    ensures forall j :: 0 <= j < |e.services| ==> r[j] == SlotAt(e, j)
  {
    seq(|e.services|, j requires 0 <= j < |e.services| => SlotAt(e, j))
  }

  /** Every cached service, in list order. */
  function Slots(cache: seq<Entry>): seq<Slot> {
    if cache == [] then [] else EntrySlots(cache[0]) + Slots(cache[1..])
  }

  lemma SlotsOfFirst(cache: seq<Entry>)
    requires cache != []
    ensures Slots(cache) == EntrySlots(cache[0]) + Slots(cache[1..])
  {
  }

  // ----- updates -----

  /** mdns_priv_cache_update_ptr */
  function UpdatePtr(st: State, link: Link, instance: string, service: string, proto: string, ttl: nat)
      : (State, UpdateResult) {
    if instance == "" || service == "" || proto == "" then (st, NoChange)
    else
      var i := FindOwner(st.cache, link, instance, service, proto);
      if ttl == 0 then
        if i == |st.cache| then (st, NoChange)
        else
          var j := FindIn(st.cache[i].services, instance, service, proto);
          var slot := SlotAt(st.cache[i], j);
          var told := if slot.s.ptr then NotifyMatching(st.browses, slot.s, Goodbye(slot)) else st.browses;
          (State(RemoveService(st.cache, i, j), told), Removed)
      else if i == |st.cache| then
        var s := NewService(instance, service, proto).(ptr := true, ptrTtl := ttl);
        (st.(cache := PushService(WithEntry(st.cache, "", link), EntryIndex(st.cache, "", link),
            Marked(s, Added, PtrRecord))), Added)
      else
        var j := FindIn(st.cache[i].services, instance, service, proto);
        var s := st.cache[i].services[j];
        var result := if s.ptr && s.ptrTtl == ttl then NoChange else Updated;
        (st.(cache := PutService(st.cache, i, j, Marked(s.(ptr := true, ptrTtl := ttl), result, PtrRecord))), result)
  }

  function SrvSet(s: Service, priority: nat, weight: nat, port: nat, ttl: nat): Service {
    s.(srv := true, priority := priority, weight := weight, port := port, srvTtl := ttl)
  }

  function AfterGoodbye(st: State, i: nat, j: nat, s: Service, record: Record): (State, UpdateResult)
    requires i < |st.cache| && j < |st.cache[i].services|
  {
    if HasRecord(s) then (st.(cache := PutService(st.cache, i, j, Marked(s, Updated, record))), Updated)
    else (st.(cache := RemoveService(st.cache, i, j)), Removed)
  }

  /** mdns_priv_cache_update_srv */
  function UpdateSrv(st: State, link: Link, host: string, instance: string, service: string, proto: string,
                     priority: nat, weight: nat, port: nat, ttl: nat): (State, UpdateResult) {
    var i := FindOwner(st.cache, link, instance, service, proto);
    if ttl == 0 then
      if i == |st.cache| then (st, NoChange)
      else
        var j := FindIn(st.cache[i].services, instance, service, proto);
        var s := st.cache[i].services[j];
        if !s.srv then (st, NoChange)
        else AfterGoodbye(st, i, j, s.(srv := false, priority := 0, weight := 0, port := 0, srvTtl := 0), SrvRecord)
    else if i == |st.cache| then
      var s := SrvSet(NewService(instance, service, proto), priority, weight, port, ttl);
      (st.(cache := PushService(WithEntry(st.cache, host, link), EntryIndex(st.cache, host, link),
          Marked(s, Added, SrvRecord))), Added)
    else
      var j := FindIn(st.cache[i].services, instance, service, proto);
      var s := st.cache[i].services[j];
      var s' := SrvSet(s, priority, weight, port, ttl);
      if NamesEqual(st.cache[i].host, host) || FindEntry(st.cache, host, link) == i then
        var result := if s' == s then NoChange else Updated;
        (st.(cache := PutService(st.cache, i, j, Marked(s', result, SrvRecord))), result)
      else
        var cache := WithEntry(st.cache, host, link);
        var owner := if |cache| == |st.cache| then i else i + 1;
        (st.(cache := MoveService(cache, owner, j, EntryIndex(st.cache, host, link),
            Marked(s', Updated, SrvRecord))), Updated)
  }

  predicate TxtItemEqual(a: TxtItem, b: TxtItem) {
    NamesEqual(a.key, b.key) && a.value == b.value
  }

  predicate TxtListContains(list: seq<TxtItem>, item: TxtItem) {
    exists k :: 0 <= k < |list| && TxtItemEqual(list[k], item)
  }

  /** txt_list_equal: equal counts, and each item of the first among those of the second. */
  predicate TxtListEqual(a: seq<TxtItem>, b: seq<TxtItem>) {
    (a == [] && b == []) ||
    (|a| == |b| && forall i :: 0 <= i < |a| ==> TxtListContains(b, a[i]))
  }

  /** mdns_priv_cache_update_txt */
  function UpdateTxt(st: State, link: Link, instance: string, service: string, proto: string,
                     txt: seq<TxtItem>, ttl: nat): (State, UpdateResult) {
    var i := FindOwner(st.cache, link, instance, service, proto);
    if ttl == 0 then
      if i == |st.cache| then (st, NoChange)
      else
        var j := FindIn(st.cache[i].services, instance, service, proto);
        var s := st.cache[i].services[j];
        if !s.txt then (st, NoChange)
        else AfterGoodbye(st, i, j, s.(txt := false, txtList := [], txtTtl := 0), TxtRecord)
    else if i == |st.cache| then
      var s := NewService(instance, service, proto).(txt := true, txtList := txt, txtTtl := ttl);
      (st.(cache := PushService(WithEntry(st.cache, "", link), EntryIndex(st.cache, "", link),
          Marked(s, Added, TxtRecord))), Added)
    else
      var j := FindIn(st.cache[i].services, instance, service, proto);
      var s := st.cache[i].services[j];
      if TxtListEqual(s.txtList, txt) && s.txt && s.txtTtl == ttl then (st, NoChange)
      else
        (st.(cache := PutService(st.cache, i, j,
            Marked(s.(txt := true, txtList := txt, txtTtl := ttl), Updated, TxtRecord))),
         Updated)
  }

  function FindAddr(addrs: seq<CachedAddr>, addr: int): (k: nat)
    ensures k <= |addrs|
    ensures k < |addrs| ==> addrs[k].addr == addr
  {
    if addrs == [] || addrs[0].addr == addr then 0 else 1 + FindAddr(addrs[1..], addr)
  }

  function MarkedAll(services: seq<Service>, result: UpdateResult, record: Record): (r: seq<Service>)
    ensures |r| == |services|
    ensures forall j :: 0 <= j < |services| ==> r[j] == Marked(services[j], result, record)
  {
    seq(|services|, j requires 0 <= j < |services| => Marked(services[j], result, record))
  }

  function PutAddrs(cache: seq<Entry>, i: nat, addrs: seq<CachedAddr>, result: UpdateResult): (r: seq<Entry>)
    requires i < |cache|
    ensures |r| == |cache|
  {
    cache[i := cache[i].(addrs := addrs, services := MarkedAll(cache[i].services, result, AddrRecord))]
  }

  /** cache_update_addr; packets only use it with `create` false. */
  function UpdateAddr(st: State, link: Link, host: string, addr: int, ttl: nat, create: bool): (State, UpdateResult) {
    var i := FindEntry(st.cache, host, link);
    if ttl == 0 then
      if i == |st.cache| then (st, NoChange)
      else
        var k := FindAddr(st.cache[i].addrs, addr);
        if k == |st.cache[i].addrs| then (st, NoChange)
        else
          var cache := PutAddrs(st.cache, i, RemoveAt(st.cache[i].addrs, k), Updated);
          (st.(cache := if cache[i].addrs == [] then DropIfBare(cache, i) else cache), Removed)
    else if i == |st.cache| && !create then (st, NoChange)
    else
      var cache, at := WithEntry(st.cache, host, link), EntryIndex(st.cache, host, link);
      var addrs := cache[at].addrs;
      var k := FindAddr(addrs, addr);
      if k < |addrs| && addrs[k].ttl == ttl then (st.(cache := cache), NoChange)
      else
        var updated := if k < |addrs| then addrs[k := CachedAddr(addr, ttl)] else [CachedAddr(addr, ttl)] + addrs;
        (st.(cache := PutAddrs(cache, at, updated, Updated)), Updated)
  }

  // ----- browsers -----

  predicate BrowseIs(b: Browse, service: string, proto: string) {
    NamesEqual(b.service, service) && NamesEqual(b.proto, proto)
  }

  /** mdns_priv_browse_has_service */
  predicate HasBrowse(browses: seq<Browse>, service: string, proto: string) {
    exists i :: 0 <= i < |browses| && browses[i].state != BrowseOff && BrowseIs(browses[i], service, proto)
  }

  /** mdns_browse_new; `id` is the new node. */
  function BrowseNew(st: State, id: nat, service: string, proto: string, notifier: bool): State {
    if service == "" || proto == "" || HasBrowse(st.browses, service, proto) then st
    else st.(browses := [Browse(id, service, proto, BrowseInit, notifier, [])] + st.browses)
  }

  function FindBrowse(browses: seq<Browse>, service: string, proto: string): (i: nat)
    ensures i <= |browses|
  {
    if browses == [] || (browses[0].state != BrowseOff && BrowseIs(browses[0], service, proto)) then 0
    else 1 + FindBrowse(browses[1..], service, proto)
  }

  /** mdns_browse_delete */
  function BrowseDelete(st: State, service: string, proto: string): State {
    var i := FindBrowse(st.browses, service, proto);
    if service == "" || proto == "" || i == |st.browses| then st
    else st.(browses := st.browses[i := st.browses[i].(state := BrowseOff)])
  }

  function Replay(b: Browse, slots: seq<Slot>): Browse
    decreases |slots|
  {
    if slots == [] then b
    else Replay(if Matches(b, slots[0].s) then Told(b, Project(slots[0])) else b, slots[1..])
  }

  function Started(b: Browse, id: nat, slots: seq<Slot>): Browse {
    if b.id == id && b.state == BrowseInit then Replay(b.(state := BrowseRunning), slots) else b
  }

  /** browse_start: a browser begins with a replay of the cache. */
  function BrowseStart(st: State, id: nat): State {
    st.(browses := seq(|st.browses|, i requires 0 <= i < |st.browses| => Started(st.browses[i], id, Slots(st.cache))))
  }

  function IndexOfBrowse(browses: seq<Browse>, id: nat): (i: nat)
    ensures i <= |browses|
    ensures i < |browses| ==> browses[i].id == id
  {
    if browses == [] || browses[0].id == id then 0 else 1 + IndexOfBrowse(browses[1..], id)
  }

  /** browse_finish: the last browser of a type takes the cached services of that type with it. */
  function BrowseFinish(st: State, id: nat): State {
    var i := IndexOfBrowse(st.browses, id);
    if i == |st.browses| then st
    else
      var b := st.browses[i];
      var left := RemoveAt(st.browses, i);
      if b.service == "" || b.proto == "" || HasBrowse(left, b.service, b.proto) then st.(browses := left)
      else State(RemoveType(st.cache, b.service, b.proto), left)
  }

  // ----- the end of a packet -----

  /** mdns_priv_browse_update_from_service_cache for one service */
  function SyncSlot(browses: seq<Browse>, slot: Slot): (r: seq<Browse>)
    ensures |r| == |browses|
  {
    if slot.s.dirty && slot.s.records != {} then NotifyMatching(browses, slot.s, Project(slot)) else browses
  }

  function SyncSlots(browses: seq<Browse>, slots: seq<Slot>): (r: seq<Browse>)
    ensures |r| == |browses|
    decreases |slots|
  {
    if slots == [] then browses else SyncSlots(SyncSlot(browses, slots[0]), slots[1..])
  }

  function ClearedEntry(e: Entry): Entry {
    e.(services := seq(|e.services|, j requires 0 <= j < |e.services| =>
      if e.services[j].dirty then Cleared(e.services[j]) else e.services[j]))
  }

  function ClearedCache(cache: seq<Entry>): (r: seq<Entry>)
    ensures |r| == |cache|
    ensures forall i :: 0 <= i < |cache| ==> r[i] == ClearedEntry(cache[i])
  {
    seq(|cache|, i requires 0 <= i < |cache| => ClearedEntry(cache[i]))
  }

  /** mdns_priv_cache_process_sync */
  function ProcessSync(st: State): State {
    State(ClearedCache(st.cache), SyncSlots(st.browses, Slots(st.cache)))
  }

  /** One record of a received packet that reaches the cache. */
  datatype Update =
    | PtrUpdate(instance: string, service: string, proto: string, ttl: nat)
    | SrvUpdate(host: string, instance: string, service: string, proto: string, priority: nat, weight: nat,
        port: nat, ttl: nat)
    | TxtUpdate(instance: string, service: string, proto: string, txt: seq<TxtItem>, ttl: nat)
    | AddrUpdate(host: string, addr: int, ttl: nat)

  function Apply(st: State, link: Link, u: Update): State {
    match u
    case PtrUpdate(instance, service, proto, ttl) => UpdatePtr(st, link, instance, service, proto, ttl).0
    case SrvUpdate(host, instance, service, proto, priority, weight, port, ttl) =>
      UpdateSrv(st, link, host, instance, service, proto, priority, weight, port, ttl).0
    case TxtUpdate(instance, service, proto, txt, ttl) => UpdateTxt(st, link, instance, service, proto, txt, ttl).0
    case AddrUpdate(host, addr, ttl) => UpdateAddr(st, link, host, addr, ttl, false).0
  }

  function ApplyAll(st: State, link: Link, us: seq<Update>): State
    decreases |us|
  {
    if us == [] then st else ApplyAll(Apply(st, link, us[0]), link, us[1..])
  }

  /** What can happen between two packets, and a packet as a whole. */
  datatype Event =
    | NewBrowse(id: nat, service: string, proto: string, notifier: bool)
    | DeleteBrowse(service: string, proto: string)
    | StartBrowse(id: nat)
    | FinishBrowse(id: nat)
    | Packet(link: Link, updates: seq<Update>)

  function Step(st: State, e: Event): State {
    match e
    case NewBrowse(id, service, proto, notifier) => BrowseNew(st, id, service, proto, notifier)
    case DeleteBrowse(service, proto) => BrowseDelete(st, service, proto)
    case StartBrowse(id) => BrowseStart(st, id)
    case FinishBrowse(id) => BrowseFinish(st, id)
    case Packet(link, updates) => ProcessSync(ApplyAll(st, link, updates))
  }

  function Run(st: State, events: seq<Event>): State
    decreases |events|
  {
    if events == [] then st else Run(Step(st, events[0]), events[1..])
  }

  const EMPTY: State := State([], [])
}
