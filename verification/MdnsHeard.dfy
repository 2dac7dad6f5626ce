/** What the records of all packets said last, and that the cache and the browsers agree with it. */
module MdnsHeard {
  import opened CStrings
  import opened MdnsCache
  import opened MdnsCommon
  import opened MdnsViews
  import opened MdnsProofs
  import opened MdnsRuns
  import opened Options
  import opened Sequences

  // ----- the reference: a table of what was heard -----

  /** A service on a link, by its names without regard to case. */
  datatype Name = Name(link: Link, instance: string, service: string, proto: string)

  datatype SrvData = SrvData(priority: nat, weight: nat, port: nat, ttl: nat)

  datatype TxtData = TxtData(items: seq<TxtItem>, ttl: nat)

  /** What was heard of a service: its host and its records. */
  datatype Row = Row(host: string, ptr: Option<nat>, srv: Option<SrvData>, txt: Option<TxtData>)

  datatype Host = Host(link: Link, name: string)

  datatype Table = Table(rows: map<Name, Row>, addrs: map<Host, map<int, nat>>)

  const NOTHING: Table := Table(map[], map[])

  function NameFor(link: Link, instance: string, service: string, proto: string): Name {
    Name(link, Fold(instance), Fold(service), Fold(proto))
  }

  function RowAt(t: Table, n: Name): Row {
    if n in t.rows then t.rows[n] else Row("", None, None, None)
  }

  function AddrsAt(t: Table, h: Host): map<int, nat> {
    if h in t.addrs then t.addrs[h] else map[]
  }

  ghost predicate Lives(t: Table, h: Host) {
    exists n :: n in t.rows && HostAt(t, n) == h
  }

  function HostAt(t: Table, n: Name): Host
    requires n in t.rows
  {
    Host(n.link, t.rows[n].host)
  }

  /** The addresses of a host go with its last service. */
  ghost function Settle(t: Table): Table {
    t.(addrs := map h | h in t.addrs && Lives(t, h) :: t.addrs[h])
  }

  ghost function SetRow(t: Table, n: Name, row: Row): Table {
    Settle(t.(rows := t.rows[n := row]))
  }

  ghost function DropRow(t: Table, n: Name): Table {
    Settle(t.(rows := t.rows - {n}))
  }

  /** A service without any record is forgotten. */
  ghost function Withdrawn(t: Table, n: Name, row: Row): Table {
    if row.ptr == None && row.srv == None && row.txt == None then DropRow(t, n) else SetRow(t, n, row)
  }

  /** One record: the last one of its kind counts, and a TTL of zero takes it back; a PTR goodbye takes all. */
  ghost function Learn(t: Table, link: Link, u: Update): Table {
    match u
    case PtrUpdate(instance, service, proto, ttl) =>
      var n := NameFor(link, instance, service, proto);
      if instance == "" || service == "" || proto == "" then t
      else if ttl == 0 then DropRow(t, n)
      else SetRow(t, n, RowAt(t, n).(ptr := Some(ttl)))
    case SrvUpdate(host, instance, service, proto, priority, weight, port, ttl) =>
      var n := NameFor(link, instance, service, proto);
      if ttl == 0 then if n in t.rows then Withdrawn(t, n, t.rows[n].(srv := None)) else t
      else SetRow(t, n, RowAt(t, n).(host := Fold(host), srv := Some(SrvData(priority, weight, port, ttl))))
    case TxtUpdate(instance, service, proto, items, ttl) =>
      var n := NameFor(link, instance, service, proto);
      if ttl == 0 then if n in t.rows then Withdrawn(t, n, t.rows[n].(txt := None)) else t
      else SetRow(t, n, RowAt(t, n).(txt := Some(TxtData(items, ttl))))
    case AddrUpdate(host, addr, ttl) =>
      var h := Host(link, Fold(host));
      if !Lives(t, h) then t
      else t.(addrs := t.addrs[h := if ttl == 0 then AddrsAt(t, h) - {addr} else AddrsAt(t, h)[addr := ttl]])
  }

  ghost function LearnAll(t: Table, link: Link, us: seq<Update>): Table
    decreases |us|
  {
    if us == [] then t else LearnAll(Learn(t, link, us[0]), link, us[1..])
  }

  predicate OfType(n: Name, service: string, proto: string) {
    n.service == Fold(service) && n.proto == Fold(proto)
  }

  /** Another browser of the type is left that has not been stopped. */
  predicate OthersListen(browses: seq<Browse>, i: nat)
    requires i < |browses|
  {
    exists j :: 0 <= j < |browses| && j != i && browses[j].state != BrowseOff
                && Fold(browses[j].service) == Fold(browses[i].service)
                && Fold(browses[j].proto) == Fold(browses[i].proto)
  }

  /** The end of the last browser of a type forgets the services of the type. */
  ghost function LearnStep(st: State, t: Table, e: Event): Table {
    match e
    case Packet(link, updates) => LearnAll(t, link, updates)
    case FinishBrowse(id) =>
      var i := IndexOfBrowse(st.browses, id);
      if i == |st.browses| || st.browses[i].service == "" || st.browses[i].proto == "" || OthersListen(st.browses, i)
      then t
      else
        var b := st.browses[i];
        Settle(t.(rows := map n | n in t.rows && !OfType(n, b.service, b.proto) :: t.rows[n]))
    case _ => t
  }

  ghost function LearnRun(st: State, t: Table, events: seq<Event>): Table
    decreases |events|
  {
    if events == [] then t else LearnRun(Step(st, events[0]), LearnStep(st, t, events[0]), events[1..])
  }

  /** The receiver hands on SRV and TXT records of services with full names only. */
  predicate FullyNamed(u: Update) {
    match u
    case SrvUpdate(_, instance, service, proto, _, _, _, _) => instance != "" && service != "" && proto != ""
    case TxtUpdate(instance, service, proto, _, _) => instance != "" && service != "" && proto != ""
    case _ => true
  }

  predicate Receivable(e: Event) {
    e.Packet? ==> forall k :: 0 <= k < |e.updates| ==> FullyNamed(e.updates[k])
  }

  // ----- a cached service against its row -----

  function NameOf(a: Slot): Name {
    NameFor(a.link, a.s.instance, a.s.service, a.s.proto)
  }

  function HostOf(a: Slot): Host {
    Host(a.link, Fold(a.host))
  }

  /** The list kept is the one heard last, or one that the comparison of lists takes for it. */
  predicate TxtLike(kept: seq<TxtItem>, heard: seq<TxtItem>) {
    kept == heard || TxtListEqual(kept, heard)
  }

  predicate RecordsShow(s: Service, row: Row) {
    && s.ptr == row.ptr.Some? && (s.ptr ==> row.ptr.value == s.ptrTtl)
    && s.srv == row.srv.Some? && (s.srv ==> row.srv.value == SrvData(s.priority, s.weight, s.port, s.srvTtl))
    && s.txt == row.txt.Some? && (s.txt ==> row.txt.value.ttl == s.txtTtl && TxtLike(s.txtList, row.txt.value.items))
  }

  /** Each address once, with its TTL. */
  ghost predicate AddrsShow(addrs: seq<CachedAddr>, m: map<int, nat>) {
    && (forall k :: 0 <= k < |addrs| ==> addrs[k].addr in m && m[addrs[k].addr] == addrs[k].ttl)
    && (forall x :: x in m ==> exists k :: 0 <= k < |addrs| && addrs[k].addr == x)
    && (forall j, k :: 0 <= j < k < |addrs| ==> addrs[j].addr != addrs[k].addr)
  }

  ghost predicate SlotShows(a: Slot, t: Table) {
    && Named(a.s) && NameOf(a) in t.rows
    && RecordsShow(a.s, t.rows[NameOf(a)]) && t.rows[NameOf(a)].host == Fold(a.host)
    && AddrsShow(a.addrs, AddrsAt(t, HostOf(a)))
  }

  /** The cached services are those of the table, and say what it says. */
  ghost predicate Shows(bag: multiset<Slot>, t: Table) {
    && (forall a :: a in bag ==> SlotShows(a, t))
    && (forall n :: n in t.rows ==> exists a :: a in bag && NameOf(a) == n)
    && (forall h :: h in t.addrs ==> Lives(t, h))
  }

  lemma SameName(bag: multiset<Slot>, a: Slot, b: Slot)
    requires Unique(bag) && a in bag && b in bag && Named(a.s) && NameOf(a) == NameOf(b)
    ensures a == b && bag[a] == 1
  {
    assert SameService(a, b);
  }

  // ----- one service changes -----

  /** No other service has the name. */
  ghost predicate Alone(bag: multiset<Slot>, n: Name) {
    forall a :: a in bag ==> NameOf(a) != n
  }

  lemma SettledAddrs(t: Table, n: Name)
    requires n in t.rows
    ensures AddrsAt(Settle(t), HostAt(t, n)) == AddrsAt(t, HostAt(t, n))
  {
    assert Lives(t, HostAt(t, n));
  }

  lemma SettledLives(t: Table)
    ensures forall h :: h in Settle(t).addrs ==> Lives(Settle(t), h)
  {
    forall h | h in Settle(t).addrs ensures Lives(Settle(t), h) {
      var n :| n in t.rows && HostAt(t, n) == h;
      assert HostAt(Settle(t), n) == h;
    }
  }

  /** A service whose row stays. */
  lemma KeptShows(a: Slot, t: Table, rows: map<Name, Row>)
    requires SlotShows(a, t) && NameOf(a) in rows && rows[NameOf(a)] == t.rows[NameOf(a)]
    ensures SlotShows(a, Settle(t.(rows := rows)))
  {
    hide RecordsShow, AddrsShow, Named, Settle;
    SettledAddrs(t.(rows := rows), NameOf(a));
    SettleRows(t.(rows := rows));
  }

  lemma SettleRows(t: Table)
    ensures Settle(t).rows == t.rows
  {
  }

  lemma SetShows(rest: multiset<Slot>, gone: multiset<Slot>, after: Slot, t: Table, row: Row)
    requires Shows(rest + gone, t) && Alone(rest, NameOf(after))
    requires forall g :: g in gone ==> NameOf(g) == NameOf(after)
    requires Named(after.s) && RecordsShow(after.s, row) && row.host == Fold(after.host)
    requires AddrsShow(after.addrs, AddrsAt(t, HostOf(after)))
    ensures Shows(rest + multiset{after}, SetRow(t, NameOf(after), row))
  {
    hide RecordsShow, AddrsShow, Named, SlotShows, NameOf, Settle;
    var n := NameOf(after);
    var bag, rows := rest + multiset{after}, t.rows[n := row];
    SettleRows(t.(rows := rows));
    forall a | a in bag ensures SlotShows(a, SetRow(t, n, row)) {
      if a == after {
        SetShowsIt(after, t, row);
      } else {
        assert a in rest + gone && SlotShows(a, t);
        assert NameOf(a) in t.rows by { SlotInTable(a, t); }
        KeptShows(a, t, rows);
      }
    }
    forall m | m in rows ensures exists a :: a in bag && NameOf(a) == m {
      if m == n {
        assert after in bag;
      } else {
        var a :| a in rest + gone && NameOf(a) == m;
        assert a in bag;
      }
    }
    SettledLives(t.(rows := rows));
  }

  lemma SlotInTable(a: Slot, t: Table)
    requires SlotShows(a, t)
    ensures NameOf(a) in t.rows && Named(a.s)
  {
  }

  lemma SetShowsIt(after: Slot, t: Table, row: Row)
    requires Named(after.s) && RecordsShow(after.s, row) && row.host == Fold(after.host)
    requires AddrsShow(after.addrs, AddrsAt(t, HostOf(after)))
    ensures SlotShows(after, SetRow(t, NameOf(after), row))
  {
    hide RecordsShow, AddrsShow, Named, Settle;
    var t' := t.(rows := t.rows[NameOf(after) := row]);
    SettleRows(t');
    SettledAddrs(t', NameOf(after));
  }

  lemma DropShows(rest: multiset<Slot>, gone: Slot, t: Table)
    requires Shows(rest + multiset{gone}, t) && Alone(rest, NameOf(gone))
    ensures Shows(rest, DropRow(t, NameOf(gone)))
  {
    hide RecordsShow, AddrsShow, Named, SlotShows, NameOf, Settle;
    var n := NameOf(gone);
    var rows := t.rows - {n};
    SettleRows(t.(rows := rows));
    forall a | a in rest ensures SlotShows(a, DropRow(t, n)) {
      assert a in rest + multiset{gone} && SlotShows(a, t);
      SlotInTable(a, t);
      KeptShows(a, t, rows);
    }
    forall m | m in rows ensures exists a :: a in rest && NameOf(a) == m {
      var a :| a in rest + multiset{gone} && NameOf(a) == m;
      assert a in rest;
    }
    SettledLives(t.(rows := rows));
  }

  // ----- the lists -----

  lemma {:induction false} SlotFound(cache: seq<Entry>, a: Slot) returns (i: nat, j: nat)
    requires a in Slots(cache)
    ensures i < |cache| && j < |cache[i].services| && a == SlotAt(cache[i], j)
    decreases |cache|
  {
    if a in EntrySlots(cache[0]) {
      i := 0;
      j :| 0 <= j < |EntrySlots(cache[0])| && EntrySlots(cache[0])[j] == a;
    } else {
      assert a in Slots(cache[1..]);
      i, j := SlotFound(cache[1..], a);
      i := i + 1;
    }
  }

  lemma SlotCached(cache: seq<Entry>, i: nat, j: nat)
    requires i < |cache| && j < |cache[i].services|
    ensures SlotAt(cache[i], j) in Bag(cache)
  {
    PutBag(cache, i, j, cache[i].services[j]);
  }

  lemma NamesMatch(a: string, b: string)
    ensures NullableNamesEqual(a, b) <==> Fold(a) == Fold(b)
  {
    if Fold(a) == Fold(b) { assert |a| == |b|; }
  }

  ghost predicate Known(st: State, t: Table) {
    Good(Bag(st.cache), st.browses) && Tidy(st.cache) && Shows(Bag(st.cache), t)
  }

  /** The service that a record is about. */
  lemma FoundShows(st: State, t: Table, link: Link, instance: string, service: string, proto: string)
      returns (i: nat, j: nat)
    requires Known(st, t) && FindOwner(st.cache, link, instance, service, proto) < |st.cache|
    ensures i == FindOwner(st.cache, link, instance, service, proto) < |st.cache|
    ensures j == FindIn(st.cache[i].services, instance, service, proto) < |st.cache[i].services|
    ensures var slot := SlotAt(st.cache[i], j);
            && slot in Bag(st.cache) && slot.link == link && SlotShows(slot, t) && SlotOk(slot)
            && NameOf(slot) == NameFor(link, instance, service, proto)
            && Alone(Bag(st.cache) - multiset{slot}, NameOf(slot))
  {
    hide Bag, SlotShows, AllViewsOk;
    i := FindOwner(st.cache, link, instance, service, proto);
    j := FindIn(st.cache[i].services, instance, service, proto);
    var slot := SlotAt(st.cache[i], j);
    SlotCached(st.cache, i, j);
    SlotInTable(slot, t);
    forall a | a in Bag(st.cache) - multiset{slot} ensures NameOf(a) != NameOf(slot) {
      if NameOf(a) == NameOf(slot) { SameName(Bag(st.cache), slot, a); }
    }
  }

  lemma NotFoundShows(st: State, t: Table, link: Link, instance: string, service: string, proto: string)
    requires Known(st, t) && FindOwner(st.cache, link, instance, service, proto) == |st.cache|
    requires instance != "" && service != "" && proto != ""
    ensures NameFor(link, instance, service, proto) !in t.rows
    ensures Alone(Bag(st.cache), NameFor(link, instance, service, proto))
  {
    hide Bag, SlotShows, Good;
    forall a | a in Bag(st.cache) ensures NameOf(a) != NameFor(link, instance, service, proto) {
      NotFound(st.cache, link, instance, service, proto, a);
      NamesAfterFold(a.s.instance, instance);
      NamesAfterFold(a.s.service, service);
      NamesAfterFold(a.s.proto, proto);
    }
  }

  /** A host's entry has the addresses that the table has for it. */
  lemma EntryShows(st: State, t: Table, host: string, link: Link)
    requires Known(st, t)
    ensures var e := WithEntry(st.cache, host, link)[EntryIndex(st.cache, host, link)];
            e.link == link && Fold(e.host) == Fold(host) && AddrsShow(e.addrs, AddrsAt(t, Host(link, Fold(host))))
  {
    hide Known, AddrsShow, Lives;
    var i := FindEntry(st.cache, host, link);
    if i < |st.cache| {
      NamesMatch(st.cache[i].host, host);
      HostLives(st, t, i);
    } else {
      NoHost(st, t, host, link);
      KnownShows(st, t);
      NoAddresses(Host(link, Fold(host)), t);
    }
  }

  lemma NoAddresses(h: Host, t: Table)
    requires !Lives(t, h) && forall g :: g in t.addrs ==> Lives(t, g)
    ensures AddrsShow([], AddrsAt(t, h))
  {
  }

  lemma BagWithout(bag: multiset<Slot>, a: Slot)
    requires a in bag
    ensures bag == bag - multiset{a} + multiset{a}
  {
  }

  lemma PutShows(st: State, t: Table, i: nat, j: nat, s: Service, row: Row)
    requires Known(st, t) && i < |st.cache| && j < |st.cache[i].services|
    requires var slot := SlotAt(st.cache[i], j);
             && SlotShows(slot, t) && NameOf(slot.(s := s)) == NameOf(slot) && Named(s)
             && Alone(Bag(st.cache) - multiset{slot}, NameOf(slot))
    requires RecordsShow(s, row) && row.host == Fold(st.cache[i].host)
    ensures Shows(Bag(PutService(st.cache, i, j, s)), SetRow(t, NameOf(SlotAt(st.cache[i], j)), row))
  {
    hide Bag, Good, Tidy, RecordsShow, AddrsShow, SetRow, PutService, Shows;
    var slot := SlotAt(st.cache[i], j);
    PutBag(st.cache, i, j, s);
    BagWithout(Bag(st.cache), slot);
    SetShows(Bag(st.cache) - multiset{slot}, multiset{slot}, slot.(s := s), t, row);
  }

  lemma NewShows(st: State, t: Table, link: Link, host: string, s: Service, row: Row)
    requires Known(st, t) && Named(s) && Alone(Bag(st.cache), NameFor(link, s.instance, s.service, s.proto))
    requires RecordsShow(s, row) && row.host == Fold(host)
    ensures Shows(Bag(PushService(WithEntry(st.cache, host, link), EntryIndex(st.cache, host, link), s)),
                  SetRow(t, NameFor(link, s.instance, s.service, s.proto), row))
  {
    hide Bag, Good, Tidy, RecordsShow, AddrsShow, SetRow, PushService, Shows, WithEntry, EntryIndex;
    var cache, at := WithEntry(st.cache, host, link), EntryIndex(st.cache, host, link);
    EntryShows(st, t, host, link);
    WithEntryBag(st.cache, host, link);
    PushBag(cache, at, s);
    var slot := Slot(cache[at].host, cache[at].link, cache[at].addrs, s);
    assert Bag(st.cache) == Bag(st.cache) + multiset{};
    SetShows(Bag(st.cache), multiset{}, slot, t, row);
  }

  lemma RemoveShows(st: State, t: Table, i: nat, j: nat)
    requires Known(st, t) && i < |st.cache| && j < |st.cache[i].services|
    requires Alone(Bag(st.cache) - multiset{SlotAt(st.cache[i], j)}, NameOf(SlotAt(st.cache[i], j)))
    ensures Shows(Bag(RemoveService(st.cache, i, j)), DropRow(t, NameOf(SlotAt(st.cache[i], j))))
  {
    hide Bag, Good, Tidy, DropRow, RemoveService, Shows;
    var slot := SlotAt(st.cache[i], j);
    RemoveBag(st.cache, i, j);
    BagWithout(Bag(st.cache), slot);
    DropShows(Bag(st.cache) - multiset{slot}, slot, t);
  }

  lemma MoveShows(st: State, t: Table, link: Link, host: string, i: nat, j: nat, s: Service, row: Row)
    requires Known(st, t) && i < |st.cache| && j < |st.cache[i].services| && st.cache[i].link == link
    requires FindEntry(st.cache, host, link) != i
    requires var slot := SlotAt(st.cache[i], j);
             && NameOf(slot.(s := s)) == NameOf(slot) && Named(s)
             && Alone(Bag(st.cache) - multiset{slot}, NameOf(slot))
    requires RecordsShow(s, row) && row.host == Fold(host)
    ensures var cache := WithEntry(st.cache, host, link);
            var owner := if |cache| == |st.cache| then i else i + 1;
            owner < |cache| && j < |cache[owner].services| && EntryIndex(st.cache, host, link) != owner
            && Shows(Bag(MoveService(cache, owner, j, EntryIndex(st.cache, host, link), s)),
                     SetRow(t, NameOf(SlotAt(st.cache[i], j)), row))
  {
    hide Bag, Good, Tidy, RecordsShow, AddrsShow, SetRow, MoveService, Shows, Alone;
    var slot := SlotAt(st.cache[i], j);
    var cache, at := WithEntry(st.cache, host, link), EntryIndex(st.cache, host, link);
    var owner := if |cache| == |st.cache| then i else i + 1;
    EntryShows(st, t, host, link);
    WithEntryBag(st.cache, host, link);
    assert SlotAt(cache[owner], j) == slot;
    MoveBag(cache, owner, j, at, s);
    BagWithout(Bag(st.cache), slot);
    SetShows(Bag(st.cache) - multiset{slot}, multiset{slot},
             Slot(cache[at].host, cache[at].link, cache[at].addrs, s), t, row);
  }

  // ----- one record -----

  lemma PtrShows(st: State, t: Table, link: Link, instance: string, service: string, proto: string, ttl: nat)
    requires Known(st, t)
    ensures Shows(Bag(UpdatePtr(st, link, instance, service, proto, ttl).0.cache),
                  Learn(t, link, PtrUpdate(instance, service, proto, ttl)))
  {
    hide Bag, Known, Shows, Alone, SetRow, DropRow, PutService, RemoveService, PushService, NotifyMatching, AddrsShow,
        FindOwner, FindIn, WithEntry, EntryIndex;
    var n := NameFor(link, instance, service, proto);
    if instance == "" || service == "" || proto == "" {
      assert Shows(Bag(st.cache), t) by { KnownShows(st, t); }
    } else if FindOwner(st.cache, link, instance, service, proto) == |st.cache| {
      NotFoundShows(st, t, link, instance, service, proto);
      if ttl == 0 {
        assert Shows(Bag(st.cache), t) by { KnownShows(st, t); }
        NothingDropped(st, t, n);
      } else {
        var s := NewService(instance, service, proto).(ptr := true, ptrTtl := ttl);
        NewShows(st, t, link, "", Marked(s, Added, PtrRecord), RowAt(t, n).(ptr := Some(ttl)));
      }
    } else {
      var i, j := FoundShows(st, t, link, instance, service, proto);
      var s := st.cache[i].services[j];
      if ttl == 0 {
        RemoveShows(st, t, i, j);
      } else {
        var result := if s.ptr && s.ptrTtl == ttl then NoChange else Updated;
        PutShows(st, t, i, j, Marked(s.(ptr := true, ptrTtl := ttl), result, PtrRecord),
                 RowAt(t, n).(ptr := Some(ttl)));
      }
    }
  }

  lemma KnownShows(st: State, t: Table)
    requires Known(st, t)
    ensures Shows(Bag(st.cache), t)
  {
  }

  /** Nothing is forgotten with a name that is not there. */
  lemma NothingDropped(st: State, t: Table, n: Name)
    requires Known(st, t) && n !in t.rows
    ensures DropRow(t, n) == t
  {
    hide Good, Tidy, Lives, SlotShows, Bag;
    assert t.rows - {n} == t.rows;
    assert t.(rows := t.rows) == t;
    SettledAlready(t);
  }

  lemma SettledAlready(t: Table)
    requires forall h :: h in t.addrs ==> Lives(t, h)
    ensures Settle(t) == t
  {
    assert Settle(t).addrs == t.addrs;
  }

  /** A record is taken back. */
  lemma GoodbyeShows(st: State, t: Table, i: nat, j: nat, s: Service, record: Record, row: Row)
    requires Known(st, t) && i < |st.cache| && j < |st.cache[i].services|
    requires var slot := SlotAt(st.cache[i], j);
             && SlotShows(slot, t) && NameOf(slot.(s := s)) == NameOf(slot) && Named(s)
             && Alone(Bag(st.cache) - multiset{slot}, NameOf(slot))
    requires RecordsShow(s, row) && row.host == Fold(st.cache[i].host)
    ensures Shows(Bag(AfterGoodbye(st, i, j, s, record).0.cache), Withdrawn(t, NameOf(SlotAt(st.cache[i], j)), row))
  {
    hide Bag, Known, Shows, Alone, SetRow, DropRow, PutService, RemoveService, AddrsShow;
    if HasRecord(s) {
      PutShows(st, t, i, j, Marked(s, Updated, record), row);
    } else {
      RemoveShows(st, t, i, j);
    }
  }

  /** Nothing was there to take back. */
  lemma UnchangedShows(st: State, t: Table, i: nat, j: nat, row: Row)
    requires Known(st, t) && i < |st.cache| && j < |st.cache[i].services|
    requires var slot := SlotAt(st.cache[i], j);
             && SlotShows(slot, t) && RecordsShow(slot.s, row) && row.host == Fold(slot.host)
             && Alone(Bag(st.cache) - multiset{slot}, NameOf(slot))
    ensures Shows(Bag(st.cache), SetRow(t, NameOf(SlotAt(st.cache[i], j)), row))
  {
    hide Bag, SetRow, RecordsShow, AddrsShow, NameOf, Named;
    var slot := SlotAt(st.cache[i], j);
    SlotCached(st.cache, i, j);
    BagWithout(Bag(st.cache), slot);
    hide Shows;
    SetShows(Bag(st.cache) - multiset{slot}, multiset{slot}, slot, t, row);
  }

  lemma RowOfSlot(a: Slot, t: Table)
    requires SlotShows(a, t)
    ensures NameOf(a) in t.rows && t.rows[NameOf(a)] == RowAt(t, NameOf(a)) && Named(a.s)
    ensures RecordsShow(a.s, RowAt(t, NameOf(a))) && RowAt(t, NameOf(a)).host == Fold(a.host)
  {
  }

  lemma SrvGoodbyeShows(st: State, t: Table, link: Link, host: string, instance: string, service: string,
                        proto: string, priority: nat, weight: nat, port: nat)
    requires Known(st, t) && instance != "" && service != "" && proto != ""
    ensures Shows(Bag(UpdateSrv(st, link, host, instance, service, proto, priority, weight, port, 0).0.cache),
                  Learn(t, link, SrvUpdate(host, instance, service, proto, priority, weight, port, 0)))
  {
    hide Bag, Known, Shows, Alone, SetRow, DropRow, AfterGoodbye, AddrsShow, SlotShows, FindOwner, FindIn, NameFor;
    var n := NameFor(link, instance, service, proto);
    if FindOwner(st.cache, link, instance, service, proto) == |st.cache| {
      NotFoundShows(st, t, link, instance, service, proto);
      KnownShows(st, t);
    } else {
      var i, j := FoundShows(st, t, link, instance, service, proto);
      var slot := SlotAt(st.cache[i], j);
      RowOfSlot(slot, t);
      var row := RowAt(t, n).(srv := None);
      if slot.s.srv {
        GoodbyeShows(st, t, i, j, slot.s.(srv := false, priority := 0, weight := 0, port := 0, srvTtl := 0), SrvRecord,
                     row);
      } else {
        UnchangedShows(st, t, i, j, row);
      }
    }
  }

  lemma SrvHeardShows(st: State, t: Table, link: Link, host: string, instance: string, service: string,
                      proto: string, priority: nat, weight: nat, port: nat, ttl: nat)
    requires Known(st, t) && instance != "" && service != "" && proto != "" && ttl > 0
    ensures Shows(Bag(UpdateSrv(st, link, host, instance, service, proto, priority, weight, port, ttl).0.cache),
                  Learn(t, link, SrvUpdate(host, instance, service, proto, priority, weight, port, ttl)))
  {
    hide Bag, Known, Shows, Alone, SetRow, PutService, MoveService, PushService, AddrsShow, SlotShows, FindOwner,
        FindIn, FindEntry, WithEntry, EntryIndex, NameFor, NullableNamesEqual;
    var n := NameFor(link, instance, service, proto);
    var row := RowAt(t, n).(host := Fold(host), srv := Some(SrvData(priority, weight, port, ttl)));
    if FindOwner(st.cache, link, instance, service, proto) == |st.cache| {
      NotFoundShows(st, t, link, instance, service, proto);
      NewShows(st, t, link, host,
               Marked(SrvSet(NewService(instance, service, proto), priority, weight, port, ttl), Added,
                   SrvRecord), row);
    } else {
      var i, j := FoundShows(st, t, link, instance, service, proto);
      var slot := SlotAt(st.cache[i], j);
      RowOfSlot(slot, t);
      var s' := SrvSet(slot.s, priority, weight, port, ttl);
      NamesMatch(slot.host, host);
      if NamesEqual(slot.host, host) || FindEntry(st.cache, host, link) == i {
        assert Fold(slot.host) == Fold(host) by { HostFound(st.cache, host, link, i); }
        PutShows(st, t, i, j, Marked(s', if s' == slot.s then NoChange else Updated, SrvRecord), row);
      } else {
        MoveShows(st, t, link, host, i, j, Marked(s', Updated, SrvRecord), row);
      }
    }
  }

  lemma HostFound(cache: seq<Entry>, host: string, link: Link, i: nat)
    requires i < |cache| && (NamesEqual(cache[i].host, host) || FindEntry(cache, host, link) == i)
    ensures Fold(cache[i].host) == Fold(host)
  {
    NamesMatch(cache[i].host, host);
  }

  lemma TxtShows(st: State, t: Table, link: Link, instance: string, service: string, proto: string,
                 items: seq<TxtItem>, ttl: nat)
    requires Known(st, t) && instance != "" && service != "" && proto != ""
    ensures Shows(Bag(UpdateTxt(st, link, instance, service, proto, items, ttl).0.cache),
                  Learn(t, link, TxtUpdate(instance, service, proto, items, ttl)))
  {
    hide Bag, Known, Shows, Alone, SetRow, DropRow, Withdrawn, AfterGoodbye, AddrsShow, SlotShows, FindOwner, FindIn,
        NameFor, PutService, PushService, WithEntry, EntryIndex, TxtListEqual;
    var n := NameFor(link, instance, service, proto);
    var row := RowAt(t, n).(txt := if ttl == 0 then None else Some(TxtData(items, ttl)));
    if FindOwner(st.cache, link, instance, service, proto) == |st.cache| {
      NotFoundShows(st, t, link, instance, service, proto);
      KnownShows(st, t);
      if ttl > 0 {
        var s := NewService(instance, service, proto).(txt := true, txtList := items, txtTtl := ttl);
        NewShows(st, t, link, "", Marked(s, Added, TxtRecord), row);
      }
    } else {
      var i, j := FoundShows(st, t, link, instance, service, proto);
      var slot := SlotAt(st.cache[i], j);
      RowOfSlot(slot, t);
      if ttl == 0 && slot.s.txt {
        GoodbyeShows(st, t, i, j, slot.s.(txt := false, txtList := [], txtTtl := 0), TxtRecord, row);
      } else if ttl == 0 || (TxtListEqual(slot.s.txtList, items) && slot.s.txt && slot.s.txtTtl == ttl) {
        UnchangedShows(st, t, i, j, row);
        assert ttl == 0 ==> Withdrawn(t, n, row) == SetRow(t, n, row) by { StillRecorded(slot, t, n, row); }
      } else {
        PutShows(st, t, i, j, Marked(slot.s.(txt := true, txtList := items, txtTtl := ttl), Updated, TxtRecord), row);
      }
    }
  }

  lemma StillRecorded(slot: Slot, t: Table, n: Name, row: Row)
    requires HasRecord(slot.s) && RecordsShow(slot.s, row)
    ensures Withdrawn(t, n, row) == SetRow(t, n, row)
  {
  }

  // ----- addresses -----

  lemma {:induction false} FoundAddr(addrs: seq<CachedAddr>, addr: int)
    ensures FindAddr(addrs, addr) == |addrs| ==> forall k :: 0 <= k < |addrs| ==> addrs[k].addr != addr
    decreases |addrs|
  {
    if addrs == [] || addrs[0].addr == addr {
    } else {
      FoundAddr(addrs[1..], addr);
    }
  }

  lemma AddrRemoved(addrs: seq<CachedAddr>, m: map<int, nat>, k: nat)
    requires AddrsShow(addrs, m) && k < |addrs|
    ensures AddrsShow(RemoveAt(addrs, k), m - {addrs[k].addr})
  {
    var rest := RemoveAt(addrs, k);
    assert forall j :: 0 <= j < |rest| ==> rest[j] == addrs[if j < k then j else j + 1];
    forall x | x in m - {addrs[k].addr} ensures exists j :: 0 <= j < |rest| && rest[j].addr == x {
      var j :| 0 <= j < |addrs| && addrs[j].addr == x;
      assert rest[if j < k then j else j - 1].addr == x;
    }
  }

  /** The list with an address heard: its TTL is changed where it stands, or it goes in front. */
  function AddrsAfter(addrs: seq<CachedAddr>, k: nat, heard: CachedAddr): seq<CachedAddr> {
    if k < |addrs| then addrs[k := heard] else [heard] + addrs
  }

  lemma AddrHeard(addrs: seq<CachedAddr>, m: map<int, nat>, addr: int, ttl: nat)
    requires AddrsShow(addrs, m)
    ensures AddrsShow(AddrsAfter(addrs, FindAddr(addrs, addr), CachedAddr(addr, ttl)), m[addr := ttl])
  {
    hide FindAddr;
    FoundAddr(addrs, addr);
    var k := FindAddr(addrs, addr);
    var after, m' := AddrsAfter(addrs, k, CachedAddr(addr, ttl)), m[addr := ttl];
    assert forall j :: 0 <= j < |after| && k == |addrs| && j > 0 ==> after[j] == addrs[j - 1];
    forall x | x in m' ensures exists j :: 0 <= j < |after| && after[j].addr == x {
      if x == addr {
        assert after[if k < |addrs| then k else 0].addr == x;
      } else {
        var j :| 0 <= j < |addrs| && addrs[j].addr == x;
        assert after[if k < |addrs| then j else j + 1].addr == x;
      }
    }
  }

  lemma AddrUnheard(addrs: seq<CachedAddr>, m: map<int, nat>, addr: int)
    requires AddrsShow(addrs, m) && FindAddr(addrs, addr) == |addrs|
    ensures m - {addr} == m
  {
    FoundAddr(addrs, addr);
  }

  function EntryHost(e: Entry): Host {
    Host(e.link, Fold(e.host))
  }

  lemma EntriesApart(cache: seq<Entry>, i: nat, k: nat)
    requires Tidy(cache) && i < |cache| && k < |cache| && i != k
    ensures EntryHost(cache[i]) != EntryHost(cache[k])
  {
    NamesMatch(cache[i].host, cache[k].host);
    NamesMatch(cache[k].host, cache[i].host);
  }

  /** The services of one host under other addresses, with marks. */
  predicate Readdressed(cache: seq<Entry>, cache': seq<Entry>, i: nat, addrs: seq<CachedAddr>)
    requires i < |cache|
  {
    && |cache'| == |cache| && (forall k :: 0 <= k < |cache| && k != i ==> cache'[k] == cache[k])
    && cache'[i].host == cache[i].host && cache'[i].link == cache[i].link && cache'[i].addrs == addrs
    && |cache'[i].services| == |cache[i].services|
    && forall j :: 0 <= j < |cache[i].services| ==>
         cache'[i].services[j] == cache[i].services[j].(records := cache'[i].services[j].records,
                                                        dirty := cache'[i].services[j].dirty)
  }

  lemma SlotReaddressed(before: Slot, after: Slot, t: Table, h: Host, m: map<int, nat>)
    requires SlotShows(before, t)
    requires after == before.(addrs := after.addrs, s := before.s.(records := after.s.records, dirty := after.s.dirty))
    requires if HostOf(before) == h then AddrsShow(after.addrs, m) else after.addrs == before.addrs
    ensures SlotShows(after, t.(addrs := t.addrs[h := m])) && NameOf(after) == NameOf(before)
  {
    hide AddrsShow;
  }

  lemma ReaddressedShows(st: State, t: Table, i: nat, addrs: seq<CachedAddr>, m: map<int, nat>, cache': seq<Entry>)
    requires Known(st, t) && i < |st.cache| && AddrsShow(addrs, m) && Readdressed(st.cache, cache', i, addrs)
    ensures Shows(Bag(cache'), t.(addrs := t.addrs[EntryHost(st.cache[i]) := m]))
  {
    hide Good, AddrsShow, Tidy, SlotShows, Bag, NameOf;
    var h := EntryHost(st.cache[i]);
    var t' := t.(addrs := t.addrs[h := m]);
    forall k, j | 0 <= k < |cache'| && 0 <= j < |cache'[k].services|
      ensures SlotAt(st.cache[k], j) in Bag(st.cache) && SlotAt(cache'[k], j) in Bag(cache')
      ensures SlotShows(SlotAt(cache'[k], j), t') && NameOf(SlotAt(cache'[k], j)) == NameOf(SlotAt(st.cache[k], j))
    {
      SlotCached(st.cache, k, j);
      SlotCached(cache', k, j);
      if k != i { EntriesApart(st.cache, k, i); }
      SlotReaddressed(SlotAt(st.cache[k], j), SlotAt(cache'[k], j), t, h, m);
    }
    SlotsShow(st.cache, cache', t, t');
    HostLives(st, t, i);
    forall g | g in t'.addrs ensures Lives(t', g) {
      assert Lives(t, g);
      var n :| n in t.rows && HostAt(t, n) == g;
      assert HostAt(t', n) == g;
    }
  }

  /** Place by place the same names, and each place shown. */
  lemma SlotsShow(cache: seq<Entry>, cache': seq<Entry>, t: Table, t': Table)
    requires Shows(Bag(cache), t) && t'.rows == t.rows && |cache| == |cache'|
    requires forall k :: 0 <= k < |cache| ==> |cache[k].services| == |cache'[k].services|
    requires forall k, j :: 0 <= k < |cache'| && 0 <= j < |cache'[k].services| ==>
               SlotShows(SlotAt(cache'[k], j), t') && NameOf(SlotAt(cache'[k], j)) == NameOf(SlotAt(cache[k], j))
    ensures forall a :: a in Bag(cache') ==> SlotShows(a, t')
    ensures forall n :: n in t'.rows ==> exists a :: a in Bag(cache') && NameOf(a) == n
  {
    hide SlotShows, NameOf, SlotAt, Slots;
    forall a | a in Bag(cache') ensures SlotShows(a, t') {
      var k, j := SlotFound(cache', a);
    }
    forall n | n in t'.rows ensures exists a :: a in Bag(cache') && NameOf(a) == n {
      var a :| a in Bag(cache) && NameOf(a) == n;
      var k, j := SlotFound(cache, a);
      SlotCached(cache', k, j);
      assert NameOf(SlotAt(cache'[k], j)) == n;
    }
  }

  lemma HostLives(st: State, t: Table, i: nat)
    requires Known(st, t) && i < |st.cache|
    ensures Lives(t, EntryHost(st.cache[i]))
    ensures AddrsShow(st.cache[i].addrs, AddrsAt(t, EntryHost(st.cache[i])))
  {
    hide Good, AddrsShow, RecordsShow;
    SlotCached(st.cache, i, 0);
    var a := SlotAt(st.cache[i], 0);
    assert SlotShows(a, t);
    assert HostAt(t, NameOf(a)) == EntryHost(st.cache[i]);
  }

  lemma NoHost(st: State, t: Table, host: string, link: Link)
    requires Known(st, t) && FindEntry(st.cache, host, link) == |st.cache|
    ensures !Lives(t, Host(link, Fold(host)))
  {
    hide Good, RecordsShow, AddrsShow;
    if Lives(t, Host(link, Fold(host))) {
      var n :| n in t.rows && HostAt(t, n) == Host(link, Fold(host));
      var a :| a in Bag(st.cache) && NameOf(a) == n;
      assert SlotShows(a, t) && a in Slots(st.cache);
      var k, j := SlotFound(st.cache, a);
      NamesMatch(st.cache[k].host, host);
      assert false;
    }
  }

  lemma AddrUpdateShows(st: State, t: Table, link: Link, host: string, addr: int, ttl: nat)
    requires Known(st, t)
    ensures Shows(Bag(UpdateAddr(st, link, host, addr, ttl, false).0.cache),
            Learn(t, link, AddrUpdate(host, addr, ttl)))
  {
    hide Bag, Known, Shows, AddrsShow, FindEntry, FindAddr, Lives;
    var i := FindEntry(st.cache, host, link);
    if i == |st.cache| {
      NoHost(st, t, host, link);
      KnownShows(st, t);
    } else {
      NamesMatch(st.cache[i].host, host);
      HostLives(st, t, i);
      assert EntryHost(st.cache[i]) == Host(link, Fold(host));
      var addrs, m := st.cache[i].addrs, AddrsAt(t, EntryHost(st.cache[i]));
      var k := FindAddr(addrs, addr);
      if ttl == 0 {
        if k == |addrs| {
          AddrUnheard(addrs, m, addr);
          ReaddressedShows(st, t, i, addrs, m, st.cache);
        } else {
          AddrRemoved(addrs, m, k);
          var cache' := PutAddrs(st.cache, i, RemoveAt(addrs, k), Updated);
          ReaddressedShows(st, t, i, RemoveAt(addrs, k), m - {addr}, cache');
          DropBag(cache', i);
        }
      } else {
        AddrHeard(addrs, m, addr, ttl);
        var after := AddrsAfter(addrs, k, CachedAddr(addr, ttl));
        if k < |addrs| && addrs[k].ttl == ttl {
          assert after == addrs;
          ReaddressedShows(st, t, i, addrs, m[addr := ttl], st.cache);
        } else {
          ReaddressedShows(st, t, i, after, m[addr := ttl], PutAddrs(st.cache, i, after, Updated));
        }
      }
    }
  }

  // ----- packets and runs -----

  lemma LearnKnown(st: State, t: Table, link: Link, u: Update)
    requires Known(st, t) && FullyNamed(u)
    ensures Known(Apply(st, link, u), Learn(t, link, u))
  {
    hide Bag, Shows, Good, Tidy, UpdatePtr, UpdateSrv, UpdateTxt, UpdateAddr, Learn;
    ApplyKeeps(st, link, u);
    ApplyTidy(st, link, u);
    match u
    case PtrUpdate(instance, service, proto, ttl) => PtrShows(st, t, link, instance, service, proto, ttl);
    case SrvUpdate(host, instance, service, proto, priority, weight, port, ttl) =>
      if ttl == 0 {
        SrvGoodbyeShows(st, t, link, host, instance, service, proto, priority, weight, port);
      } else {
        SrvHeardShows(st, t, link, host, instance, service, proto, priority, weight, port, ttl);
      }
    case TxtUpdate(instance, service, proto, items, ttl) => TxtShows(st, t, link, instance, service, proto, items, ttl);
    case AddrUpdate(host, addr, ttl) => AddrUpdateShows(st, t, link, host, addr, ttl);
  }

  lemma {:induction false} LearnAllKnown(st: State, t: Table, link: Link, us: seq<Update>)
    requires Known(st, t) && forall k :: 0 <= k < |us| ==> FullyNamed(us[k])
    ensures Known(ApplyAll(st, link, us), LearnAll(t, link, us))
    decreases |us|
  {
    hide Known, Apply, Learn;
    if us == [] {
    } else {
      LearnKnown(st, t, link, us[0]);
      LearnAllKnown(Apply(st, link, us[0]), Learn(t, link, us[0]), link, us[1..]);
    }
  }

  /** The marks are not part of what is shown. */
  lemma ClearedShows(cache: seq<Entry>, t: Table)
    requires Shows(Bag(cache), t)
    ensures Shows(Bag(ClearedCache(cache)), t)
  {
    hide RecordsShow, AddrsShow, SlotShows, Bag, NameOf;
    var cache' := ClearedCache(cache);
    forall k, j | 0 <= k < |cache'| && 0 <= j < |cache'[k].services|
      ensures SlotShows(SlotAt(cache'[k], j), t) && NameOf(SlotAt(cache'[k], j)) == NameOf(SlotAt(cache[k], j))
    {
      SlotCached(cache, k, j);
      MarksDoNotShow(SlotAt(cache[k], j), SlotAt(cache'[k], j), t);
    }
    SlotsShow(cache, cache', t, t);
  }

  lemma MarksDoNotShow(a: Slot, b: Slot, t: Table)
    requires SlotShows(a, t) && b == a.(s := a.s.(records := b.s.records, dirty := b.s.dirty))
    ensures SlotShows(b, t) && NameOf(a) == NameOf(b)
  {
  }

  lemma TypeForgotten(st: State, t: Table, service: string, proto: string)
    requires Shows(Bag(st.cache), t) && service != "" && proto != ""
    ensures Shows(Bag(RemoveType(st.cache, service, proto)),
                  Settle(t.(rows := map n | n in t.rows && !OfType(n, service, proto) :: t.rows[n])))
  {
    hide RecordsShow, AddrsShow, Bag, Settle, SlotShows;
    var bag, bag' := Bag(st.cache), Bag(RemoveType(st.cache, service, proto));
    var rows := map n | n in t.rows && !OfType(n, service, proto) :: t.rows[n];
    SettleRows(t.(rows := rows));
    forall a | a in bag
      ensures SlotShows(a, t) && NameOf(a) in t.rows && (a in bag' <==> !OfType(NameOf(a), service, proto))
    {
      RemoveTypeBag(st.cache, service, proto, a);
      SlotInTable(a, t);
      NamesAfterFold(a.s.service, service);
      NamesAfterFold(a.s.proto, proto);
    }
    forall a | a in bag' ensures a in bag && SlotShows(a, Settle(t.(rows := rows))) {
      RemoveTypeBag(st.cache, service, proto, a);
      KeptShows(a, t, rows);
    }
    forall n | n in rows ensures exists a :: a in bag' && NameOf(a) == n {
      var a :| a in bag && NameOf(a) == n;
      assert a in bag';
    }
    SettledLives(t.(rows := rows));
  }

  lemma FinishShows(st: State, t: Table, id: nat)
    requires Shows(Bag(st.cache), t)
    ensures Shows(Bag(BrowseFinish(st, id).cache), LearnStep(st, t, FinishBrowse(id)))
  {
    hide Shows, Bag, RemoveType, Settle;
    var i := IndexOfBrowse(st.browses, id);
    if i < |st.browses| {
      var b, left := st.browses[i], RemoveAt(st.browses, i);
      if b.service != "" && b.proto != "" {
        OthersLeft(st.browses, i);
        TypeForgotten(st, t, b.service, b.proto);
      }
    }
  }

  lemma OthersLeft(browses: seq<Browse>, i: nat)
    requires i < |browses| && browses[i].service != "" && browses[i].proto != ""
    ensures HasBrowse(RemoveAt(browses, i), browses[i].service, browses[i].proto) <==> OthersListen(browses, i)
  {
    var b, left := browses[i], RemoveAt(browses, i);
    forall j | 0 <= j < |browses|
      ensures BrowseIs(browses[j], b.service, b.proto) <==>
              Fold(browses[j].service) == Fold(b.service) && Fold(browses[j].proto) == Fold(b.proto)
    {
      NamesAfterFold(browses[j].service, b.service);
      NamesAfterFold(browses[j].proto, b.proto);
    }
    if OthersListen(browses, i) {
      var j :| 0 <= j < |browses| && j != i && browses[j].state != BrowseOff
               && Fold(browses[j].service) == Fold(b.service) && Fold(browses[j].proto) == Fold(b.proto);
      assert left[if j < i then j else j - 1] == browses[j];
    }
    if HasBrowse(left, b.service, b.proto) {
      var k :| 0 <= k < |left| && left[k].state != BrowseOff && BrowseIs(left[k], b.service, b.proto);
      assert left[k] == browses[if k < i then k else k + 1];
    }
  }

  /** Between two events, with the table. */
  ghost predicate Told(st: State, t: Table) {
    Quiet(st) && Tidy(st.cache) && Shows(Bag(st.cache), t)
  }

  lemma StepTold(st: State, t: Table, e: Event)
    requires Told(st, t) && Receivable(e)
    ensures Told(Step(st, e), LearnStep(st, t, e))
  {
    hide Quiet, Tidy, Shows, Bag, LearnAll, ApplyAll, BrowseFinish, ProcessSync;
    StepKeeps(st, e);
    StepTidy(st, e);
    match e
    case Packet(link, updates) => PacketShows(st, t, link, updates);
    case FinishBrowse(id) => FinishShows(st, t, id);
    case _ =>
  }

  lemma PacketShows(st: State, t: Table, link: Link, updates: seq<Update>)
    requires Told(st, t) && forall k :: 0 <= k < |updates| ==> FullyNamed(updates[k])
    ensures Shows(Bag(ProcessSync(ApplyAll(st, link, updates)).cache), LearnAll(t, link, updates))
  {
    hide Quiet, Good, Tidy, Shows, Bag, LearnAll, ApplyAll;
    QuietIsGood(st);
    LearnAllKnown(st, t, link, updates);
    ClearedShows(ApplyAll(st, link, updates).cache, LearnAll(t, link, updates));
  }

  lemma {:induction false} RunTold(st: State, t: Table, events: seq<Event>)
    requires Told(st, t) && forall k :: 0 <= k < |events| ==> Receivable(events[k])
    ensures Told(Run(st, events), LearnRun(st, t, events))
    decreases |events|
  {
    hide Told, Step, LearnStep, Receivable;
    if events == [] {
    } else {
      StepTold(st, t, events[0]);
      RunTold(Step(st, events[0]), LearnStep(st, t, events[0]), events[1..]);
    }
  }

  // ----- what browsers are told -----

  /** A notice says what was heard last: no host, port or addresses without an SRV record, no items without TXT. */
  ghost predicate Says(told: Notice, n: Name, row: Row, addrs: map<int, nat>) {
    && told.link == n.link && Fold(told.instance) == n.instance
    && Fold(told.service) == n.service && Fold(told.proto) == n.proto
    && row.ptr == Some(told.ttl)
    && (match row.srv
        case None => told.host == "" && told.port == 0 && told.addrs == []
        case Some(srv) =>
          && Fold(told.host) == row.host && told.port == srv.port
          && (forall x :: x in told.addrs <==> x in addrs)
          && (forall j, k :: 0 <= j < k < |told.addrs| ==> told.addrs[j] != told.addrs[k]))
    && (match row.txt
        case None => told.txt == []
        case Some(txt) => exists kept :: told.txt == AllDelivered(kept) && TxtLike(kept, txt.items))
  }

  lemma ProjectSays(a: Slot, t: Table)
    requires SlotShows(a, t) && a.s.ptr
    ensures Says(Project(a), NameOf(a), t.rows[NameOf(a)], AddrsAt(t, HostOf(a)))
  {
    hide Fold, TxtLike;
    var told := Project(a);
    if a.s.srv {
      assert |told.addrs| == |a.addrs| && forall k :: 0 <= k < |a.addrs| ==> told.addrs[k] == a.addrs[k].addr;
    }
  }

  lemma TypeMatches(b: Browse, a: Slot)
    requires Named(a.s)
    ensures SameType(a.s, b.service, b.proto) <==> OfType(NameOf(a), b.service, b.proto)
  {
    NamesAfterFold(b.service, a.s.service);
    NamesAfterFold(b.proto, a.s.proto);
  }

  /**
   * In every run of packets with fully named records, a running browser has been told, on balance, of exactly the
   * services of its type with a PTR record that was not taken back, and of each what its records said last.
   */
  lemma BrowsersHear(events: seq<Event>, i: nat)
    requires forall k :: 0 <= k < |events| ==> Receivable(events[k])
    requires i < |Run(EMPTY, events).browses|
    ensures var b, t := Run(EMPTY, events).browses[i], LearnRun(EMPTY, NOTHING, events);
            b.state == BrowseRunning && b.notifier ==>
              && (forall n :: n in t.rows && OfType(n, b.service, b.proto) && t.rows[n].ptr.Some? ==>
                    && Key(n.link, n.instance) in ViewOf(b)
                    && Says(ViewOf(b)[Key(n.link, n.instance)], n, t.rows[n], AddrsAt(t, HostAt(t, n))))
              && (forall k :: k in ViewOf(b) ==>
                    var n := Name(k.link, k.instance, Fold(b.service), Fold(b.proto));
                    n in t.rows && t.rows[n].ptr.Some?)
  {
    var st, t := Run(EMPTY, events), LearnRun(EMPTY, NOTHING, events);
    var b := st.browses[i];
    hide Run, LearnRun, Fold, AddrsShow, RecordsShow, Says, ViewOf, Project, Bag, SameType, OfType, Unique, BagOk, Tidy,
        AddrsAt, Named;
    assert Told(EMPTY, NOTHING) by { NothingTold(); }
    RunTold(EMPTY, NOTHING, events);
    if b.state == BrowseRunning && b.notifier {
      assert Exact(Bag(st.cache), b);
      forall a | a in Bag(st.cache)
        ensures SlotShows(a, t) && (Matches(b, a.s) <==> a.s.ptr && OfType(NameOf(a), b.service, b.proto))
      {
        TypeMatches(b, a);
      }
      forall n | n in t.rows && OfType(n, b.service, b.proto) && t.rows[n].ptr.Some?
        ensures Key(n.link, n.instance) in ViewOf(b)
        ensures Says(ViewOf(b)[Key(n.link, n.instance)], n, t.rows[n], AddrsAt(t, HostAt(t, n)))
      {
        var a :| a in Bag(st.cache) && NameOf(a) == n;
        PtrShown(a, t);
        ProjectSays(a, t);
      }
      forall k | k in ViewOf(b)
        ensures var n := Name(k.link, k.instance, Fold(b.service), Fold(b.proto)); n in t.rows && t.rows[n].ptr.Some?
      {
        var a :| a in Bag(st.cache) && Matches(b, a.s) && KeyOf(a) == k;
        PtrShown(a, t);
        NameOfType(a, b);
      }
    }
  }

  lemma NameOfType(a: Slot, b: Browse)
    requires OfType(NameOf(a), b.service, b.proto)
    ensures NameOf(a) == Name(KeyOf(a).link, KeyOf(a).instance, Fold(b.service), Fold(b.proto))
  {
  }

  lemma PtrShown(a: Slot, t: Table)
    requires SlotShows(a, t)
    ensures NameOf(a) in t.rows && t.rows[NameOf(a)].ptr.Some? == a.s.ptr && HostAt(t, NameOf(a)) == HostOf(a)
  {
  }

  lemma NothingTold()
    ensures Told(EMPTY, NOTHING)
  {
    EmptyIsQuiet();
  }

  // ----- when a list of items is taken for another -----

  /** The keys of an item list, each once and none empty, as section 6.4 of RFC 6763 has them. */
  predicate KeysOnce(items: seq<TxtItem>) {
    && (forall k :: 0 <= k < |items| ==> items[k].key != "")
    && (forall j, k :: 0 <= j < k < |items| ==> Fold(items[j].key) != Fold(items[k].key))
  }

  /** What a list says of a key. */
  ghost predicate Has(items: seq<TxtItem>, key: string, value: Option<string>) {
    exists k :: 0 <= k < |items| && Fold(items[k].key) == key && items[k].value == value
  }

  lemma ContainsHas(items: seq<TxtItem>, item: TxtItem)
    requires item.key != ""
    ensures TxtListContains(items, item) <==> Has(items, Fold(item.key), item.value)
  {
    forall k | 0 <= k < |items|
      ensures TxtItemEqual(items[k], item) <==> Fold(items[k].key) == Fold(item.key) && items[k].value == item.value
    {
      NamesAfterFold(items[k].key, item.key);
    }
    if TxtListContains(items, item) {
      var k :| 0 <= k < |items| && TxtItemEqual(items[k], item);
      assert Fold(items[k].key) == Fold(item.key);
    }
    if Has(items, Fold(item.key), item.value) {
      var k :| 0 <= k < |items| && Fold(items[k].key) == Fold(item.key) && items[k].value == item.value;
      assert TxtItemEqual(items[k], item);
    }
  }

  ghost function KeySet(items: seq<TxtItem>): set<string> {
    set k | 0 <= k < |items| :: Fold(items[k].key)
  }

  lemma {:induction false} KeyCount(items: seq<TxtItem>)
    requires KeysOnce(items)
    ensures |KeySet(items)| == |items|
    decreases |items|
  {
    if items != [] {
      var front, last := items[..|items| - 1], items[|items| - 1];
      assert items == front + [last];
      OneKeyMore(front, last);
      hide KeysOnce, KeySet;
      KeyCount(front);
    }
  }

  lemma OneKeyMore(front: seq<TxtItem>, last: TxtItem)
    requires KeysOnce(front + [last])
    ensures KeysOnce(front) && KeySet(front + [last]) == KeySet(front) + {Fold(last.key)}
    ensures Fold(last.key) !in KeySet(front)
  {
    hide Fold;
    var items := front + [last];
    assert items[|front|] == last;
    forall k | 0 <= k < |front| ensures items[k] == front[k] { }
  }

  lemma SubsetOfSize(a: set<string>, b: set<string>)
    requires a <= b && |a| == |b|
    ensures a == b
  {
    if a != b { SmallerSubset(a, b); }
  }

  lemma SmallerSubset(a: set<string>, b: set<string>)
    requires a < b
    ensures |a| < |b|
  {
    var rest := b - a;
    assert b == a + rest && |b| == |a| + |rest|;
  }

  lemma MutualSubsets(a: set<string>, b: set<string>)
    requires a <= b && b <= a
    ensures |a| == |b|
  {
    assert a == b;
  }

  lemma KeyHeld(items: seq<TxtItem>, i: nat)
    requires i < |items|
    ensures Fold(items[i].key) in KeySet(items) && Has(items, Fold(items[i].key), items[i].value)
  {
  }

  /** All of one list's keys are keys of the other. */
  lemma KeysHeld(a: seq<TxtItem>, b: seq<TxtItem>)
    requires forall i :: 0 <= i < |a| ==> Has(b, Fold(a[i].key), a[i].value)
    ensures KeySet(a) <= KeySet(b)
  {
    forall key | key in KeySet(a) ensures key in KeySet(b) {
      var i :| 0 <= i < |a| && Fold(a[i].key) == key;
      var k :| 0 <= k < |b| && Fold(b[k].key) == key && b[k].value == a[i].value;
      KeyHeld(b, k);
    }
  }

  /** Lists with each key once are taken for one another exactly when they say the same of every key. */
  lemma SameItemsExact(a: seq<TxtItem>, b: seq<TxtItem>)
    requires KeysOnce(a) && KeysOnce(b)
    ensures TxtListEqual(a, b) <==> forall key, value :: Has(a, key, value) <==> Has(b, key, value)
  {
    hide TxtListContains, Has;
    forall i | 0 <= i < |a| ensures TxtListContains(b, a[i]) <==> Has(b, Fold(a[i].key), a[i].value) {
      ContainsHas(b, a[i]);
    }
    KeyCount(a);
    KeyCount(b);
    if forall i :: 0 <= i < |a| ==> Has(b, Fold(a[i].key), a[i].value) {
      KeysHeld(a, b);
      if |a| == |b| {
        SubsetOfSize(KeySet(a), KeySet(b));
        SaysTheSame(a, b);
      } else if forall key, value :: Has(a, key, value) <==> Has(b, key, value) {
        forall i | 0 <= i < |b| ensures Has(a, Fold(b[i].key), b[i].value) { KeyHeld(b, i); }
        KeysHeld(b, a);
        MutualSubsets(KeySet(a), KeySet(b));
        assert false;
      }
    } else {
      var i :| 0 <= i < |a| && !Has(b, Fold(a[i].key), a[i].value);
      KeyHeld(a, i);
    }
  }

  lemma SaysTheSame(a: seq<TxtItem>, b: seq<TxtItem>)
    requires KeysOnce(b) && KeySet(a) == KeySet(b)
    requires forall i :: 0 <= i < |a| ==> Has(b, Fold(a[i].key), a[i].value)
    ensures forall key, value :: Has(a, key, value) <==> Has(b, key, value)
  {
    forall key, value ensures Has(a, key, value) <==> Has(b, key, value) {
      if Has(b, key, value) {
        var k :| 0 <= k < |b| && Fold(b[k].key) == key && b[k].value == value;
        KeyHeld(b, k);
        var i :| 0 <= i < |a| && Fold(a[i].key) == key;
        assert Has(b, key, a[i].value);
      }
    }
  }

  /** With a key twice a changed list can be taken for the cached one, and then the browsers never hear of it. */
  lemma ChangeUnheard()
    ensures var one, two := TxtItem("a", Some("1")), TxtItem("b", Some("2"));
            TxtListEqual([one, one], [one, two]) && !Has([one, one], "b", Some("2")) && Has([one, two], "b", Some("2"))
  {
    var one, two := TxtItem("a", Some("1")), TxtItem("b", Some("2"));
    assert TxtItemEqual([one, two][0], one);
    assert Fold("a")[0] == 'a' && Fold("b") == "b" && [one, two][1] == two;
  }
}
