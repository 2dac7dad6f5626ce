/** Every run of the mDNS cache: what browsers see, and how the cache stays in order. */
module MdnsRuns {
  import opened MdnsCache
  import opened MdnsViews
  import opened MdnsProofs
  import opened MdnsCommon
  import opened Sequences

  /** Between packets nothing is left to tell, and every view is exact. */
  ghost predicate Quiet(st: State) {
    Settled(Bag(st.cache), st.browses) && Clean(Bag(st.cache))
  }

  lemma QuietIsGood(st: State)
    requires Quiet(st)
    ensures Good(Bag(st.cache), st.browses)
  {
    hide Bag, BagOk, Unique;
    forall i | 0 <= i < |st.browses|
      ensures BrowseOk(Bag(st.cache), st.browses[i])
    {
      if Listening(st.browses[i]) {
        assert Exact(Bag(st.cache), st.browses[i]);
      }
    }
  }

  lemma PacketKeeps(st: State, link: Link, updates: seq<Update>)
    requires Quiet(st)
    ensures Quiet(Step(st, Packet(link, updates)))
  {
    hide Settled, Clean, Good, Bag, ApplyAll, ProcessSync;
    QuietIsGood(st);
    ApplyAllKeeps(st, link, updates);
    SyncSettles(ApplyAll(st, link, updates));
  }

  lemma NewBrowseKeeps(st: State, id: nat, service: string, proto: string, notifier: bool)
    requires Quiet(st)
    ensures Quiet(Step(st, NewBrowse(id, service, proto, notifier)))
  {
    hide Bag, BagOk, Unique, Exact, Clean;
    var st' := BrowseNew(st, id, service, proto, notifier);
    forall i | 0 <= i < |st'.browses|
      ensures (Listening(st'.browses[i]) ==> Exact(Bag(st.cache), st'.browses[i]))
           && (st'.browses[i].state == BrowseInit ==> st'.browses[i].log == [])
    {
      assert st' != st && i > 0 ==> st'.browses[i] == st.browses[i - 1];
    }
  }

  lemma DeleteBrowseKeeps(st: State, service: string, proto: string)
    requires Quiet(st)
    ensures Quiet(Step(st, DeleteBrowse(service, proto)))
  {
    hide Bag, BagOk, Unique, Exact, Clean;
  }

  lemma ReplayView(bag: multiset<Slot>, b: Browse, slots: seq<Slot>)
    requires BagOk(bag) && Unique(bag) && bag == multiset(slots) && b.log == [] && Listening(b)
    ensures Exact(bag, Replay(b, slots)) && Listening(Replay(b, slots))
  {
    hide Project, KeyOf, Unique, BagOk, SameType, Notices, HasRecord, Named;
    var b' := Replay(b, slots);
    forall i | 0 <= i < |slots| ensures slots[i] in bag { }
    ReplayNotices(b, slots);
    NoticesView(bag, b, map[], slots, true);
    assert b'.log == Notices(b, slots, true);
    forall a | a in bag && Matches(b', a.s)
      ensures KeyOf(a) in ViewOf(b') && ViewOf(b')[KeyOf(a)] == Project(a)
    {
      var i :| 0 <= i < |slots| && slots[i] == a;
      assert Due(b, slots[i], true);
    }
    forall k | k in ViewOf(b')
      ensures exists a :: a in bag && Matches(b', a.s) && KeyOf(a) == k
    {
      var i :| 0 <= i < |slots| && Due(b, slots[i], true) && KeyOf(slots[i]) == k;
      assert slots[i] in bag && Matches(b', slots[i].s);
    }
  }

  lemma StartBrowseKeeps(st: State, id: nat)
    requires Quiet(st)
    ensures Quiet(Step(st, StartBrowse(id)))
  {
    hide BagOk, Unique, Exact, Clean, Slots;
    var st' := BrowseStart(st, id);
    forall i | 0 <= i < |st'.browses|
      ensures (Listening(st'.browses[i]) ==> Exact(Bag(st.cache), st'.browses[i]))
           && (st'.browses[i].state == BrowseInit ==> st'.browses[i].log == [])
    {
      var b := st.browses[i];
      var slots := Slots(st.cache);
      if b.id == id && b.state == BrowseInit {
        var b' := b.(state := BrowseRunning);
        ReplayNotices(b', slots);
        if b.notifier {
          ReplayView(Bag(st.cache), b', slots);
        }
      }
    }
  }

  // ----- the end of a browser -----

  lemma ConsSlots(e: Entry, s: Service, rest: seq<Service>)
    ensures EntrySlots(e.(services := [s] + rest)) ==
            [Slot(e.host, e.link, e.addrs, s)] + EntrySlots(e.(services := rest))
  {
  }

  lemma {:induction false} OthersBag(e: Entry, services: seq<Service>, service: string, proto: string, a: Slot)
    ensures multiset(EntrySlots(e.(services := OtherServices(services, service, proto))))[a]
         == if SameType(a.s, service, proto) then 0 else multiset(EntrySlots(e.(services := services)))[a]
    decreases |services|
  {
    hide SameType, EntrySlots;
    var others := OtherServices(services, service, proto);
    if services == [] {
      NoSlots(e.(services := services));
    } else {
      var tail := services[1..];
      OthersBag(e, tail, service, proto, a);
      assert services == [services[0]] + tail;
      ConsSlots(e, services[0], tail);
      if SameType(services[0], service, proto) {
        assert others == OtherServices(tail, service, proto);
      } else {
        ConsSlots(e, services[0], OtherServices(tail, service, proto));
      }
    }
  }

  /** remove_service_caches takes the services of the type, and no other. */
  lemma {:induction false} RemoveTypeBag(cache: seq<Entry>, service: string, proto: string, a: Slot)
    ensures Bag(RemoveType(cache, service, proto))[a] == if SameType(a.s, service, proto) then 0 else Bag(cache)[a]
    decreases |cache|
  {
    hide SameType, OtherServices, EntrySlots;
    if cache == [] {
    } else {
      var left := OtherServices(cache[0].services, service, proto);
      RemoveTypeBag(cache[1..], service, proto, a);
      OthersBag(cache[0], cache[0].services, service, proto, a);
      assert cache[0].(services := cache[0].services) == cache[0];
      var kept := cache[0].(services := left);
      if left == [] {
        NoSlots(kept);
        assert [] + RemoveType(cache[1..], service, proto) == RemoveType(cache[1..], service, proto);
      } else {
        assert ([kept] + RemoveType(cache[1..], service, proto))[1..] == RemoveType(cache[1..], service, proto);
      }
    }
  }

  lemma NoSlots(e: Entry)
    requires e.services == []
    ensures EntrySlots(e) == []
  {
  }

  /** Services that no browser shows may go unsaid. */
  lemma FilterKeeps(bag: multiset<Slot>, bag': multiset<Slot>, browses: seq<Browse>)
    requires Settled(bag, browses) && Clean(bag)
    requires forall a :: bag'[a] == 0 || bag'[a] == bag[a]
    requires forall a, i :: a in bag && 0 <= i < |browses| && Matches(browses[i], a.s) ==> a in bag'
    ensures Settled(bag', browses) && Clean(bag')
  {
  }

  lemma TypeTransitive(s: Service, service: string, proto: string, b: Browse)
    requires SameType(s, service, proto) && SameType(s, b.service, b.proto)
    ensures BrowseIs(b, service, proto)
  {
  }

  lemma FinishBrowseKeeps(st: State, id: nat)
    requires Quiet(st)
    ensures Quiet(Step(st, FinishBrowse(id)))
  {
    hide Bag, BagOk, Unique, Exact, Clean, SameType;
    var i := IndexOfBrowse(st.browses, id);
    if i < |st.browses| {
      var b, left := st.browses[i], RemoveAt(st.browses, i);
      forall m | 0 <= m < |left| ensures exists n :: 0 <= n < |st.browses| && left[m] == st.browses[n] {
        assert left[m] == st.browses[if m < i then m else m + 1];
      }
      assert Settled(Bag(st.cache), left);
      if b.service != "" && b.proto != "" && !HasBrowse(left, b.service, b.proto) {
        var cache := RemoveType(st.cache, b.service, b.proto);
        forall a ensures Bag(cache)[a] == if SameType(a.s, b.service, b.proto) then 0 else Bag(st.cache)[a] {
          RemoveTypeBag(st.cache, b.service, b.proto, a);
        }
        forall a, m | a in Bag(st.cache) && 0 <= m < |left| && Matches(left[m], a.s)
          ensures a in Bag(cache)
        {
          if SameType(a.s, b.service, b.proto) {
            TypeTransitive(a.s, b.service, b.proto, left[m]);
            assert false;
          }
        }
        FilterKeeps(Bag(st.cache), Bag(cache), left);
      }
    }
  }

  lemma StepKeeps(st: State, e: Event)
    requires Quiet(st)
    ensures Quiet(Step(st, e))
  {
    hide Quiet, Step;
    match e
    case NewBrowse(id, service, proto, notifier) => NewBrowseKeeps(st, id, service, proto, notifier);
    case DeleteBrowse(service, proto) => DeleteBrowseKeeps(st, service, proto);
    case StartBrowse(id) => StartBrowseKeeps(st, id);
    case FinishBrowse(id) => FinishBrowseKeeps(st, id);
    case Packet(link, updates) => PacketKeeps(st, link, updates);
  }

  lemma {:induction false} RunKeeps(st: State, events: seq<Event>)
    requires Quiet(st)
    ensures Quiet(Run(st, events))
    decreases |events|
  {
    hide Quiet, Step;
    if events == [] {
    } else {
      StepKeeps(st, events[0]);
      RunKeeps(Step(st, events[0]), events[1..]);
    }
  }

  /**
   * In every run, at the end of every event, a running browser has been told, on balance, exactly the
   * cached services of its type that have a PTR record, each as it stands in the cache.
   */
  lemma BrowsersSeeTheCache(events: seq<Event>, i: nat)
    requires i < |Run(EMPTY, events).browses|
    ensures var st := Run(EMPTY, events); var b := st.browses[i];
            b.state == BrowseRunning && b.notifier ==>
              && (forall a :: a in Slots(st.cache) && a.s.ptr && SameType(a.s, b.service, b.proto) ==>
                    KeyOf(a) in ViewOf(b) && ViewOf(b)[KeyOf(a)] == Project(a))
              && (forall k :: k in ViewOf(b) ==>
                    exists a :: a in Slots(st.cache) && a.s.ptr && SameType(a.s, b.service, b.proto) && KeyOf(a) == k)
  {
    var st, b := Run(EMPTY, events), Run(EMPTY, events).browses[i];
    hide Project, KeyOf, SameType, Slots, Step, Unique, BagOk, Clean;
    assert Quiet(EMPTY) by { EmptyIsQuiet(); }
    RunKeeps(EMPTY, events);
    if Listening(b) {
      assert Exact(Bag(st.cache), b);
      forall a | a in Slots(st.cache) && a.s.ptr && SameType(a.s, b.service, b.proto)
        ensures KeyOf(a) in ViewOf(b) && ViewOf(b)[KeyOf(a)] == Project(a)
      {
        assert a in Bag(st.cache);
      }
      forall k | k in ViewOf(b)
        ensures exists a :: a in Slots(st.cache) && a.s.ptr && SameType(a.s, b.service, b.proto) && KeyOf(a) == k
      {
        var a :| a in Bag(st.cache) && Matches(b, a.s) && KeyOf(a) == k;
        assert a in Slots(st.cache);
      }
    }
  }

  lemma EmptyIsQuiet()
    ensures Quiet(EMPTY)
  {
  }

  // ----- the cache stays in order -----

  predicate SameEntry(a: Entry, b: Entry) {
    NullableNamesEqual(a.host, b.host) && a.link == b.link
  }

  ghost predicate DistinctEntries(cache: seq<Entry>) {
    forall i, k :: 0 <= i < k < |cache| ==> !SameEntry(cache[i], cache[k])
  }

  /** One entry for each host, interface and protocol, and none without a service. */
  ghost predicate Tidy(cache: seq<Entry>) {
    DistinctEntries(cache) && forall i :: 0 <= i < |cache| ==> cache[i].services != []
  }

  lemma WithEntryTidy(cache: seq<Entry>, host: string, link: Link)
    requires Tidy(cache)
    ensures var c := WithEntry(cache, host, link);
            DistinctEntries(c) && forall i :: 0 <= i < |c| && i != EntryIndex(cache, host, link) ==> c[i].services != []
  {
  }

  lemma DropTidy(cache: seq<Entry>, i: nat)
    requires i < |cache| && DistinctEntries(cache) && forall k :: 0 <= k < |cache| && k != i ==> cache[k].services != []
    ensures Tidy(DropIfBare(cache, i))
  {
  }

  lemma NewTidy(cache: seq<Entry>, host: string, link: Link, s: Service)
    requires Tidy(cache)
    ensures Tidy(PushService(WithEntry(cache, host, link), EntryIndex(cache, host, link), s))
  {
  }

  lemma RemoveTidy(cache: seq<Entry>, i: nat, j: nat)
    requires Tidy(cache) && i < |cache| && j < |cache[i].services|
    ensures Tidy(RemoveService(cache, i, j))
  {
  }

  lemma MoveTidy(cache: seq<Entry>, i: nat, j: nat, k: nat, s: Service)
    requires i < |cache| && j < |cache[i].services| && k < |cache| && k != i && DistinctEntries(cache)
    requires forall m :: 0 <= m < |cache| && m != k ==> cache[m].services != []
    ensures Tidy(MoveService(cache, i, j, k, s))
  {
    var moved := PushService(DetachService(cache, i, j), k, s);
    assert forall m :: 0 <= m < |cache| && m != i ==> moved[m].services != [];
    DropTidy(moved, i);
  }

  lemma ApplyTidy(st: State, link: Link, u: Update)
    requires Tidy(st.cache)
    ensures Tidy(Apply(st, link, u).cache)
  {
    hide DistinctEntries, TxtListEqual;
    match u
    case PtrUpdate(instance, service, proto, ttl) => PtrTidy(st, link, instance, service, proto, ttl);
    case SrvUpdate(host, instance, service, proto, priority, weight, port, ttl) =>
      SrvTidy(st, link, host, instance, service, proto, priority, weight, port, ttl);
    case TxtUpdate(instance, service, proto, txt, ttl) => TxtTidy(st, link, instance, service, proto, txt, ttl);
    case AddrUpdate(host, addr, ttl) => AddrTidy(st, link, host, addr, ttl);
  }

  lemma PutTidy(cache: seq<Entry>, i: nat, j: nat, s: Service)
    requires Tidy(cache) && i < |cache| && j < |cache[i].services|
    ensures Tidy(PutService(cache, i, j, s))
  {
  }

  lemma PtrTidy(st: State, link: Link, instance: string, service: string, proto: string, ttl: nat)
    requires Tidy(st.cache)
    ensures Tidy(UpdatePtr(st, link, instance, service, proto, ttl).0.cache)
  {
    hide Tidy, PutService, RemoveService, PushService;
    var i := FindOwner(st.cache, link, instance, service, proto);
    if instance == "" || service == "" || proto == "" {
    } else if i == |st.cache| {
      NewTidy(st.cache, "", link, Marked(NewService(instance, service, proto).(ptr := true, ptrTtl := ttl), Added,
          PtrRecord));
    } else {
      var j := FindIn(st.cache[i].services, instance, service, proto);
      if ttl == 0 {
        RemoveTidy(st.cache, i, j);
      } else {
        var s := st.cache[i].services[j];
        var result := if s.ptr && s.ptrTtl == ttl then NoChange else Updated;
        PutTidy(st.cache, i, j, Marked(s.(ptr := true, ptrTtl := ttl), result, PtrRecord));
      }
    }
  }

  lemma GoodbyeTidy(st: State, i: nat, j: nat, s: Service, record: Record)
    requires Tidy(st.cache) && i < |st.cache| && j < |st.cache[i].services|
    ensures Tidy(AfterGoodbye(st, i, j, s, record).0.cache)
  {
    if HasRecord(s) {
      PutTidy(st.cache, i, j, Marked(s, Updated, record));
    } else {
      RemoveTidy(st.cache, i, j);
    }
  }

  lemma SrvTidy(st: State, link: Link, host: string, instance: string, service: string, proto: string,
                priority: nat, weight: nat, port: nat, ttl: nat)
    requires Tidy(st.cache)
    ensures Tidy(UpdateSrv(st, link, host, instance, service, proto, priority, weight, port, ttl).0.cache)
  {
    hide Tidy, PutService, MoveService, PushService, AfterGoodbye;
    var i := FindOwner(st.cache, link, instance, service, proto);
    if i == |st.cache| {
      NewTidy(st.cache, host, link,
              Marked(SrvSet(NewService(instance, service, proto), priority, weight, port, ttl), Added, SrvRecord));
    } else {
      var j := FindIn(st.cache[i].services, instance, service, proto);
      var s := st.cache[i].services[j];
      var s' := SrvSet(s, priority, weight, port, ttl);
      if ttl == 0 {
        GoodbyeTidy(st, i, j, s.(srv := false, priority := 0, weight := 0, port := 0, srvTtl := 0), SrvRecord);
      } else if NamesEqual(st.cache[i].host, host) || FindEntry(st.cache, host, link) == i {
        PutTidy(st.cache, i, j, Marked(s', if s' == s then NoChange else Updated, SrvRecord));
      } else {
        var cache := WithEntry(st.cache, host, link);
        WithEntryTidy(st.cache, host, link);
        MoveTidy(cache, if |cache| == |st.cache| then i else i + 1, j, EntryIndex(st.cache, host, link),
                 Marked(s', Updated, SrvRecord));
      }
    }
  }

  lemma TxtTidy(st: State, link: Link, instance: string, service: string, proto: string, txt: seq<TxtItem>, ttl: nat)
    requires Tidy(st.cache)
    ensures Tidy(UpdateTxt(st, link, instance, service, proto, txt, ttl).0.cache)
  {
    hide Tidy, PutService, PushService, AfterGoodbye, TxtListEqual;
    var i := FindOwner(st.cache, link, instance, service, proto);
    if i == |st.cache| {
      NewTidy(st.cache, "", link,
              Marked(NewService(instance, service, proto).(txt := true, txtList := txt, txtTtl := ttl), Added,
                  TxtRecord));
    } else {
      var j := FindIn(st.cache[i].services, instance, service, proto);
      var s := st.cache[i].services[j];
      if ttl == 0 {
        GoodbyeTidy(st, i, j, s.(txt := false, txtList := [], txtTtl := 0), TxtRecord);
      } else {
        PutTidy(st.cache, i, j, Marked(s.(txt := true, txtList := txt, txtTtl := ttl), Updated, TxtRecord));
      }
    }
  }

  lemma PutAddrsTidy(cache: seq<Entry>, i: nat, addrs: seq<CachedAddr>)
    requires Tidy(cache) && i < |cache|
    ensures Tidy(PutAddrs(cache, i, addrs, Updated))
  {
  }

  lemma AddrTidy(st: State, link: Link, host: string, addr: int, ttl: nat)
    requires Tidy(st.cache)
    ensures Tidy(UpdateAddr(st, link, host, addr, ttl, false).0.cache)
  {
    hide DistinctEntries;
    var i := FindEntry(st.cache, host, link);
    if i < |st.cache| {
      var addrs := st.cache[i].addrs;
      var k := FindAddr(addrs, addr);
      if k < |addrs| { PutAddrsTidy(st.cache, i, RemoveAt(addrs, k)); }
      PutAddrsTidy(st.cache, i, if k < |addrs| then addrs[k := CachedAddr(addr, ttl)]
          else [CachedAddr(addr, ttl)] + addrs);
    }
  }

  lemma {:induction false} ApplyAllTidy(st: State, link: Link, us: seq<Update>)
    requires Tidy(st.cache)
    ensures Tidy(ApplyAll(st, link, us).cache)
    decreases |us|
  {
    hide Tidy, Apply;
    if us == [] {
    } else {
      ApplyTidy(st, link, us[0]);
      ApplyAllTidy(Apply(st, link, us[0]), link, us[1..]);
    }
  }

  lemma ClearedTidy(cache: seq<Entry>)
    requires Tidy(cache)
    ensures Tidy(ClearedCache(cache))
  {
  }

  lemma NothingRemoved(service: string, proto: string)
    ensures RemoveType([], service, proto) == []
  {
  }

  lemma FirstRemoved(cache: seq<Entry>, service: string, proto: string)
    requires cache != []
    ensures var left := OtherServices(cache[0].services, service, proto);
            RemoveType(cache, service, proto) ==
            (if left == [] then [] else [cache[0].(services := left)]) + RemoveType(cache[1..], service, proto)
  {
  }

  /** An entry for the host and link of one of these. */
  predicate PlacedIn(e: Entry, cache: seq<Entry>) {
    exists k :: 0 <= k < |cache| && e.host == cache[k].host && e.link == cache[k].link
  }

  lemma PlacedInTail(e: Entry, cache: seq<Entry>)
    requires cache != [] && PlacedIn(e, cache[1..])
    ensures PlacedIn(e, cache) && (DistinctEntries(cache) ==> !SameEntry(cache[0], e))
  {
    hide NullableNamesEqual;
    var k :| 0 <= k < |cache[1..]| && e.host == cache[1..][k].host && e.link == cache[1..][k].link;
    assert cache[1..][k] == cache[k + 1];
  }

  /** What is left of the first entry, before what is left of the others. */
  lemma LeftTidy(cache: seq<Entry>, e: Entry, tail: seq<Entry>)
    requires cache != [] && Tidy(cache) && Tidy(tail) && e.services != []
    requires e.host == cache[0].host && e.link == cache[0].link
    requires forall m :: 0 <= m < |tail| ==> PlacedIn(tail[m], cache[1..])
    ensures Tidy([e] + tail)
    ensures forall m :: 0 <= m < |[e] + tail| ==> PlacedIn(([e] + tail)[m], cache)
  {
    hide NullableNamesEqual, PlacedIn;
    assert PlacedIn(e, cache) by { PlacedFirst(e, cache); }
    forall m | 0 <= m < |tail|
      ensures PlacedIn(tail[m], cache) && !SameEntry(e, tail[m])
    {
      PlacedInTail(tail[m], cache);
    }
  }

  lemma PlacedFirst(e: Entry, cache: seq<Entry>)
    requires cache != [] && e.host == cache[0].host && e.link == cache[0].link
    ensures PlacedIn(e, cache)
  {
  }

  lemma {:induction false} RemoveTypeTidy(cache: seq<Entry>, service: string, proto: string)
    requires Tidy(cache)
    ensures Tidy(RemoveType(cache, service, proto))
    ensures forall m :: 0 <= m < |RemoveType(cache, service, proto)| ==>
            PlacedIn(RemoveType(cache, service, proto)[m], cache)
    decreases |cache|
  {
    hide OtherServices, NullableNamesEqual, RemoveType, EntryLeft, PlacedIn;
    if cache == [] {
      NothingRemoved(service, proto);
    } else {
      var tail := RemoveType(cache[1..], service, proto);
      var left := OtherServices(cache[0].services, service, proto);
      RemoveTypeTidy(cache[1..], service, proto);
      FirstRemoved(cache, service, proto);
      if left != [] {
        LeftTidy(cache, cache[0].(services := left), tail);
      } else {
        assert [] + tail == tail;
        forall m | 0 <= m < |tail| { PlacedInTail(tail[m], cache); }
      }
    }
  }

  lemma StepTidy(st: State, e: Event)
    requires Tidy(st.cache)
    ensures Tidy(Step(st, e).cache)
  {
    hide Tidy, ApplyAll, RemoveType, ClearedCache;
    match e
    case FinishBrowse(id) =>
      var i := IndexOfBrowse(st.browses, id);
      if i < |st.browses| { RemoveTypeTidy(st.cache, st.browses[i].service, st.browses[i].proto); }
    case Packet(link, updates) =>
      ApplyAllTidy(st, link, updates);
      ClearedTidy(ApplyAll(st, link, updates).cache);
    case _ =>
  }

  lemma {:induction false} RunTidy(st: State, events: seq<Event>)
    requires Tidy(st.cache)
    ensures Tidy(Run(st, events).cache)
    decreases |events|
  {
    hide Tidy, Step;
    if events == [] {
    } else {
      StepTidy(st, events[0]);
      RunTidy(Step(st, events[0]), events[1..]);
    }
  }

  /**
   * In every reachable cache: one entry for each host and link, none without a service; one service for each
   * link, instance, type and protocol over all entries; every service has a record, a PTR record has a
   * positive TTL, and nothing stays marked.
   */
  lemma CacheInOrder(events: seq<Event>)
    ensures var cache := Run(EMPTY, events).cache;
            && (forall i, k :: 0 <= i < k < |cache| ==> !SameEntry(cache[i], cache[k]))
            && (forall i :: 0 <= i < |cache| ==> cache[i].services != [])
            && (forall a :: a in Slots(cache) ==>
                HasRecord(a.s) && (a.s.ptr ==> a.s.ptrTtl > 0) && !a.s.dirty && a.s.records == {})
            && (forall a, b :: a in Slots(cache) && b in Slots(cache) && Named(a.s) && SameService(a, b) ==> a == b)
            && (forall a :: a in Slots(cache) && Named(a.s) ==> multiset(Slots(cache))[a] == 1)
  {
    hide Slots, Run, SameEntry, SameService, Named, Exact;
    var cache := Run(EMPTY, events).cache;
    EmptyIsQuiet();
    RunKeeps(EMPTY, events);
    RunTidy(EMPTY, events);
    forall a | a in Slots(cache)
      ensures a in Bag(cache) && SlotOk(a)
    {
    }
  }

  /**
   * Inside a packet, after any of its records on any reachable state: the same order of the cache, a service is
   * marked for the browsers exactly when one of its records has changed, and what is not marked is shown as it is.
   */
  lemma CacheInPacket(events: seq<Event>, link: Link, us: seq<Update>)
    ensures var st := ApplyAll(Run(EMPTY, events), link, us);
            && (forall i, k :: 0 <= i < k < |st.cache| ==> !SameEntry(st.cache[i], st.cache[k]))
            && (forall i :: 0 <= i < |st.cache| ==> st.cache[i].services != [])
            && (forall a :: a in Slots(st.cache) ==>
                  HasRecord(a.s) && (a.s.ptr ==> a.s.ptrTtl > 0) && (a.s.dirty <==> a.s.records != {}))
            && (forall a, b :: a in Slots(st.cache) && b in Slots(st.cache) && Named(a.s) && SameService(a, b) ==>
                a == b)
            && (forall a :: a in Slots(st.cache) && Named(a.s) ==> multiset(Slots(st.cache))[a] == 1)
            && (forall a, i :: a in Slots(st.cache) && 0 <= i < |st.browses| && Listening(st.browses[i])
                               && Matches(st.browses[i], a.s) && !a.s.dirty ==>
                  KeyOf(a) in ViewOf(st.browses[i]) && ViewOf(st.browses[i])[KeyOf(a)] == Project(a))
  {
    hide Slots, Run, SameEntry, SameService, Named, Exact, ApplyAll, KeyOf, ViewOf, Project, Matches, Quiet;
    var before := Run(EMPTY, events);
    assert Quiet(EMPTY) && Tidy(EMPTY.cache) by { EmptyIsQuiet(); }
    RunKeeps(EMPTY, events);
    RunTidy(EMPTY, events);
    QuietIsGood(before);
    ApplyAllKeeps(before, link, us);
    ApplyAllTidy(before, link, us);
    var st := ApplyAll(before, link, us);
    assert forall a :: a in Slots(st.cache) ==> a in Bag(st.cache) && SlotOk(a);
    assert forall i :: 0 <= i < |st.browses| ==> BrowseOk(Bag(st.cache), st.browses[i]);
  }
}
