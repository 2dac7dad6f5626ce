/** What every run of browsers and packets keeps. */
module MdnsProofs {
  import opened CStrings
  import opened MdnsCache
  import opened MdnsViews
  import opened MdnsCommon
  import opened Sequences

  ghost function Bag(cache: seq<Entry>): multiset<Slot> {
    multiset(Slots(cache))
  }

  // ----- the bag of a changed cache -----

  lemma {:induction false} SlotsAppend(a: seq<Entry>, b: seq<Entry>)
    ensures Slots(a + b) == Slots(a) + Slots(b)
    decreases |a|
  {
    hide EntrySlots;
    if a == [] {
      assert a + b == b;
    } else {
      SlotsAppend(a[1..], b);
      assert (a + b)[0] == a[0] && (a + b)[1..] == a[1..] + b;
      assert Slots(a + b) == EntrySlots(a[0]) + (Slots(a[1..]) + Slots(b));
    }
  }

  lemma ThreeParts(a: seq<Slot>, b: seq<Slot>, c: seq<Slot>)
    ensures a + (b + c) == a + b + c
  {
  }

  lemma SlotsSplit(cache: seq<Entry>, i: nat)
    requires i < |cache|
    ensures Slots(cache) == Slots(cache[..i]) + EntrySlots(cache[i]) + Slots(cache[i + 1..])
  {
    hide Slots, EntrySlots;
    assert cache == cache[..i] + cache[i..];
    assert cache[i..][0] == cache[i] && cache[i..][1..] == cache[i + 1..];
    SlotsAppend(cache[..i], cache[i..]);
    SlotsOfFirst(cache[i..]);
    ThreeParts(Slots(cache[..i]), EntrySlots(cache[i]), Slots(cache[i + 1..]));
  }

  lemma ReplaceBag(cache: seq<Entry>, i: nat, e: Entry)
    requires i < |cache|
    ensures multiset(EntrySlots(cache[i])) <= Bag(cache)
    ensures Bag(cache[i := e]) == Bag(cache) - multiset(EntrySlots(cache[i])) + multiset(EntrySlots(e))
  {
    SlotsSplit(cache, i);
    SlotsSplit(cache[i := e], i);
    assert cache[i := e][..i] == cache[..i] && cache[i := e][i + 1..] == cache[i + 1..];
  }

  lemma PutBag(cache: seq<Entry>, i: nat, j: nat, s: Service)
    requires i < |cache| && j < |cache[i].services|
    ensures SlotAt(cache[i], j) in Bag(cache)
    ensures Bag(PutService(cache, i, j, s))
         == Bag(cache) - multiset{SlotAt(cache[i], j)} + multiset{SlotAt(cache[i], j).(s := s)}
  {
    hide Bag;
    var e := cache[i].(services := cache[i].services[j := s]);
    ReplaceBag(cache, i, e);
    assert EntrySlots(e) == EntrySlots(cache[i])[j := SlotAt(cache[i], j).(s := s)];
    assert EntrySlots(cache[i])[j] == SlotAt(cache[i], j);
  }

  lemma PushBag(cache: seq<Entry>, i: nat, s: Service)
    requires i < |cache|
    ensures Bag(PushService(cache, i, s)) ==
            Bag(cache) + multiset{Slot(cache[i].host, cache[i].link, cache[i].addrs, s)}
  {
    var e := cache[i].(services := [s] + cache[i].services);
    ReplaceBag(cache, i, e);
    assert EntrySlots(e) == [SlotAt(e, 0)] + EntrySlots(cache[i]);
  }

  lemma WithoutOne(slots: seq<Slot>, j: nat)
    requires j < |slots|
    ensures slots[j] in multiset(slots) && multiset(RemoveAt(slots, j)) == multiset(slots) - multiset{slots[j]}
  {
    assert slots == slots[..j] + [slots[j]] + slots[j + 1..];
  }

  lemma DetachBag(cache: seq<Entry>, i: nat, j: nat)
    requires i < |cache| && j < |cache[i].services|
    ensures SlotAt(cache[i], j) in Bag(cache)
    ensures Bag(DetachService(cache, i, j)) == Bag(cache) - multiset{SlotAt(cache[i], j)}
  {
    hide Bag;
    var e := cache[i].(services := RemoveAt(cache[i].services, j));
    ReplaceBag(cache, i, e);
    var all := EntrySlots(cache[i]);
    assert EntrySlots(e) == RemoveAt(all, j);
    WithoutOne(all, j);
  }

  lemma DropBag(cache: seq<Entry>, i: nat)
    requires i < |cache|
    ensures Bag(DropIfBare(cache, i)) == Bag(cache)
  {
    SlotsSplit(cache, i);
    SlotsAppend(cache[..i], cache[i + 1..]);
    if cache[i].services == [] {
      assert EntrySlots(cache[i]) == [];
    }
  }

  lemma RemoveBag(cache: seq<Entry>, i: nat, j: nat)
    requires i < |cache| && j < |cache[i].services|
    ensures SlotAt(cache[i], j) in Bag(cache)
    ensures Bag(RemoveService(cache, i, j)) == Bag(cache) - multiset{SlotAt(cache[i], j)}
  {
    DetachBag(cache, i, j);
    DropBag(DetachService(cache, i, j), i);
  }

  lemma MoveBag(cache: seq<Entry>, i: nat, j: nat, k: nat, s: Service)
    requires i < |cache| && j < |cache[i].services| && k < |cache| && k != i
    ensures SlotAt(cache[i], j) in Bag(cache)
    ensures Bag(MoveService(cache, i, j, k, s))
         == Bag(cache) - multiset{SlotAt(cache[i], j)} + multiset{Slot(cache[k].host, cache[k].link, cache[k].addrs, s)}
  {
    var detached := DetachService(cache, i, j);
    DetachBag(cache, i, j);
    PushBag(detached, k, s);
    DropBag(PushService(detached, k, s), i);
  }

  lemma WithEntryBag(cache: seq<Entry>, host: string, link: Link)
    ensures Bag(WithEntry(cache, host, link)) == Bag(cache)
    ensures var e := WithEntry(cache, host, link)[EntryIndex(cache, host, link)]; e.link == link
  {
  }

  /** The whole list is searched: a service that is not found is not cached. */
  lemma NotFound(cache: seq<Entry>, link: Link, instance: string, service: string, proto: string, a: Slot)
    requires FindOwner(cache, link, instance, service, proto) == |cache| && a in Bag(cache)
    ensures !(a.link == link && ServiceMatch(a.s, instance, service, proto))
  {
  }

  // ----- each update -----

  lemma NewKeeps(st: State, link: Link, host: string, s: Service)
    requires Good(Bag(st.cache), st.browses)
    requires FindOwner(st.cache, link, s.instance, s.service, s.proto) == |st.cache|
    requires HasRecord(s) && (s.ptr ==> Named(s) && s.ptrTtl > 0) && s.dirty && s.records != {}
    ensures Good(Bag(PushService(WithEntry(st.cache, host, link), EntryIndex(st.cache, host, link), s)), st.browses)
  {
    hide BagOk, Unique, AllViewsOk;
    var cache, at := WithEntry(st.cache, host, link), EntryIndex(st.cache, host, link);
    WithEntryBag(st.cache, host, link);
    PushBag(cache, at, s);
    var slot := Slot(cache[at].host, cache[at].link, cache[at].addrs, s);
    forall a | a in Bag(st.cache) && Named(s)
      ensures !SameService(a, slot)
    {
      NotFound(st.cache, link, s.instance, s.service, s.proto, a);
      NamesAfterFold(a.s.instance, s.instance);
      NamesAfterFold(a.s.service, s.service);
      NamesAfterFold(a.s.proto, s.proto);
    }
    AddKeeps(Bag(st.cache), st.browses, slot);
  }

  lemma NamesAfterFold(a: string, b: string)
    requires b != ""
    ensures NamesEqual(a, b) <==> Fold(a) == Fold(b)
  {
  }

  lemma PutKeeps(st: State, i: nat, j: nat, s: Service)
    requires Good(Bag(st.cache), st.browses) && i < |st.cache| && j < |st.cache[i].services|
    requires var slot := SlotAt(st.cache[i], j);
             Changed(slot, slot.(s := s)) && (SlotOk(slot) ==> SlotOk(slot.(s := s)))
    ensures Good(Bag(PutService(st.cache, i, j, s)), st.browses)
  {
    hide Unique, AllViewsOk;
    var slot := SlotAt(st.cache[i], j);
    PutBag(st.cache, i, j, s);
    assert SlotOk(slot);
    ChangeKeeps(Bag(st.cache), st.browses, slot, slot.(s := s));
  }

  lemma FoundNames(cache: seq<Entry>, link: Link, instance: string, service: string, proto: string)
    requires FindOwner(cache, link, instance, service, proto) < |cache|
    ensures var i := FindOwner(cache, link, instance, service, proto);
            var j := FindIn(cache[i].services, instance, service, proto);
            j < |cache[i].services| && Named(cache[i].services[j]) && cache[i].link == link
  {
  }

  lemma PtrKeeps(st: State, link: Link, instance: string, service: string, proto: string, ttl: nat)
    requires Good(Bag(st.cache), st.browses)
    ensures var st' := UpdatePtr(st, link, instance, service, proto, ttl).0; Good(Bag(st'.cache), st'.browses)
  {
    hide BagOk, Unique, AllViewsOk, Bag;
    var i := FindOwner(st.cache, link, instance, service, proto);
    if instance == "" || service == "" || proto == "" {
    } else if i == |st.cache| {
      if ttl != 0 {
        var s := NewService(instance, service, proto).(ptr := true, ptrTtl := ttl);
        NewKeeps(st, link, "", Marked(s, Added, PtrRecord));
      }
    } else {
      FoundNames(st.cache, link, instance, service, proto);
      var j := FindIn(st.cache[i].services, instance, service, proto);
      var slot := SlotAt(st.cache[i], j);
      if ttl == 0 {
        RemoveBag(st.cache, i, j);
        if slot.s.ptr {
          GoodbyeKeeps(Bag(st.cache), st.browses, slot);
        } else {
          RemoveKeeps(Bag(st.cache), st.browses, slot);
        }
      } else {
        var result := if slot.s.ptr && slot.s.ptrTtl == ttl then NoChange else Updated;
        PutKeeps(st, i, j, Marked(slot.s.(ptr := true, ptrTtl := ttl), result, PtrRecord));
      }
    }
  }

  lemma GoodbyeOfRecordKeeps(st: State, i: nat, j: nat, s: Service, record: Record)
    requires Good(Bag(st.cache), st.browses) && i < |st.cache| && j < |st.cache[i].services|
    requires var was := st.cache[i].services[j];
             && s.instance == was.instance && s.service == was.service && s.proto == was.proto
             && s.ptr == was.ptr && s.ptrTtl == was.ptrTtl
    ensures var st' := AfterGoodbye(st, i, j, s, record).0; Good(Bag(st'.cache), st'.browses)
  {
    hide BagOk, Unique, AllViewsOk, Bag;
    if HasRecord(s) {
      PutKeeps(st, i, j, Marked(s, Updated, record));
    } else {
      RemoveBag(st.cache, i, j);
      RemoveKeeps(Bag(st.cache), st.browses, SlotAt(st.cache[i], j));
    }
  }

  lemma SrvKeeps(st: State, link: Link, host: string, instance: string, service: string, proto: string,
                 priority: nat, weight: nat, port: nat, ttl: nat)
    requires Good(Bag(st.cache), st.browses)
    ensures var st' := UpdateSrv(st, link, host, instance, service, proto, priority, weight, port, ttl).0;
            Good(Bag(st'.cache), st'.browses)
  {
    hide BagOk, Unique, AllViewsOk, Bag, PutService, PushService, MoveService, FindEntry, WithEntry, EntryIndex,
        FindOwner, FindIn, NamesEqual;
    var i := FindOwner(st.cache, link, instance, service, proto);
    if i == |st.cache| {
      if ttl != 0 {
        var s := SrvSet(NewService(instance, service, proto), priority, weight, port, ttl);
        NewKeeps(st, link, host, Marked(s, Added, SrvRecord));
      }
    } else {
      FoundNames(st.cache, link, instance, service, proto);
      var j := FindIn(st.cache[i].services, instance, service, proto);
      var s := st.cache[i].services[j];
      var s' := SrvSet(s, priority, weight, port, ttl);
      if ttl == 0 {
        if s.srv {
          GoodbyeOfRecordKeeps(st, i, j, s.(srv := false, priority := 0, weight := 0, port := 0, srvTtl := 0),
              SrvRecord);
        }
      } else if NamesEqual(st.cache[i].host, host) || FindEntry(st.cache, host, link) == i {
        PutKeeps(st, i, j, Marked(s', if s' == s then NoChange else Updated, SrvRecord));
      } else {
        MoveKeeps(st, link, host, i, j, Marked(s', Updated, SrvRecord));
      }
    }
  }

  lemma MoveKeeps(st: State, link: Link, host: string, i: nat, j: nat, s: Service)
    requires Good(Bag(st.cache), st.browses) && i < |st.cache| && j < |st.cache[i].services| && st.cache[i].link == link
    requires FindEntry(st.cache, host, link) != i
    requires var was := st.cache[i].services[j];
             && s.instance == was.instance && s.service == was.service && s.proto == was.proto
             && s.ptr == was.ptr && s.ptrTtl == was.ptrTtl && s.srv && s.dirty && s.records != {}
    ensures var cache := WithEntry(st.cache, host, link);
            var owner := if |cache| == |st.cache| then i else i + 1;
            owner < |cache| && j < |cache[owner].services| && EntryIndex(st.cache, host, link) != owner
            && Good(Bag(MoveService(cache, owner, j, EntryIndex(st.cache, host, link), s)), st.browses)
  {
    hide Unique, AllViewsOk;
    var cache := WithEntry(st.cache, host, link);
    var owner := if |cache| == |st.cache| then i else i + 1;
    var at := EntryIndex(st.cache, host, link);
    WithEntryBag(st.cache, host, link);
    MoveBag(cache, owner, j, at, s);
    var slot := SlotAt(cache[owner], j);
    assert SlotOk(slot);
    ChangeKeeps(Bag(st.cache), st.browses, slot, Slot(cache[at].host, cache[at].link, cache[at].addrs, s));
  }

  lemma TxtKeeps(st: State, link: Link, instance: string, service: string, proto: string, txt: seq<TxtItem>, ttl: nat)
    requires Good(Bag(st.cache), st.browses)
    ensures var st' := UpdateTxt(st, link, instance, service, proto, txt, ttl).0; Good(Bag(st'.cache), st'.browses)
  {
    hide BagOk, Unique, AllViewsOk, Bag;
    var i := FindOwner(st.cache, link, instance, service, proto);
    if i == |st.cache| {
      if ttl != 0 {
        var s := NewService(instance, service, proto).(txt := true, txtList := txt, txtTtl := ttl);
        NewKeeps(st, link, "", Marked(s, Added, TxtRecord));
      }
    } else {
      FoundNames(st.cache, link, instance, service, proto);
      var j := FindIn(st.cache[i].services, instance, service, proto);
      var s := st.cache[i].services[j];
      if ttl == 0 {
        if s.txt {
          GoodbyeOfRecordKeeps(st, i, j, s.(txt := false, txtList := [], txtTtl := 0), TxtRecord);
        }
      } else if !(TxtListEqual(s.txtList, txt) && s.txt && s.txtTtl == ttl) {
        PutKeeps(st, i, j, Marked(s.(txt := true, txtList := txt, txtTtl := ttl), Updated, TxtRecord));
      }
    }
  }

  /** Many services changed at once, one at a time. */
  lemma {:induction false} ManyChangesKeep(rest: multiset<Slot>, browses: seq<Browse>, before: seq<Slot>,
      after: seq<Slot>, n: nat)
    requires n <= |before| == |after| && Good(rest + multiset(before), browses)
    requires forall m :: 0 <= m < |before| ==> Changed(before[m], after[m]) && SlotOk(after[m])
    ensures Good(rest + multiset(after[..n] + before[n..]), browses)
    decreases n
  {
    hide BagOk, Unique, AllViewsOk, Changed, SlotOk;
    if n == 0 {
      assert after[..0] + before[0..] == before;
    } else {
      ManyChangesKeep(rest, browses, before, after, n - 1);
      assert before[n - 1..] == [before[n - 1]] + before[n..];
      assert after[..n] == after[..n - 1] + [after[n - 1]];
      var bag := rest + multiset(after[..n - 1] + before[n - 1..]);
      ChangeKeeps(bag, browses, before[n - 1], after[n - 1]);
      assert rest + multiset(after[..n] + before[n..]) == bag - multiset{before[n - 1]} + multiset{after[n - 1]};
    }
  }

  lemma MarkedSlot(before: Slot, addrs: seq<CachedAddr>)
    requires SlotOk(before)
    ensures var after := before.(addrs := addrs, s := Marked(before.s, Updated, AddrRecord));
            Changed(before, after) && SlotOk(after)
  {
  }

  lemma AddrsKeep(st: State, i: nat, addrs: seq<CachedAddr>)
    requires Good(Bag(st.cache), st.browses) && i < |st.cache|
    ensures Good(Bag(PutAddrs(st.cache, i, addrs, Updated)), st.browses)
  {
    hide Unique, AllViewsOk, Bag, Marked;
    var e := st.cache[i];
    var e' := e.(addrs := addrs, services := MarkedAll(e.services, Updated, AddrRecord));
    ReplaceBag(st.cache, i, e');
    var before, after := EntrySlots(e), EntrySlots(e');
    var rest := Bag(st.cache) - multiset(before);
    assert Bag(st.cache) == rest + multiset(before);
    forall m | 0 <= m < |before|
      ensures Changed(before[m], after[m]) && SlotOk(after[m])
    {
      assert before[m] in multiset(before);
      MarkedSlot(before[m], addrs);
    }
    ManyChangesKeep(rest, st.browses, before, after, |before|);
    assert after[..|before|] + before[|before|..] == after;
  }

  lemma AddrKeeps(st: State, link: Link, host: string, addr: int, ttl: nat, create: bool)
    requires Good(Bag(st.cache), st.browses)
    ensures var st' := UpdateAddr(st, link, host, addr, ttl, create).0; Good(Bag(st'.cache), st'.browses)
  {
    hide BagOk, Unique, AllViewsOk, Bag;
    var i := FindEntry(st.cache, host, link);
    if ttl == 0 {
      if i < |st.cache| && FindAddr(st.cache[i].addrs, addr) < |st.cache[i].addrs| {
        var left := RemoveAt(st.cache[i].addrs, FindAddr(st.cache[i].addrs, addr));
        AddrsKeep(st, i, left);
        DropBag(PutAddrs(st.cache, i, left, Updated), i);
      }
    } else if i < |st.cache| || create {
      WithEntryBag(st.cache, host, link);
      var cache, at := WithEntry(st.cache, host, link), EntryIndex(st.cache, host, link);
      var addrs := cache[at].addrs;
      var k := FindAddr(addrs, addr);
      var updated := if k < |addrs| then addrs[k := CachedAddr(addr, ttl)] else [CachedAddr(addr, ttl)] + addrs;
      AddrsKeep(st.(cache := cache), at, updated);
    }
  }

  lemma ApplyKeeps(st: State, link: Link, u: Update)
    requires Good(Bag(st.cache), st.browses)
    ensures Good(Bag(Apply(st, link, u).cache), Apply(st, link, u).browses)
  {
    hide Good, Bag, UpdatePtr, UpdateSrv, UpdateTxt, UpdateAddr;
    match u
    case PtrUpdate(instance, service, proto, ttl) => PtrKeeps(st, link, instance, service, proto, ttl);
    case SrvUpdate(host, instance, service, proto, priority, weight, port, ttl) =>
      SrvKeeps(st, link, host, instance, service, proto, priority, weight, port, ttl);
    case TxtUpdate(instance, service, proto, txt, ttl) => TxtKeeps(st, link, instance, service, proto, txt, ttl);
    case AddrUpdate(host, addr, ttl) => AddrKeeps(st, link, host, addr, ttl, false);
  }

  lemma {:induction false} ApplyAllKeeps(st: State, link: Link, us: seq<Update>)
    requires Good(Bag(st.cache), st.browses)
    ensures Good(Bag(ApplyAll(st, link, us).cache), ApplyAll(st, link, us).browses)
    decreases |us|
  {
    hide Good, Bag, Apply;
    if us == [] {
    } else {
      ApplyKeeps(st, link, us[0]);
      ApplyAllKeeps(Apply(st, link, us[0]), link, us[1..]);
    }
  }

  // ----- the end of a packet -----

  /** The browser shows exactly the cached services of its type that have a PTR record. */
  ghost predicate Exact(bag: multiset<Slot>, b: Browse) {
    && (forall a :: a in bag && Matches(b, a.s) ==> KeyOf(a) in ViewOf(b) && ViewOf(b)[KeyOf(a)] == Project(a))
    && (forall k :: k in ViewOf(b) ==> exists a :: a in bag && Matches(b, a.s) && KeyOf(a) == k)
  }

  ghost predicate Settled(bag: multiset<Slot>, browses: seq<Browse>) {
    && BagOk(bag) && Unique(bag)
    && forall i :: 0 <= i < |browses| ==>
         (Listening(browses[i]) ==> Exact(bag, browses[i])) && (browses[i].state == BrowseInit ==> browses[i].log == [])
  }

  lemma SyncView(bag: multiset<Slot>, b: Browse, slots: seq<Slot>)
    requires BagOk(bag) && Unique(bag) && bag == multiset(slots) && BrowseOk(bag, b) && Listening(b)
    ensures Exact(bag, b.(log := b.log + Notices(b, slots, false)))
  {
    hide Project, KeyOf, Unique, SameType, Notices, HasRecord, Named;
    var b' := b.(log := b.log + Notices(b, slots, false));
    forall i | 0 <= i < |slots| ensures slots[i] in bag { }
    NoticesView(bag, b, ViewOf(b), slots, false);
    ViewAppend(map[], b.log, Notices(b, slots, false));
    forall a | a in bag && Matches(b', a.s)
      ensures KeyOf(a) in ViewOf(b') && ViewOf(b')[KeyOf(a)] == Project(a)
    {
      var i :| 0 <= i < |slots| && slots[i] == a;
      assert SlotOk(a);
      if !a.s.dirty && ViewOf(b')[KeyOf(a)] != ViewOf(b)[KeyOf(a)] {
        var m :| 0 <= m < |slots| && Due(b, slots[m], false) && KeyOf(slots[m]) == KeyOf(a);
        MatchingKey(bag, b, slots[m], a);
      }
    }
    forall k | k in ViewOf(b')
      ensures exists a :: a in bag && Matches(b', a.s) && KeyOf(a) == k
    {
      if k in ViewOf(b) {
        var a :| a in bag && Matches(b, a.s) && KeyOf(a) == k;
        assert Matches(b', a.s);
      } else {
        var i :| 0 <= i < |slots| && Due(b, slots[i], false) && KeyOf(slots[i]) == k;
        assert slots[i] in bag && Matches(b', slots[i].s);
      }
    }
  }

  lemma SyncedViews(st: State)
    requires Good(Bag(st.cache), st.browses)
    ensures Settled(Bag(st.cache), SyncSlots(st.browses, Slots(st.cache)))
  {
    hide BagOk, Unique, ViewOk, Exact, Slots;
    var slots := Slots(st.cache);
    var told := SyncSlots(st.browses, slots);
    assert |told| == |st.browses| by {
      if st.browses != [] {
        SyncNotices(st.browses, slots, 0);
      } else {
        SyncNone(slots);
      }
    }
    forall i | 0 <= i < |told|
      ensures Listening(told[i]) ==> Exact(Bag(st.cache), told[i])
      ensures told[i].state == BrowseInit ==> told[i].log == []
    {
      var b := st.browses[i];
      SyncNotices(st.browses, slots, i);
      assert BrowseOk(Bag(st.cache), b);
      if Listening(b) {
        SyncView(Bag(st.cache), b, slots);
      } else {
        NothingDue(b, slots);
        assert b.log + [] == b.log;
      }
    }
  }

  lemma {:induction false} SyncNone(slots: seq<Slot>)
    ensures SyncSlots([], slots) == []
    decreases |slots|
  {
  }

  lemma {:induction false} NothingDue(b: Browse, slots: seq<Slot>)
    requires !Listening(b)
    ensures Notices(b, slots, false) == []
    decreases |slots|
  {
    if slots == [] {
    } else {
      NothingDue(b, slots[1..]);
    }
  }

  function ClearedSlot(a: Slot): Slot {
    if a.s.dirty then a.(s := Cleared(a.s)) else a
  }

  lemma ClearKeeps(bag: multiset<Slot>, browses: seq<Browse>, a: Slot)
    requires Settled(bag, browses) && a in bag
    ensures Settled(bag - multiset{a} + multiset{ClearedSlot(a)}, browses)
  {
    hide Unique;
    var a' := ClearedSlot(a);
    var bag' := bag - multiset{a} + multiset{a'};
    assert SlotOk(a) && SlotOk(a');
    assert Project(a') == Project(a) && KeyOf(a') == KeyOf(a) && SameService(a, a') && Named(a.s) == Named(a'.s);
    UniqueAfterChange(bag, a, a');
    forall i | 0 <= i < |browses| && Listening(browses[i])
      ensures Exact(bag', browses[i])
    {
      var b := browses[i];
      assert Exact(bag, b) && Matches(b, a'.s) == Matches(b, a.s);
      forall k | k in ViewOf(b)
        ensures exists x :: x in bag' && Matches(b, x.s) && KeyOf(x) == k
      {
        var x :| x in bag && Matches(b, x.s) && KeyOf(x) == k;
        assert x != a ==> x in bag';
        assert a' in bag';
      }
    }
  }

  lemma {:induction false} ClearsKeep(browses: seq<Browse>, before: seq<Slot>, after: seq<Slot>, n: nat)
    requires n <= |before| == |after| && Settled(multiset(before), browses)
    requires forall m :: 0 <= m < |before| ==> after[m] == ClearedSlot(before[m])
    ensures Settled(multiset(after[..n] + before[n..]), browses)
    decreases n
  {
    hide Settled, ClearedSlot;
    if n == 0 {
      assert after[..0] + before[0..] == before;
    } else {
      ClearsKeep(browses, before, after, n - 1);
      assert before[n - 1..] == [before[n - 1]] + before[n..];
      assert after[..n] == after[..n - 1] + [after[n - 1]];
      ClearKeeps(multiset(after[..n - 1] + before[n - 1..]), browses, before[n - 1]);
      assert multiset(after[..n] + before[n..])
          == multiset(after[..n - 1] + before[n - 1..]) - multiset{before[n - 1]} + multiset{after[n - 1]};
    }
  }

  lemma {:induction false} ClearedSlots(cache: seq<Entry>)
    ensures |Slots(ClearedCache(cache))| == |Slots(cache)|
    ensures forall m :: 0 <= m < |Slots(cache)| ==> Slots(ClearedCache(cache))[m] == ClearedSlot(Slots(cache)[m])
    decreases |cache|
  {
    if cache == [] {
    } else {
      ClearedSlots(cache[1..]);
      assert ClearedCache(cache)[1..] == ClearedCache(cache[1..]);
    }
  }

  /** Nothing is left to tell. */
  ghost predicate Clean(bag: multiset<Slot>) {
    forall a :: a in bag ==> !a.s.dirty && a.s.records == {}
  }

  lemma SyncSettles(st: State)
    requires Good(Bag(st.cache), st.browses)
    ensures Settled(Bag(ProcessSync(st).cache), ProcessSync(st).browses) && Clean(Bag(ProcessSync(st).cache))
  {
    hide Good, BagOk, Unique, Exact, SlotOk;
    var before, after := Slots(st.cache), Slots(ClearedCache(st.cache));
    SyncedViews(st);
    ClearedSlots(st.cache);
    ClearsKeep(SyncSlots(st.browses, before), before, after, |before|);
    assert after[..|before|] + before[|before|..] == after;
    assert BagOk(multiset(after));
    forall a | a in multiset(after) ensures !a.s.dirty && a.s.records == {} {
      var m :| 0 <= m < |after| && after[m] == a;
      CleanSlot(multiset(after), a);
    }
  }

  lemma CleanSlot(bag: multiset<Slot>, a: Slot)
    requires BagOk(bag) && a in bag && !a.s.dirty
    ensures a.s.records == {}
  {
  }
}
