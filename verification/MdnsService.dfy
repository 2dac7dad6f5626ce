/** The cache and browser lists as the service task changes them, step by step. */
module MdnsService {
  import opened MdnsCache
  import opened MdnsCommon

  lemma {:induction false} SyncAppend(browses: seq<Browse>, a: seq<Slot>, b: seq<Slot>)
    ensures SyncSlots(browses, a + b) == SyncSlots(SyncSlots(browses, a), b)
    decreases |a|
  {
    hide SyncSlot;
    if a == [] {
      assert a + b == b;
    } else {
      SyncAppend(SyncSlot(browses, a[0]), a[1..], b);
      assert (a + b)[1..] == a[1..] + b;
    }
  }

  lemma NothingToSync(browses: seq<Browse>)
    ensures SyncSlots(browses, Slots([])) == browses
  {
  }

  lemma {:induction false} ReplayAppend(b: Browse, x: seq<Slot>, y: seq<Slot>)
    ensures Replay(b, x + y) == Replay(Replay(b, x), y)
    decreases |x|
  {
    hide Matches, Project;
    if x == [] {
      assert x + y == y;
    } else {
      ReplayAppend(if Matches(b, x[0].s) then Told(b, Project(x[0])) else b, x[1..], y);
      assert (x + y)[1..] == x[1..] + y;
    }
  }

  lemma NothingToReplay(b: Browse)
    ensures Replay(b, Slots([])) == b
  {
  }

  lemma {:induction false} OthersAppend(a: seq<Service>, b: seq<Service>, service: string, proto: string)
    ensures OtherServices(a + b, service, proto) == OtherServices(a, service, proto) + OtherServices(b, service, proto)
    decreases |a|
  {
    hide IfOther;
    if a == [] {
      assert a + b == b;
    } else {
      OthersAppend(a[1..], b, service, proto);
      assert (a + b)[0] == a[0] && (a + b)[1..] == a[1..] + b;
      var first, rest := IfOther(a[0], service, proto), OtherServices(a[1..], service, proto);
      assert OtherServices(a, service, proto) == first + rest;
      assert OtherServices(a + b, service, proto) == first + (rest + OtherServices(b, service, proto));
    }
  }

  lemma EntriesJoined(a: seq<Entry>, b: seq<Entry>, c: seq<Entry>)
    ensures a + (b + c) == (a + b) + c
  {
  }

  lemma {:induction false} RemoveTypeAppend(a: seq<Entry>, b: seq<Entry>, service: string, proto: string)
    ensures RemoveType(a + b, service, proto) == RemoveType(a, service, proto) + RemoveType(b, service, proto)
    decreases |a|
  {
    hide EntryLeft;
    if a == [] {
      assert a + b == b;
    } else {
      RemoveTypeAppend(a[1..], b, service, proto);
      assert (a + b)[0] == a[0] && (a + b)[1..] == a[1..] + b;
      var first := EntryLeft(a[0], service, proto);
      var rest := RemoveType(a[1..], service, proto);
      assert RemoveType(a, service, proto) == first + rest;
      assert RemoveType(a + b, service, proto) == first + (rest + RemoveType(b, service, proto));
      EntriesJoined(first, rest, RemoveType(b, service, proto));
    }
  }

  lemma RemoveTypeMore(cache: seq<Entry>, k: nat, service: string, proto: string)
    requires k < |cache|
    ensures RemoveType(cache[..k + 1], service, proto) ==
            RemoveType(cache[..k], service, proto) + EntryLeft(cache[k], service, proto)
  {
    hide EntryLeft;
    var one := [cache[k]];
    assert cache[..k + 1] == cache[..k] + one && one[1..] == [];
    RemoveTypeAppend(cache[..k], one, service, proto);
  }

  lemma RemoveTypeOfNone(service: string, proto: string)
    ensures RemoveType([], service, proto) == []
  {
  }

  lemma {:induction false} FindEntryFrom(cache: seq<Entry>, host: string, link: Link, i: nat)
    requires i <= |cache|
    requires forall k :: 0 <= k < i ==> !(NullableNamesEqual(cache[k].host, host) && cache[k].link == link)
    ensures FindEntry(cache, host, link) == i + FindEntry(cache[i..], host, link)
    decreases i
  {
  }

  lemma {:induction false} FindInFrom(services: seq<Service>, instance: string, service: string, proto: string, j: nat)
    requires j <= |services|
    requires forall k :: 0 <= k < j ==> !ServiceMatch(services[k], instance, service, proto)
    ensures FindIn(services, instance, service, proto) == j + FindIn(services[j..], instance, service, proto)
    decreases j
  {
  }

  lemma {:induction false} FindOwnerFrom(cache: seq<Entry>, link: Link, instance: string, service: string,
      proto: string, i: nat)
    requires i <= |cache|
    requires forall k :: 0 <= k < i && cache[k].link == link ==>
               FindIn(cache[k].services, instance, service, proto) == |cache[k].services|
    ensures FindOwner(cache, link, instance, service, proto) ==
            i + FindOwner(cache[i..], link, instance, service, proto)
    decreases i
  {
  }

  /** cache_find_entry */
  method SearchEntry(cache: seq<Entry>, host: string, link: Link) returns (i: nat)
    ensures i == FindEntry(cache, host, link)
  {
    i := 0;
    while i < |cache|
      invariant i <= |cache|
      invariant forall k :: 0 <= k < i ==> !(NullableNamesEqual(cache[k].host, host) && cache[k].link == link)
    {
      if NullableNamesEqual(cache[i].host, host) && cache[i].link == link { break; }
      i := i + 1;
    }
    FindEntryFrom(cache, host, link, i);
  }

  /** cache_find_service: entry and position, or |cache| for NULL. */
  method SearchService(cache: seq<Entry>, link: Link, instance: string, service: string,
      proto: string) returns (i: nat, j: nat)
    ensures i == FindOwner(cache, link, instance, service, proto)
    ensures i < |cache| ==> j == FindIn(cache[i].services, instance, service, proto)
  {
    i, j := 0, 0;
    while i < |cache|
      invariant i <= |cache|
      invariant forall k :: 0 <= k < i && cache[k].link == link ==>
                  FindIn(cache[k].services, instance, service, proto) == |cache[k].services|
    {
      if cache[i].link == link {
        j := 0;
        while j < |cache[i].services|
          invariant j <= |cache[i].services|
          invariant forall k :: 0 <= k < j ==> !ServiceMatch(cache[i].services[k], instance, service, proto)
        {
          if ServiceMatch(cache[i].services[j], instance, service, proto) {
            FindInFrom(cache[i].services, instance, service, proto, j);
            FindOwnerFrom(cache, link, instance, service, proto, i);
            return;
          }
          j := j + 1;
        }
        FindInFrom(cache[i].services, instance, service, proto, j);
      }
      i := i + 1;
    }
    FindOwnerFrom(cache, link, instance, service, proto, i);
  }

  /** s_cache and s_browse, which every function of the component changes in place. */
  class Mdns {
    var cache: seq<Entry>
    var browses: seq<Browse>

    constructor ()
      ensures Now() == EMPTY
    {
      cache, browses := [], [];
    }

    ghost function Now(): State
      reads this
    {
      State(cache, browses)
    }

    /** cache_get_or_add_entry */
    method GetOrAddEntry(host: string, link: Link) returns (k: nat)
      modifies this`cache
      ensures cache == WithEntry(old(cache), host, link) && k == EntryIndex(old(cache), host, link)
    {
      k := SearchEntry(cache, host, link);
      if k == |cache| {
        cache := [Entry(host, link, [], [])] + cache;
        k := 0;
      }
    }

    /** cache_add_service */
    method AddService(i: nat, s: Service)
      requires i < |cache|
      modifies this`cache
      ensures cache == PushService(old(cache), i, s)
    {
      cache := cache[i := cache[i].(services := [s] + cache[i].services)];
    }

    /** cache_remove_service */
    method Remove(i: nat, j: nat)
      requires i < |cache| && j < |cache[i].services|
      modifies this`cache
      ensures cache == RemoveService(old(cache), i, j)
    {
      var left := cache[i].services[..j] + cache[i].services[j + 1..];
      cache := cache[i := cache[i].(services := left)];
      if left == [] {
        cache := cache[..i] + cache[i + 1..];
      }
    }

    /** cache_move_service: the list position of the service after the move depends on which entry goes. */
    method Move(i: nat, j: nat, k: nat) returns (at: nat)
      requires i < |cache| && j < |cache[i].services| && k < |cache| && k != i
      modifies this`cache
      ensures cache == MoveService(old(cache), i, j, k, old(cache[i].services[j]))
      ensures at < |cache| && cache[at].services != [] && cache[at].services[0] == old(cache[i].services[j])
      ensures forall s :: PutService(cache, at, 0, s) == MoveService(old(cache), i, j, k, s)
    {
      var s := cache[i].services[j];
      var left := cache[i].services[..j] + cache[i].services[j + 1..];
      cache := cache[i := cache[i].(services := left)];
      cache := cache[k := cache[k].(services := [s] + cache[k].services)];
      at := k;
      if left == [] {
        cache := cache[..i] + cache[i + 1..];
        if i < k { at := k - 1; }
      }
      forall s' ensures PutService(cache, at, 0, s') == MoveService(old(cache), i, j, k, s') {
        assert ([s] + old(cache[k].services))[0 := s'] == [s'] + old(cache[k].services);
      }
    }

    /** service_cache_mark_sync_out */
    method Mark(i: nat, j: nat, result: UpdateResult, record: Record)
      requires i < |cache| && j < |cache[i].services|
      modifies this`cache
      ensures cache == PutService(old(cache), i, j, Marked(old(cache[i].services[j]), result, record))
    {
      if result.Added? || result.Updated? {
        var s := cache[i].services[j];
        Store(i, j, s.(records := s.records + {record}, dirty := true));
      } else {
        assert cache[i].services[j := cache[i].services[j]] == cache[i].services;
      }
    }

    method Store(i: nat, j: nat, s: Service)
      requires i < |cache| && j < |cache[i].services|
      modifies this`cache
      ensures cache == PutService(old(cache), i, j, s)
    {
      cache := cache[i := cache[i].(services := cache[i].services[j := s])];
    }

    /** The browsers that match are told, in list order. */
    method Notify(s: Service, n: Notice)
      modifies this`browses
      ensures browses == NotifyMatching(old(browses), s, n)
    {
      hide Matches;
      var i := 0;
      while i < |browses|
        invariant i <= |browses| == |old(browses)|
        invariant forall k :: 0 <= k < i ==> browses[k] == NotifyMatching(old(browses), s, n)[k]
        invariant forall k :: i <= k < |browses| ==> browses[k] == old(browses[k])
      {
        if Matches(browses[i], s) {
          browses := browses[i := browses[i].(log := browses[i].log + [n])];
        }
        i := i + 1;
      }
      assert browses == NotifyMatching(old(browses), s, n);
    }

    /** mdns_priv_cache_update_ptr */
    method UpdatePtr(link: Link, instance: string, service: string, proto: string,
        ttl: nat) returns (result: UpdateResult)
      modifies this
      ensures (Now(), result) == MdnsCache.UpdatePtr(old(Now()), link, instance, service, proto, ttl)
    {
      if instance == "" || service == "" || proto == "" { return NoChange; }
      var i, j := SearchService(cache, link, instance, service, proto);
      if ttl == 0 {
        if i == |cache| { return NoChange; }
        var s := cache[i].services[j];
        if s.ptr {
          Notify(s, Goodbye(Slot(cache[i].host, cache[i].link, cache[i].addrs, s)));
        }
        Remove(i, j);
        return Removed;
      }
      if i == |cache| {
        i := GetOrAddEntry("", link);
        var s := NewService(instance, service, proto).(ptr := true, ptrTtl := ttl);
        AddService(i, Marked(s, Added, PtrRecord));
        return Added;
      }
      var s := cache[i].services[j];
      var changed := !s.ptr || s.ptrTtl != ttl;
      result := if changed then Updated else NoChange;
      Store(i, j, Marked(s.(ptr := true, ptrTtl := ttl), result, PtrRecord));
    }

    /** mdns_priv_cache_update_srv */
    method UpdateSrv(link: Link, host: string, instance: string, service: string, proto: string,
                     priority: nat, weight: nat, port: nat, ttl: nat) returns (result: UpdateResult)
      modifies this
      ensures (Now(), result) ==
              MdnsCache.UpdateSrv(old(Now()), link, host, instance, service, proto, priority, weight, port, ttl)
    {
      hide PutService, PushService, MoveService, FindOwner, FindIn, ServiceMatch, HasRecord, Marked, SrvSet;
      var i, j := SearchService(cache, link, instance, service, proto);
      if ttl == 0 {
        if i == |cache| || !cache[i].services[j].srv { return NoChange; }
        var s := cache[i].services[j].(srv := false, priority := 0, weight := 0, port := 0, srvTtl := 0);
        if !HasRecord(s) {
          Remove(i, j);
          return Removed;
        }
        Store(i, j, Marked(s, Updated, SrvRecord));
        return Updated;
      }
      if i < |cache| && NamesEqual(cache[i].host, host) {
        result := SetSrv(i, j, NoChange, priority, weight, port, ttl);
        return;
      }
      var before := |cache|;
      var k := GetOrAddEntry(host, link);
      if i == before {
        AddService(k, Marked(SrvSet(NewService(instance, service, proto), priority, weight, port, ttl), Added,
            SrvRecord));
        return Added;
      }
      var owner := if |cache| == before then i else i + 1;
      if owner == k {
        result := SetSrv(owner, j, NoChange, priority, weight, port, ttl);
      } else {
        var at := Move(owner, j, k);
        result := SetSrv(at, 0, Updated, priority, weight, port, ttl);
      }
    }

    /** service_cache_srv_update and the mark, after a move or without one. */
    method SetSrv(i: nat, j: nat, moved: UpdateResult, priority: nat, weight: nat, port: nat,
        ttl: nat) returns (result: UpdateResult)
      requires i < |cache| && j < |cache[i].services| && (moved.NoChange? || moved.Updated?)
      modifies this`cache
      ensures var s := old(cache[i].services[j]); var s' := SrvSet(s, priority, weight, port, ttl);
              && result == (if moved.Updated? || s' != s then Updated else NoChange)
              && cache == PutService(old(cache), i, j, Marked(s', result, SrvRecord))
    {
      var s := cache[i].services[j];
      result := moved;
      if !s.srv { s := s.(srv := true); result := Updated; }
      if s.priority != priority { s := s.(priority := priority); result := Updated; }
      if s.weight != weight { s := s.(weight := weight); result := Updated; }
      if s.port != port { s := s.(port := port); result := Updated; }
      if s.srvTtl != ttl { s := s.(srvTtl := ttl); result := Updated; }
      Store(i, j, Marked(s, result, SrvRecord));
    }

    /** mdns_priv_cache_update_txt */
    method UpdateTxt(link: Link, instance: string, service: string, proto: string, txt: seq<TxtItem>, ttl: nat)
      returns (result: UpdateResult)
      modifies this
      ensures (Now(), result) == MdnsCache.UpdateTxt(old(Now()), link, instance, service, proto, txt, ttl)
    {
      var i, j := SearchService(cache, link, instance, service, proto);
      if ttl == 0 {
        if i == |cache| || !cache[i].services[j].txt { return NoChange; }
        var s := cache[i].services[j].(txt := false, txtList := [], txtTtl := 0);
        if !HasRecord(s) {
          Remove(i, j);
          return Removed;
        }
        Store(i, j, Marked(s, Updated, TxtRecord));
        return Updated;
      }
      if i == |cache| {
        i := GetOrAddEntry("", link);
        var s := NewService(instance, service, proto).(txt := true, txtList := txt, txtTtl := ttl);
        AddService(i, Marked(s, Added, TxtRecord));
        return Added;
      }
      var s := cache[i].services[j];
      var same := EqualTxt(s.txtList, txt);
      if same && s.txt && s.txtTtl == ttl { return NoChange; }
      Store(i, j, Marked(s.(txt := true, txtList := txt, txtTtl := ttl), Updated, TxtRecord));
      return Updated;
    }

    /** cache_update_addr */
    method UpdateAddr(link: Link, host: string, addr: int, ttl: nat, create: bool) returns (result: UpdateResult)
      modifies this
      ensures (Now(), result) == MdnsCache.UpdateAddr(old(Now()), link, host, addr, ttl, create)
    {
      hide FindEntry, FindAddr, WithEntry, EntryIndex, NullableNamesEqual, MarkedAll;
      var i := SearchEntry(cache, host, link);
      if ttl == 0 {
        if i == |cache| { return NoChange; }
        var k := SearchAddr(cache[i].addrs, addr);
        if k == |cache[i].addrs| { return NoChange; }
        cache := cache[i := cache[i].(addrs := cache[i].addrs[..k] + cache[i].addrs[k + 1..])];
        ghost var left := cache[i].addrs;
        MarkAll(i, Updated);
        assert cache == PutAddrs(old(cache), i, left, Updated);
        if cache[i].addrs == [] && cache[i].services == [] {
          cache := cache[..i] + cache[i + 1..];
        }
        return Removed;
      }
      if i == |cache| && !create { return NoChange; }
      i := GetOrAddEntry(host, link);
      var k := SearchAddr(cache[i].addrs, addr);
      if k < |cache[i].addrs| {
        if cache[i].addrs[k].ttl == ttl { return NoChange; }
        cache := cache[i := cache[i].(addrs := cache[i].addrs[k := CachedAddr(addr, ttl)])];
      } else {
        cache := cache[i := cache[i].(addrs := [CachedAddr(addr, ttl)] + cache[i].addrs)];
      }
      ghost var updated := cache[i].addrs;
      MarkAll(i, Updated);
      assert cache == PutAddrs(WithEntry(old(cache), host, link), i, updated, Updated);
      return Updated;
    }

    /** Every service of the entry is marked for its addresses. */
    method MarkAll(i: nat, result: UpdateResult)
      requires i < |cache|
      modifies this`cache
      ensures cache == PutAddrs(old(cache), i, old(cache[i].addrs), result)
    {
      hide Marked;
      ghost var services := MarkedAll(cache[i].services, result, AddrRecord);
      var j := 0;
      while j < |cache[i].services|
        invariant i < |cache| && j <= |old(cache[i].services)| == |cache[i].services|
        invariant cache == old(cache)[i := old(cache[i]).(services := cache[i].services)]
        invariant forall k :: 0 <= k < j ==> cache[i].services[k] == services[k]
        invariant forall k :: j <= k < |services| ==> cache[i].services[k] == old(cache[i].services[k])
      {
        Mark(i, j, result, AddrRecord);
        j := j + 1;
      }
      assert cache[i].services == services;
    }

    /** mdns_priv_cache_process_sync */
    method ProcessSync()
      modifies this
      ensures Now() == MdnsCache.ProcessSync(old(Now()))
    {
      hide SyncSlots, Slots, EntrySlots, ClearedEntry;
      ghost var was, told := cache, browses;
      var i := 0;
      assert was[0..] == was;
      while i < |cache|
        invariant i <= |cache| == |was|
        invariant forall k :: 0 <= k < i ==> cache[k] == ClearedEntry(was[k])
        invariant forall k :: i <= k < |was| ==> cache[k] == was[k]
        invariant SyncSlots(browses, Slots(was[i..])) == SyncSlots(told, Slots(was))
      {
        assert was[i..][1..] == was[i + 1..] && was[i..][0] == was[i];
        SlotsOfFirst(was[i..]);
        SyncAppend(browses, EntrySlots(was[i]), Slots(was[i + 1..]));
        SyncEntry(i);
        i := i + 1;
      }
      assert was[i..] == [];
      NothingToSync(browses);
      assert cache == ClearedCache(was);
    }

    method SyncEntry(i: nat)
      requires i < |cache|
      modifies this
      ensures cache == old(cache)[i := ClearedEntry(old(cache[i]))]
      ensures browses == SyncSlots(old(browses), EntrySlots(old(cache[i])))
    {
      hide SyncSlot;
      ghost var e := cache[i];
      ghost var slots := EntrySlots(e);
      var j := 0;
      while j < |cache[i].services|
        invariant i < |cache| && j <= |e.services| == |cache[i].services|
        invariant cache == old(cache)[i := e.(services := cache[i].services)]
        invariant forall k :: 0 <= k < j ==> cache[i].services[k] == ClearedEntry(e).services[k]
        invariant forall k :: j <= k < |e.services| ==> cache[i].services[k] == e.services[k]
        invariant SyncSlots(browses, slots[j..]) == SyncSlots(old(browses), slots)
      {
        assert slots[j..][0] == SlotAt(e, j) && slots[j..][1..] == slots[j + 1..];
        SyncService(i, j);
        j := j + 1;
      }
      assert cache[i].services == ClearedEntry(e).services;
      assert slots[j..] == [];
    }

    method SyncService(i: nat, j: nat)
      requires i < |cache| && j < |cache[i].services|
      modifies this
      ensures cache == PutService(old(cache), i, j, old(ClearedEntry(cache[i]).services[j]))
      ensures browses == SyncSlot(old(browses), old(SlotAt(cache[i], j)))
    {
      var s := cache[i].services[j];
      if s.dirty {
        if s.records != {} {
          Notify(s, Project(Slot(cache[i].host, cache[i].link, cache[i].addrs, s)));
        }
        Store(i, j, s.(dirty := false, records := {}));
      } else {
        assert cache[i].services[j := s] == cache[i].services;
      }
    }

    /** remove_service_caches */
    method RemoveServiceCaches(service: string, proto: string)
      modifies this`cache
      ensures cache == RemoveType(old(cache), service, proto)
    {
      hide RemoveType;
      RemoveTypeOfNone(service, proto);
      ghost var was := cache;
      ghost var done := 0;
      var i := 0;
      while i < |cache|
        invariant done <= |was| && i <= |cache| && |cache| - i == |was| - done
        invariant cache[..i] == RemoveType(was[..done], service, proto) && cache[i..] == was[done..]
        decreases |cache| - i
      {
        var e := cache[i];
        assert e == was[done];
        var left := RemoveMatching(e.services, service, proto);
        RemoveTypeMore(was, done, service, proto);
        assert cache[i..][1..] == cache[i + 1..] && was[done..][1..] == was[done + 1..];
        if left == [] {
          cache := cache[..i] + cache[i + 1..];
        } else {
          cache := cache[i := e.(services := left)];
          i := i + 1;
        }
        done := done + 1;
      }
      assert was[..done] == was && cache[..i] == cache;
    }

    /** mdns_browse_new */
    method NewBrowse(id: nat, service: string, proto: string, notifier: bool)
      modifies this
      ensures Now() == BrowseNew(old(Now()), id, service, proto, notifier)
    {
      if service == "" || proto == "" { return; }
      var i := 0;
      while i < |browses|
        invariant i <= |browses|
        invariant forall k :: 0 <= k < i ==> !(browses[k].state != BrowseOff && BrowseIs(browses[k], service, proto))
      {
        if browses[i].state != BrowseOff && BrowseIs(browses[i], service, proto) { return; }
        i := i + 1;
      }
      browses := [Browse(id, service, proto, BrowseInit, notifier, [])] + browses;
    }

    /** mdns_browse_delete */
    method DeleteBrowse(service: string, proto: string)
      modifies this`browses
      ensures Now() == BrowseDelete(old(Now()), service, proto)
    {
      if service == "" || proto == "" { return; }
      var i := 0;
      while i < |browses| && (browses[i].state == BrowseOff || !BrowseIs(browses[i], service, proto))
        invariant i <= |browses|
        invariant FindBrowse(browses, service, proto) == i + FindBrowse(browses[i..], service, proto)
      {
        assert browses[i..][1..] == browses[i + 1..];
        i := i + 1;
      }
      if i < |browses| {
        browses := browses[i := browses[i].(state := BrowseOff)];
      }
    }

    /** mdns_priv_cache_notify_browse: the cache is replayed to one browser. */
    method NotifyBrowse(i: nat)
      requires i < |browses|
      modifies this`browses
      ensures browses == old(browses)[i := Replay(old(browses[i]), Slots(cache))]
    {
      hide Slots, EntrySlots, Matches, Project;
      var n := 0;
      assert cache[0..] == cache;
      while n < |cache|
        invariant n <= |cache| && |browses| == |old(browses)|
        invariant browses == old(browses)[i := browses[i]]
        invariant Replay(browses[i], Slots(cache[n..])) == Replay(old(browses[i]), Slots(cache))
      {
        SlotsOfFirst(cache[n..]);
        assert cache[n..][1..] == cache[n + 1..];
        ReplayAppend(browses[i], EntrySlots(cache[n]), Slots(cache[n + 1..]));
        NotifyBrowseOfEntry(cache[n], i);
        n := n + 1;
      }
      assert cache[n..] == [];
      NothingToReplay(browses[i]);
    }

    method NotifyBrowseOfEntry(e: Entry, i: nat)
      requires i < |browses|
      modifies this`browses
      ensures browses == old(browses)[i := Replay(old(browses[i]), EntrySlots(e))]
    {
      hide Matches, Project;
      ghost var slots := EntrySlots(e);
      var j := 0;
      while j < |e.services|
        invariant j <= |e.services| && |browses| == |old(browses)|
        invariant browses == old(browses)[i := browses[i]]
        invariant Replay(browses[i], slots[j..]) == Replay(old(browses[i]), slots)
      {
        assert slots[j..][0] == SlotAt(e, j) && slots[j..][1..] == slots[j + 1..];
        if Matches(browses[i], e.services[j]) {
          browses := browses[i := Told(browses[i], Project(SlotAt(e, j)))];
        }
        j := j + 1;
      }
      assert slots[j..] == [];
    }

    /** One received packet: its records in order, then the synchronisation. */
    method Receive(link: Link, updates: seq<Update>)
      modifies this
      ensures Now() == Step(old(Now()), Packet(link, updates))
    {
      hide MdnsCache.UpdatePtr, MdnsCache.UpdateSrv, MdnsCache.UpdateTxt, MdnsCache.UpdateAddr, MdnsCache.ProcessSync;
      var n := 0;
      while n < |updates|
        invariant n <= |updates|
        invariant ApplyAll(Now(), link, updates[n..]) == ApplyAll(old(Now()), link, updates)
      {
        assert updates[n..][1..] == updates[n + 1..];
        match updates[n] {
          case PtrUpdate(instance, service, proto, ttl) =>
            var _ := UpdatePtr(link, instance, service, proto, ttl);
          case SrvUpdate(host, instance, service, proto, priority, weight, port, ttl) =>
            var _ := UpdateSrv(link, host, instance, service, proto, priority, weight, port, ttl);
          case TxtUpdate(instance, service, proto, txt, ttl) =>
            var _ := UpdateTxt(link, instance, service, proto, txt, ttl);
          case AddrUpdate(host, addr, ttl) =>
            var _ := UpdateAddr(link, host, addr, ttl, false);
        }
        n := n + 1;
      }
      assert updates[n..] == [];
      ProcessSync();
    }
  }

  method RemoveMatching(services: seq<Service>, service: string, proto: string) returns (left: seq<Service>)
    ensures left == OtherServices(services, service, proto)
  {
    left := services;
    var j := 0;
    ghost var done := 0;
    while j < |left|
      invariant done <= |services| && j <= |left| && |left| - j == |services| - done
      invariant left[..j] == OtherServices(services[..done], service, proto) && left[j..] == services[done..]
      decreases |left| - j
    {
      assert left[j] == services[done];
      assert left[j..][1..] == left[j + 1..] && services[done..][1..] == services[done + 1..];
      assert services[..done + 1] == services[..done] + [left[j]];
      OthersAppend(services[..done], [left[j]], service, proto);
      assert OtherServices([left[j]][1..], service, proto) == [];
      if SameType(left[j], service, proto) {
        left := left[..j] + left[j + 1..];
      } else {
        j := j + 1;
      }
      done := done + 1;
    }
    assert services[..done] == services && left[..j] == left;
  }

  method SearchAddr(addrs: seq<CachedAddr>, addr: int) returns (k: nat)
    ensures k == FindAddr(addrs, addr)
  {
    k := 0;
    while k < |addrs| && addrs[k].addr != addr
      invariant k <= |addrs|
      invariant FindAddr(addrs, addr) == k + FindAddr(addrs[k..], addr)
    {
      assert addrs[k..][1..] == addrs[k + 1..];
      k := k + 1;
    }
  }

  /** txt_list_equal with txt_list_contains */
  method EqualTxt(a: seq<TxtItem>, b: seq<TxtItem>) returns (equal: bool)
    ensures equal == TxtListEqual(a, b)
  {
    if |a| != |b| { return false; }
    var i := 0;
    while i < |a|
      invariant i <= |a|
      invariant forall m :: 0 <= m < i ==> TxtListContains(b, a[m])
    {
      var k := 0;
      while k < |b| && !TxtItemEqual(b[k], a[i])
        invariant k <= |b|
        invariant forall m :: 0 <= m < k ==> !TxtItemEqual(b[m], a[i])
      {
        k := k + 1;
      }
      if k == |b| { return false; }
      i := i + 1;
    }
    return true;
  }
}
