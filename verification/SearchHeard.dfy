/** What a record adds to the results of a search that wants it. */
module SearchHeard {
  import opened CStrings
  import opened Options
  import opened MdnsCommon
  import opened SearchResults

  /** No limit, or fewer results than the limit. */
  predicate HasRoom(h: Hits) {
    h.maxResults == 0 || |h.list| < h.maxResults
  }

  lemma RoomExact(h: Hits)
    requires CountOk(h)
    ensures Room(h) <==> HasRoom(h)
  {
  }

  function Lower(a: nat, b: nat): nat {
    if a <= b then a else b
  }

  /** Nothing is known of a result but its link and its TTL. */
  predicate Bare(r: Found, link: Link, ttl: nat) {
    && r.link == link && r.ttl == ttl && r.instance == None && r.service == None && r.proto == None && r.host == None
    && r.port == 0 && r.txt == None && r.addrs == []
  }

  /** One more result, in front of the others. */
  predicate OneMore(h: Hits, h': Hits) {
    |h'.list| == |h.list| + 1 && h'.list[1..] == h.list && h'.query == h.query && h'.maxResults == h.maxResults
  }

  /** One result is another now, the others are as they were. */
  predicate OneOther(h: Hits, h': Hits, i: nat) {
    && |h'.list| == |h.list| && i < |h.list| && h' == h.(list := h'.list)
    && forall k :: 0 <= k < |h.list| && k != i ==> h'.list[k] == h.list[k]
  }

  ghost predicate Known(h: Hits, p: Found -> bool) {
    exists i :: 0 <= i < |h.list| && p(h.list[i])
  }

  lemma FirstKnown(h: Hits, p: Found -> bool)
    ensures First(h.list, p) < |h.list| <==> Known(h, p)
  {
  }

  // ----- SRV -----

  /**
   * A search for SRV records: one result for each host of the instance, with the port that was heard first and the
   * names that were searched for.
   */
  lemma SrvHeard(h: Hits, owner: Name, host: string, port: nat, link: Link, ttl: nat)
    requires CountOk(h) && h.query.kind != Only(PTR)
    ensures var h' := Update(h, HeardSrv(owner, Some(host), port), link, ttl);
            if Known(h, (r: Found) => r.link == link && SameName(r.host, host)) then
              exists i: nat :: OneOther(h, h', i) && SameName(h.list[i].host, host) && h.list[i].link == link
                          && h'.list[i] == h.list[i].(ttl := Lower(h.list[i].ttl, ttl))
            else if HasRoom(h) then
              && OneMore(h, h') && h'.list[0].host == Some(host) && h'.list[0].port == port
              && h'.list[0].instance == h.query.instance && h'.list[0].service == h.query.service
              && h'.list[0].proto == h.query.proto
              && Bare(h'.list[0].(host := None, port := 0, instance := None, service := None, proto := None), link, ttl)
            else h' == h
  {
    RoomExact(h);
    var p := (r: Found) => OfHost(r, link, host);
    FirstKnown(h, p);
    var i := First(h.list, p);
    if i < |h.list| {
      assert OneOther(h, AddSrv(h, host, port, link, ttl), i);
    }
  }

  // ----- TXT -----

  /** A search for TXT records: one result for each link, with the items that were heard first. */
  lemma TxtHeard(h: Hits, owner: Name, items: seq<TxtItem>, link: Link, ttl: nat)
    requires CountOk(h) && h.query.kind != Only(PTR) && items != []
    ensures var h' := Update(h, HeardTxt(owner, items), link, ttl);
            if Known(h, (r: Found) => r.link == link) then
              exists i: nat :: OneOther(h, h', i) && h.list[i].link == link
                          && h'.list[i] == if h.list[i].txt.Some? then h.list[i]
                                           else h.list[i].(txt := Some(items), ttl := Lower(h.list[i].ttl, ttl))
            else if HasRoom(h) then
              OneMore(h, h') && h'.list[0].txt == Some(items) && Bare(h'.list[0].(txt := None), link, ttl)
            else h' == h
  {
    RoomExact(h);
    var p := (r: Found) => OnLink(r, link);
    FirstKnown(h, p);
    var i := First(h.list, p);
    if i < |h.list| {
      assert OneOther(h, AddTxt(h, items, link, ttl), i);
    }
  }

  // ----- addresses -----

  /** An address joins the addresses of a result, once. */
  ghost predicate Joined(r: Found, r': Found, a: Address, ttl: nat) {
    && r' == r.(addrs := r'.addrs, ttl := Lower(r.ttl, ttl))
    && (forall x :: x in r'.addrs <==> x in r.addrs || x == a)
    && |r'.addrs| == |r.addrs| + if a in r.addrs then 0 else 1
  }

  /** The result that an address belongs to: that of the link, or that of its host in a search for services. */
  predicate AddressOf(q: Query, r: Found, host: string, link: Link) {
    r.link == link && (q.kind == Only(PTR) || q.kind == Only(SRV) ==> SameName(r.host, host))
  }

  lemma AddressHeard(h: Hits, owner: Name, a: Address, link: Link, ttl: nat)
    requires CountOk(h) && Wants(h, HeardAddress(owner, a), link)
    ensures var h' := Update(h, HeardAddress(owner, a), link, ttl);
            if Known(h, (r: Found) => AddressOf(h.query, r, owner.host, link)) then
              exists i: nat :: OneOther(h, h', i) && AddressOf(h.query, h.list[i], owner.host, link)
                               && Joined(h.list[i], h'.list[i], a, ttl)
            else if HasRoom(h) then
              && OneMore(h, h') && h'.list[0].host == Some(owner.host) && h'.list[0].addrs == [a]
              && Bare(h'.list[0].(host := None, addrs := []), link, ttl)
            else h' == h
  {
    hide Wants, SameName, Joined, Shortened, WithAddress;
    RoomExact(h);
    var p := (r: Found) => AddressOf(h.query, r, owner.host, link);
    FirstKnown(h, p);
    var i := First(h.list, p);
    if h.query.kind == Only(PTR) || h.query.kind == Only(SRV) {
      SameFirst(h.list, p, (r: Found) => OfHost(r, link, owner.host));
      assert i < |h.list| by { FoundBefore(h, owner, a, link); }
    } else {
      assert h.query.kind.Any? || h.query.kind == Only(if a.v6 then AAAA else A) by { AddressKind(h, owner, a, link); }
      SameFirst(h.list, p, (r: Found) => OnLink(r, link));
    }
    if i < |h.list| {
      AddressJoined(h.list[i], a, ttl);
      assert OneOther(h, Update(h, HeardAddress(owner, a), link, ttl), i);
    }
  }

  lemma AddressKind(h: Hits, owner: Name, a: Address, link: Link)
    requires Wants(h, HeardAddress(owner, a), link) && h.query.kind != Only(PTR) && h.query.kind != Only(SRV)
    ensures h.query.kind.Any? || h.query.kind == Only(if a.v6 then AAAA else A)
  {
  }

  lemma FoundBefore(h: Hits, owner: Name, a: Address, link: Link)
    requires Wants(h, HeardAddress(owner, a), link) && (h.query.kind == Only(PTR) || h.query.kind == Only(SRV))
    ensures First(h.list, (r: Found) => AddressOf(h.query, r, owner.host, link)) < |h.list|
  {
    SameFirst(h.list, (r: Found) => AddressOf(h.query, r, owner.host, link),
              (r: Found) => OfHost(r, link, owner.host));
  }

  lemma AddressJoined(r: Found, a: Address, ttl: nat)
    ensures Joined(r, Shortened(WithAddress(r, a), ttl), a, ttl)
  {
  }

  lemma {:induction false} SameFirst(list: seq<Found>, p: Found -> bool, q: Found -> bool)
    requires forall r :: p(r) <==> q(r)
    ensures First(list, p) == First(list, q)
    decreases |list|
  {
    if list == [] || p(list[0]) {
    } else {
      SameFirst(list[1..], p, q);
    }
  }

  // ----- PTR -----

  /** A search for PTR records: one result for each instance, with its names. */
  lemma PtrHeard(h: Hits, owner: Name, target: Name, link: Link, ttl: nat)
    requires CountOk(h)
    ensures var h' := Update(h, HeardPtr(owner, Some(target)), link, ttl);
            if Known(h, (r: Found) => r.link == link && SameName(r.instance, target.host)) then
              exists i: nat :: OneOther(h, h', i) && h.list[i].link == link && SameName(h.list[i].instance, target.host)
                          && h'.list[i] == h.list[i].(ttl := Lower(h.list[i].ttl, ttl))
            else if HasRoom(h) then OneMore(h, h') && NewInstance(h'.list[0], target, link, ttl)
            else h' == h
  {
    AddPtrExact(h, target, link, ttl);
  }

  predicate NewInstance(r: Found, name: Name, link: Link, ttl: nat) {
    && r.instance == Some(name.host) && r.service == Some(name.service) && r.proto == Some(name.proto)
    && Bare(r.(instance := None, service := None, proto := None), link, ttl)
  }

  lemma AddPtrExact(h: Hits, name: Name, link: Link, ttl: nat)
    requires CountOk(h)
    ensures var (h', i) := AddPtr(h, name, link, ttl);
            if Known(h, (r: Found) => r.link == link && SameName(r.instance, name.host)) then
              && OneOther(h, h', i) && h.list[i].link == link && SameName(h.list[i].instance, name.host)
              && h'.list[i] == h.list[i].(ttl := Lower(h.list[i].ttl, ttl))
            else if HasRoom(h) then OneMore(h, h') && i == 0 && NewInstance(h'.list[0], name, link, ttl)
            else h' == h && i == |h.list|
  {
    RoomExact(h);
    FirstKnown(h, (r: Found) => OfInstance(r, link, name.host));
  }

  /** The result of an instance in a search for PTR records, which a SRV or TXT record makes when it is not there. */
  ghost predicate InstanceAt(h: Hits, h': Hits, i: nat, owner: Name, link: Link, ttl: nat) {
    if Known(h, (r: Found) => r.link == link && r.instance == Some(owner.host)) then
      h' == h && i < |h.list| && h.list[i].link == link && h.list[i].instance == Some(owner.host)
    else if Known(h, (r: Found) => r.link == link && SameName(r.instance, owner.host)) then
      && OneOther(h, h', i) && h.list[i].link == link && SameName(h.list[i].instance, owner.host)
      && h'.list[i] == h.list[i].(ttl := Lower(h.list[i].ttl, ttl))
    else if HasRoom(h) then OneMore(h, h') && i == 0 && NewInstance(h'.list[0], owner, link, ttl)
    else h' == h && i == |h.list|
  }

  lemma InstanceFound(h: Hits, owner: Name, link: Link, ttl: nat) returns (h': Hits, i: nat)
    requires CountOk(h)
    ensures (h', i) == ResultOf(h, owner, link, ttl) && i <= |h'.list| && InstanceAt(h, h', i, owner, link, ttl)
  {
    FirstKnown(h, (r: Found) => Exactly(r, link, owner.host));
    AddPtrExact(h, owner, link, ttl);
    var found := ResultOf(h, owner, link, ttl);
    h', i := found.0, found.1;
  }

  /** There the first SRV record of an instance gives its host and port, the first TXT record its items. */
  lemma InstanceHeard(h: Hits, owner: Name, host: string, port: nat, items: seq<TxtItem>, link: Link, ttl: nat)
    requires CountOk(h) && h.query.kind == Only(PTR) && items != []
    ensures exists h', i: nat :: InstanceAt(h, h', i, owner, link, ttl) && i <= |h'.list|
              && Update(h, HeardSrv(owner, Some(host), port), link, ttl) ==
                 (if i == |h'.list| || h'.list[i].host.Some? then h'
                  else h'.(list := h'.list[i := h'.list[i].(host := Some(host), port := port)]))
              && Update(h, HeardTxt(owner, items), link, ttl) ==
                 (if i == |h'.list| || h'.list[i].txt.Some? then h'
                  else h'.(list := h'.list[i := h'.list[i].(txt := Some(items))]))
  {
    var h', i := InstanceFound(h, owner, link, ttl);
  }

  // ----- what is wanted -----

  predicate Called(query: Option<string>, name: string) {
    query.Some? && Fold(query.value) == Fold(name)
  }

  /** A search for one service's SRV or TXT records wants exactly those of its name, in any case. */
  lemma ServiceWanted(h: Hits, heard: Heard, link: Link)
    requires (h.query.kind == Only(SRV) && heard.HeardSrv?) || (h.query.kind == Only(TXT) && heard.HeardTxt?)
    ensures Wants(h, heard, link) <==>
              && Called(h.query.instance, heard.owner.host) && Called(h.query.service, heard.owner.service)
              && Called(h.query.proto, heard.owner.proto)
  {
  }

  /** A search for addresses wants exactly those of its host and kind; others want those of hosts they have found. */
  lemma AddressWanted(h: Hits, owner: Name, a: Address, link: Link)
    ensures h.query.kind == Only(A) || h.query.kind == Only(AAAA) ==>
              (Wants(h, HeardAddress(owner, a), link) <==>
               a.v6 == (h.query.kind == Only(AAAA)) && Called(h.query.instance, owner.host))
    ensures h.query.kind == Only(PTR) || h.query.kind == Only(SRV) ==>
              (Wants(h, HeardAddress(owner, a), link) <==>
               exists i :: 0 <= i < |h.list| && h.list[i].link == link && SameName(h.list[i].host, owner.host))
  {
    var p := (r: Found) => OfHost(r, link, owner.host);
    FirstKnown(h, p);
  }

  /** Records of another kind are not wanted. */
  lemma OthersUnwanted(h: Hits, heard: Heard, link: Link)
    ensures h.query.kind == Only(SRV) ==> !(heard.HeardTxt? && Wants(h, heard, link))
    ensures h.query.kind == Only(TXT) ==> !(heard.HeardSrv? && Wants(h, heard, link))
    ensures h.query.kind != Only(PTR) ==> !(heard.HeardPtr? && Wants(h, heard, link))
    ensures h.query.kind == Only(A) || h.query.kind == Only(AAAA) ==> (Wants(h, heard, link) ==> heard.HeardAddress?)
  {
  }
}
