/** What a search has found: its result list, and what each record of a packet does to it. */
module SearchResults {
  import opened CStrings
  import opened Options
  import opened MdnsCommon

  datatype RecordType = A | AAAA | PTR | SRV | TXT

  /** A search is for one type of record or for any. */
  datatype Kind = Only(record: RecordType) | Any

  /** What a search looks for; its strings are NULL when they were empty. */
  datatype Query = Query(kind: Kind, instance: Option<string>, service: Option<string>, proto: Option<string>)

  /** The parts of a name in a packet. */
  datatype Name = Name(host: string, service: string, proto: string)

  datatype Address = Address(v6: bool, ip: nat)

  /** mdns_result_t */
  datatype Found = Found(
    link: Link, instance: Option<string>, service: Option<string>, proto: Option<string>,
    host: Option<string>, port: nat, txt: Option<seq<TxtItem>>, addrs: seq<Address>, ttl: nat)

  /** The fields of a search that its results go by. */
  datatype Hits = Hits(query: Query, maxResults: nat, list: seq<Found>, numResults: nat)

  /**
   * A record that the querier hears: the name it belongs to and its data. A PTR record has no target
   * and a SRV record no host when the name in it cannot be read.
   */
  datatype Heard =
    | HeardPtr(owner: Name, target: Option<Name>)
    | HeardSrv(owner: Name, host: Option<string>, port: nat)
    | HeardTxt(owner: Name, items: seq<TxtItem>)
    | HeardAddress(owner: Name, address: Address)

  // ----- looking results up -----

  /** strcasecmp, which nothing matches when one side is NULL. */
  predicate Same(a: Option<string>, b: string) {
    a.Some? && Fold(a.value) == Fold(b)
  }

  /** The same with mdns_utils_str_null_or_empty. */
  predicate SameName(a: Option<string>, b: string) {
    a.Some? && a.value != "" && Same(a, b)
  }

  predicate OnLink(r: Found, link: Link) {
    r.link == link
  }

  predicate OfHost(r: Found, link: Link, host: string) {
    r.link == link && SameName(r.host, host)
  }

  predicate OfInstance(r: Found, link: Link, instance: string) {
    r.link == link && SameName(r.instance, instance)
  }

  /** The parser compares instance names to the letter. */
  predicate Exactly(r: Found, link: Link, instance: string) {
    r.link == link && r.instance == Some(instance)
  }

  /** The first result of a kind. */
  function First(list: seq<Found>, p: Found -> bool): (i: nat)
    ensures i <= |list| && (i < |list| ==> p(list[i])) && forall k :: 0 <= k < i ==> !p(list[k])
  {
    if list == [] || p(list[0]) then 0 else 1 + First(list[1..], p)
  }

  /** mdns_priv_query_find_from for one search that is not off. */
  predicate Wants(h: Hits, heard: Heard, link: Link) {
    var q, owner := h.query, heard.owner;
    match heard
    case HeardAddress(_, a) =>
      var record := if a.v6 then AAAA else A;
      if (q.kind.Any? && q.service.Some?)
         || (q.kind.Only? && q.kind.record != record && !q.kind.record.PTR? && !q.kind.record.SRV?)
      then false
      else if q.kind != Only(PTR) && q.kind != Only(SRV) then Same(q.instance, owner.host)
      else First(h.list, (r: Found) => OfHost(r, link, owner.host)) < |h.list|
    case HeardPtr(_, _) =>
      q.kind == Only(PTR) && Same(q.proto, owner.proto) &&
      (if owner.host != "" && q.service.Some? && '.' in q.service.value
       then Same(q.service, owner.host + "." + owner.service)
       else Same(q.service, owner.service))
    case _ =>
      var record := if heard.HeardSrv? then SRV else TXT;
      if (q.kind.Any? && q.service.None?) || (q.kind.Only? && q.kind.record != record && !q.kind.record.PTR?) then false
      else
        && Same(q.service, owner.service) && Same(q.proto, owner.proto)
        && (q.kind == Only(PTR) || Same(q.instance, owner.host))
  }

  // ----- adding results -----

  predicate Room(h: Hits) {
    h.maxResults == 0 || h.numResults < h.maxResults
  }

  /** A new result in front, when there is room; the count goes through a byte. */
  function Opened(h: Hits, r: Found): Hits {
    if Room(h) then h.(list := [r] + h.list, numResults := (h.numResults + 1) % 256) else h
  }

  function Blank(link: Link, ttl: nat): Found {
    Found(link, None, None, None, None, 0, None, [], ttl)
  }

  /** mdns_priv_query_update_result_ttl */
  function Shortened(r: Found, ttl: nat): Found {
    r.(ttl := if r.ttl < ttl then r.ttl else ttl)
  }

  /** result_add_ip */
  function WithAddress(r: Found, a: Address): Found {
    if a in r.addrs then r else r.(addrs := [a] + r.addrs)
  }

  /** mdns_priv_query_result_add_txt */
  function AddTxt(h: Hits, items: seq<TxtItem>, link: Link, ttl: nat): Hits {
    var i := First(h.list, (r: Found) => OnLink(r, link));
    if i == |h.list| then Opened(h, Blank(link, ttl).(txt := Some(items)))
    else if h.list[i].txt.Some? then h
    else h.(list := h.list[i := Shortened(h.list[i].(txt := Some(items)), ttl)])
  }

  /** mdns_priv_query_result_add_ip */
  function AddAddress(h: Hits, host: string, a: Address, link: Link, ttl: nat): Hits {
    if h.query.kind == Only(if a.v6 then AAAA else A) || h.query.kind.Any? then
      var i := First(h.list, (r: Found) => OnLink(r, link));
      if i == |h.list| then Opened(h, Blank(link, ttl).(host := Some(host), addrs := [a]))
      else h.(list := h.list[i := Shortened(WithAddress(h.list[i], a), ttl)])
    else if h.query.kind == Only(PTR) || h.query.kind == Only(SRV) then
      var i := First(h.list, (r: Found) => OfHost(r, link, host));
      if i == |h.list| then h else h.(list := h.list[i := Shortened(WithAddress(h.list[i], a), ttl)])
    else h
  }

  /** mdns_priv_query_result_add_srv */
  function AddSrv(h: Hits, host: string, port: nat, link: Link, ttl: nat): Hits {
    var i := First(h.list, (r: Found) => OfHost(r, link, host));
    if i < |h.list| then h.(list := h.list[i := Shortened(h.list[i], ttl)])
    else
      var q := h.query;
      Opened(h, Blank(link, ttl).(host := Some(host), instance := q.instance, service := q.service,
          proto := q.proto, port := port))
  }

  /** mdns_priv_query_result_add_ptr, with the place of the result that it returns, past the end for NULL. */
  function AddPtr(h: Hits, name: Name, link: Link, ttl: nat): (added: (Hits, nat))
    ensures added.1 <= |added.0.list|
  {
    var i := First(h.list, (r: Found) => OfInstance(r, link, name.host));
    if i < |h.list| then (h.(list := h.list[i := Shortened(h.list[i], ttl)]), i)
    else if Room(h) then
      (Opened(h, Blank(link, ttl).(instance := Some(name.host), service := Some(name.service),
          proto := Some(name.proto))), 0)
    else (h, |h.list|)
  }

  /** The result that a SRV or TXT record of an instance belongs to in a search for PTR records. */
  function ResultOf(h: Hits, owner: Name, link: Link, ttl: nat): (found: (Hits, nat))
    ensures found.1 <= |found.0.list|
  {
    var i := First(h.list, (r: Found) => Exactly(r, link, owner.host));
    if i < |h.list| then (h, i) else AddPtr(h, owner, link, ttl)
  }

  /** What the parser does with a record that a search wants. */
  function Update(h: Hits, heard: Heard, link: Link, ttl: nat): Hits {
    match heard
    case HeardPtr(_, target) => if target.None? then h else AddPtr(h, target.value, link, ttl).0
    case HeardSrv(owner, host, port) =>
      if h.query.kind == Only(PTR) then
        var (h', i) := ResultOf(h, owner, link, ttl);
        if i == |h'.list| || host.None? || h'.list[i].host.Some? then h'
        else h'.(list := h'.list[i := h'.list[i].(port := port, host := host)])
      else if host.None? then h
      else AddSrv(h, host.value, port, link, ttl)
    case HeardTxt(owner, items) =>
      if h.query.kind == Only(PTR) then
        var (h', i) := ResultOf(h, owner, link, ttl);
        if i == |h'.list| || items == [] || h'.list[i].txt.Some? then h'
        else h'.(list := h'.list[i := h'.list[i].(txt := Some(items))])
      else if items == [] then h
      else AddTxt(h, items, link, ttl)
    case HeardAddress(owner, a) => AddAddress(h, owner.host, a, link, ttl)
  }

  // ----- what every record keeps -----

  /** With a limit, the count is the length of the list and within the limit; without one it is a byte of it. */
  predicate CountOk(h: Hits) {
    && h.maxResults < 256 && h.numResults == |h.list| % 256
    && (h.maxResults != 0 ==> |h.list| == h.numResults <= h.maxResults)
  }

  /** Two results that one search should have as one. */
  predicate Double(q: Query, r: Found, s: Found) {
    match q.kind
    case Only(PTR) => s.instance.Some? && OfInstance(r, s.link, s.instance.value)
    case Only(SRV) => s.host.Some? && OfHost(r, s.link, s.host.value)
    case Only(_) => OnLink(r, s.link)
    case Any => if q.service.None? then OnLink(r, s.link) else s.host.Some? && OfHost(r, s.link, s.host.value)
  }

  ghost predicate NoDoubles(h: Hits) {
    forall i, j :: 0 <= i < |h.list| && 0 <= j < |h.list| && i != j ==> !Double(h.query, h.list[i], h.list[j])
  }

  predicate AddressesApart(addrs: seq<Address>) {
    forall i, j :: 0 <= i < j < |addrs| ==> addrs[i] != addrs[j]
  }

  ghost predicate Sound(h: Hits) {
    CountOk(h) && NoDoubles(h) && forall i :: 0 <= i < |h.list| ==> AddressesApart(h.list[i].addrs)
  }

  /** A result later: nothing that was found is lost or changed, only added, and it does not live longer. */
  predicate Grown(r: Found, r': Found) {
    && r'.link == r.link && r'.instance == r.instance && r'.service == r.service && r'.proto == r.proto
    && (r.host.Some? ==> r'.host == r.host && r'.port == r.port) && (r.txt.Some? ==> r'.txt == r.txt)
    && |r.addrs| <= |r'.addrs| && r'.addrs[|r'.addrs| - |r.addrs|..] == r.addrs && r'.ttl <= r.ttl
  }

  /** A list later: each result where it was, counted from the end. */
  ghost predicate ListGrown(list: seq<Found>, list': seq<Found>) {
    |list| <= |list'| && forall i :: 0 <= i < |list| ==> Grown(list[i], list'[i + |list'| - |list|])
  }

  lemma OpenedKeeps(h: Hits, r: Found)
    requires Sound(h) && AddressesApart(r.addrs)
    requires forall i :: 0 <= i < |h.list| ==> !Double(h.query, r, h.list[i]) && !Double(h.query, h.list[i], r)
    ensures Sound(Opened(h, r)) && ListGrown(h.list, Opened(h, r).list)
  {
    hide Double;
    if Room(h) {
      var h' := Opened(h, r);
      forall i, j | 0 <= i < |h'.list| && 0 <= j < |h'.list| && i != j
        ensures !Double(h.query, h'.list[i], h'.list[j])
      {
        assert i > 0 ==> h'.list[i] == h.list[i - 1];
        assert j > 0 ==> h'.list[j] == h.list[j - 1];
      }
    }
  }

  /** What tells two results apart. */
  predicate Alike(r: Found, r': Found) {
    r'.link == r.link && r'.instance == r.instance && r'.host == r.host
  }

  lemma PutKeeps(h: Hits, i: nat, r: Found)
    requires Sound(h) && i < |h.list| && AddressesApart(r.addrs) && Grown(h.list[i], r)
    requires Alike(h.list[i], r) || h.query.kind == Only(PTR)
    ensures Sound(h.(list := h.list[i := r])) && ListGrown(h.list, h.list[i := r])
  {
    var h' := h.(list := h.list[i := r]);
    forall j, k | 0 <= j < |h'.list| && 0 <= k < |h'.list| && j != k
      ensures !Double(h.query, h'.list[j], h'.list[k])
    {
      assert !Double(h.query, h.list[j], h.list[k]);
    }
  }

  lemma GrownOne(r: Found, a: Address, ttl: nat)
    requires AddressesApart(r.addrs)
    ensures var r' := Shortened(r, ttl); Grown(r, r') && Alike(r, r') && AddressesApart(r'.addrs)
    ensures var r' := Shortened(WithAddress(r, a), ttl); Grown(r, r') && Alike(r, r') && AddressesApart(r'.addrs)
  {
    assert r.addrs[0..] == r.addrs && ([a] + r.addrs)[1..] == r.addrs;
    hide AddressesApart;
    if a !in r.addrs { OneMoreApart(r.addrs, a); }
  }

  lemma OneMoreApart(addrs: seq<Address>, a: Address)
    requires AddressesApart(addrs) && a !in addrs
    ensures AddressesApart([a] + addrs)
  {
  }

  lemma GrownSame(list: seq<Found>)
    ensures ListGrown(list, list)
  {
  }

  lemma AddTxtKeeps(h: Hits, items: seq<TxtItem>, link: Link, ttl: nat)
    requires Sound(h) && (h.query.kind == Only(TXT) || (h.query.kind.Any? && h.query.service.Some?))
    ensures Sound(AddTxt(h, items, link, ttl)) && ListGrown(h.list, AddTxt(h, items, link, ttl).list)
  {
    var i := First(h.list, (r: Found) => OnLink(r, link));
    if i == |h.list| {
      OpenedKeeps(h, Blank(link, ttl).(txt := Some(items)));
    } else if h.list[i].txt.None? {
      PutKeeps(h, i, Shortened(h.list[i].(txt := Some(items)), ttl));
    }
  }

  lemma AddAddressKeeps(h: Hits, host: string, a: Address, link: Link, ttl: nat)
    requires Sound(h) && !(h.query.kind.Any? && h.query.service.Some?)
    ensures Sound(AddAddress(h, host, a, link, ttl)) && ListGrown(h.list, AddAddress(h, host, a, link, ttl).list)
  {
    hide Shortened, WithAddress, Grown, Alike;
    GrownSame(h.list);
    if h.query.kind == Only(if a.v6 then AAAA else A) || h.query.kind.Any? {
      var i := First(h.list, (r: Found) => OnLink(r, link));
      if i == |h.list| {
        OpenedKeeps(h, Blank(link, ttl).(host := Some(host), addrs := [a]));
      } else {
        GrownOne(h.list[i], a, ttl);
        PutKeeps(h, i, Shortened(WithAddress(h.list[i], a), ttl));
      }
    } else if h.query.kind == Only(PTR) || h.query.kind == Only(SRV) {
      var i := First(h.list, (r: Found) => OfHost(r, link, host));
      if i < |h.list| {
        GrownOne(h.list[i], a, ttl);
        PutKeeps(h, i, Shortened(WithAddress(h.list[i], a), ttl));
      }
    }
  }

  lemma AddSrvKeeps(h: Hits, host: string, port: nat, link: Link, ttl: nat)
    requires Sound(h) && (h.query.kind == Only(SRV) || (h.query.kind.Any? && h.query.service.Some?))
    ensures Sound(AddSrv(h, host, port, link, ttl)) && ListGrown(h.list, AddSrv(h, host, port, link, ttl).list)
  {
    hide Shortened, Grown, Alike;
    var i := First(h.list, (r: Found) => OfHost(r, link, host));
    if i < |h.list| {
      GrownOne(h.list[i], Address(false, 0), ttl);
      PutKeeps(h, i, Shortened(h.list[i], ttl));
    } else {
      GrownSame(h.list);
      var q := h.query;
      OpenedKeeps(h,
        Blank(link, ttl).(host := Some(host), instance := q.instance, service := q.service, proto := q.proto,
            port := port));
    }
  }

  lemma AddPtrKeeps(h: Hits, name: Name, link: Link, ttl: nat)
    requires Sound(h) && h.query.kind == Only(PTR)
    ensures Sound(AddPtr(h, name, link, ttl).0) && ListGrown(h.list, AddPtr(h, name, link, ttl).0.list)
    ensures AddPtr(h, name, link, ttl).0.query == h.query
  {
    hide Shortened, Grown, Alike;
    var i := First(h.list, (r: Found) => OfInstance(r, link, name.host));
    if i < |h.list| {
      GrownOne(h.list[i], Address(false, 0), ttl);
      PutKeeps(h, i, Shortened(h.list[i], ttl));
    } else {
      GrownSame(h.list);
      OpenedKeeps(h, Blank(link, ttl).(instance := Some(name.host), service := Some(name.service),
          proto := Some(name.proto)));
    }
  }

  lemma GrownTwice(a: seq<Found>, b: seq<Found>, c: seq<Found>)
    requires ListGrown(a, b) && ListGrown(b, c)
    ensures ListGrown(a, c)
  {
    hide Grown;
    forall i | 0 <= i < |a| ensures Grown(a[i], c[i + |c| - |a|]) {
      var j := i + |b| - |a|;
      GrownOn(a[i], b[j], c[j + |c| - |b|]);
    }
  }

  lemma GrownOn(r: Found, s: Found, t: Found)
    requires Grown(r, s) && Grown(s, t)
    ensures Grown(r, t)
  {
    assert t.addrs[|t.addrs| - |r.addrs|..] == t.addrs[|t.addrs| - |s.addrs|..][|s.addrs| - |r.addrs|..];
  }

  /** The part that SRV and TXT records have in common in a search for PTR records. */
  lemma ResultOfKeeps(h: Hits, owner: Name, link: Link, ttl: nat)
    requires Sound(h) && h.query.kind == Only(PTR)
    ensures var (h', _) := ResultOf(h, owner, link, ttl); Sound(h') && ListGrown(h.list, h'.list) && h'.query == h.query
  {
    hide Sound, AddPtr;
    GrownSame(h.list);
    AddPtrKeeps(h, owner, link, ttl);
  }

  /** A result of a search for PTR records learns its host or its TXT items. */
  lemma LearnedKeeps(h: Hits, h': Hits, i: nat, r: Found)
    requires Sound(h') && ListGrown(h.list, h'.list) && h'.query == h.query && h.query.kind == Only(PTR)
    requires i < |h'.list| && Grown(h'.list[i], r) && r.addrs == h'.list[i].addrs
    ensures Sound(h'.(list := h'.list[i := r])) && ListGrown(h.list, h'.list[i := r])
  {
    hide Grown, Alike;
    PutKeeps(h', i, r);
    GrownTwice(h.list, h'.list, h'.list[i := r]);
  }

  lemma SrvKeeps(h: Hits, owner: Name, host: Option<string>, port: nat, link: Link, ttl: nat)
    requires Sound(h) && Wants(h, HeardSrv(owner, host, port), link)
    ensures var h' := Update(h, HeardSrv(owner, host, port), link, ttl); Sound(h') && ListGrown(h.list, h'.list)
  {
    hide Sound, ListGrown, ResultOf, AddSrv, Same;
    GrownSame(h.list);
    if h.query.kind == Only(PTR) {
      ResultOfKeeps(h, owner, link, ttl);
      var (h', i) := ResultOf(h, owner, link, ttl);
      if i < |h'.list| && host.Some? && h'.list[i].host.None? {
        LearnedKeeps(h, h', i, h'.list[i].(port := port, host := host));
      }
    } else if host.Some? {
      AddSrvKeeps(h, host.value, port, link, ttl);
    }
  }

  lemma TxtKeeps(h: Hits, owner: Name, items: seq<TxtItem>, link: Link, ttl: nat)
    requires Sound(h) && Wants(h, HeardTxt(owner, items), link)
    ensures var h' := Update(h, HeardTxt(owner, items), link, ttl); Sound(h') && ListGrown(h.list, h'.list)
  {
    hide Sound, ListGrown, ResultOf, AddTxt, Same;
    GrownSame(h.list);
    if h.query.kind == Only(PTR) {
      ResultOfKeeps(h, owner, link, ttl);
      var (h', i) := ResultOf(h, owner, link, ttl);
      if i < |h'.list| && items != [] && h'.list[i].txt.None? {
        LearnedKeeps(h, h', i, h'.list[i].(txt := Some(items)));
      }
    } else if items != [] {
      AddTxtKeeps(h, items, link, ttl);
    }
  }

  /**
   * Whatever record a search hears: the count stays that of the list and within the limit, no two results stand
   * for the same thing, no address stands twice, and what was found before stays.
   */
  lemma UpdateKeeps(h: Hits, heard: Heard, link: Link, ttl: nat)
    requires Sound(h) && Wants(h, heard, link)
    ensures Sound(Update(h, heard, link, ttl)) && ListGrown(h.list, Update(h, heard, link, ttl).list)
  {
    hide Sound, ListGrown, Same, First;
    match heard
    case HeardPtr(_, target) =>
      GrownSame(h.list);
      if target.Some? { AddPtrKeeps(h, target.value, link, ttl); }
    case HeardSrv(owner, host, port) => SrvKeeps(h, owner, host, port, link, ttl);
    case HeardTxt(owner, items) => TxtKeeps(h, owner, items, link, ttl);
    case HeardAddress(owner, a) => AddAddressKeeps(h, owner.host, a, link, ttl);
  }
}
