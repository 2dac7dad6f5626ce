/** The list of searches as the timer task and the service task walk and change it. */
module QuerierService {
  import opened Options
  import opened MdnsCommon
  import opened SearchResults
  import opened Querier

  lemma {:induction false} TimedAllAppend(a: seq<Search>, b: seq<Search>, now: nat, refused: set<nat>)
    ensures TimedAll(a + b, now, refused).0 == TimedAll(a, now, refused).0 + TimedAll(b, now, refused).0
    ensures TimedAll(a + b, now, refused).1 == TimedAll(a, now, refused).1 + TimedAll(b, now, refused).1
    decreases |a|
  {
    hide Timed;
    if a == [] {
      assert a + b == b;
    } else {
      TimedAllAppend(a[1..], b, now, refused);
      assert (a + b)[0] == a[0] && (a + b)[1..] == a[1..] + b;
    }
  }

  lemma TimedAllOne(s: Search, now: nat, refused: set<nat>)
    ensures TimedAll([s], now, refused).0 == [Timed(s, now, refused).0]
    ensures TimedAll([s], now, refused).1 == Timed(s, now, refused).1
  {
  }

  lemma TimedOneMore(list: seq<Search>, i: nat, now: nat, refused: set<nat>)
    requires i < |list|
    ensures TimedAll(list[..i + 1], now, refused).0 ==
            TimedAll(list[..i], now, refused).0 + [Timed(list[i], now, refused).0]
    ensures TimedAll(list[..i + 1], now, refused).1 ==
            TimedAll(list[..i], now, refused).1 + Timed(list[i], now, refused).1
  {
    hide Timed, TimedAll;
    assert list[..i + 1] == list[..i] + [list[i]];
    TimedAllAppend(list[..i], [list[i]], now, refused);
    TimedAllOne(list[i], now, refused);
  }

  lemma {:induction false} OpenAppend(a: seq<Search>, b: seq<Search>)
    ensures StillOpen(a + b) == StillOpen(a) + StillOpen(b)
    decreases |a|
  {
    hide Full;
    if a == [] {
      assert a + b == b;
    } else {
      OpenAppend(a[1..], b);
      assert (a + b)[0] == a[0] && (a + b)[1..] == a[1..] + b;
      var first := if Full(a[0]) then [] else [a[0]];
      assert StillOpen(a + b) == first + (StillOpen(a[1..]) + StillOpen(b));
      assert StillOpen(a) == first + StillOpen(a[1..]);
    }
  }

  lemma {:induction false} FullAppend(a: seq<Search>, b: seq<Search>)
    ensures EndedFull(a + b) == EndedFull(a) + EndedFull(b)
    decreases |a|
  {
    hide Full, Ended;
    if a == [] {
      assert a + b == b;
    } else {
      FullAppend(a[1..], b);
      assert (a + b)[0] == a[0] && (a + b)[1..] == a[1..] + b;
      var first := if Full(a[0]) then [Ended(a[0])] else [];
      assert EndedFull(a + b) == first + (EndedFull(a[1..]) + EndedFull(b));
      assert EndedFull(a) == first + EndedFull(a[1..]);
    }
  }

  lemma {:induction false} IndexFrom(list: seq<Search>, id: nat, i: nat)
    requires i <= |list| && (forall k :: 0 <= k < i ==> list[k].id != id) && (i < |list| ==> list[i].id == id)
    ensures IndexOf(list, id) == i
    decreases i
  {
    if i > 0 {
      IndexFrom(list[1..], id, i - 1);
    }
  }

  // ----- the results of one search -----

  /** mdns_priv_query_result_add_txt */
  method ResultAddTxt(h: Hits, items: seq<TxtItem>, link: Link, ttl: nat) returns (h': Hits)
    ensures h' == AddTxt(h, items, link, ttl)
  {
    h' := h;
    var i := 0;
    while i < |h.list|
      invariant i <= |h.list| && forall k :: 0 <= k < i ==> !OnLink(h.list[k], link)
    {
      var r := h.list[i];
      if r.link == link {
        if r.txt.Some? { return; }
        r := r.(txt := Some(items));
        return h.(list := h.list[i := Shortened(r, ttl)]);
      }
      i := i + 1;
    }
    if h.maxResults == 0 || h.numResults < h.maxResults {
      var r := Blank(link, ttl).(txt := Some(items));
      h' := h'.(list := [r] + h.list, numResults := (h.numResults + 1) % 256);
    }
  }

  /** result_add_ip */
  method ResultAddIp(r: Found, a: Address) returns (r': Found)
    ensures r' == WithAddress(r, a)
  {
    var i := 0;
    while i < |r.addrs|
      invariant i <= |r.addrs| && a !in r.addrs[..i]
    {
      if r.addrs[i] == a { return r; }
      i := i + 1;
    }
    return r.(addrs := [a] + r.addrs);
  }

  /** mdns_priv_query_result_add_ip */
  method ResultAddAddress(h: Hits, host: string, a: Address, link: Link, ttl: nat) returns (h': Hits)
    ensures h' == AddAddress(h, host, a, link, ttl)
  {
    h' := h;
    var kind := h.query.kind;
    var i := 0;
    if (kind == Only(A) && !a.v6) || (kind == Only(AAAA) && a.v6) || kind.Any? {
      while i < |h.list|
        invariant i <= |h.list| && forall k :: 0 <= k < i ==> !OnLink(h.list[k], link)
      {
        if h.list[i].link == link {
          var r := ResultAddIp(h.list[i], a);
          return h.(list := h.list[i := Shortened(r, ttl)]);
        }
        i := i + 1;
      }
      if h.maxResults == 0 || h.numResults < h.maxResults {
        var r := Blank(link, ttl).(host := Some(host), addrs := [a]);
        h' := h'.(list := [r] + h.list, numResults := (h.numResults + 1) % 256);
      }
    } else if kind == Only(PTR) || kind == Only(SRV) {
      while i < |h.list|
        invariant i <= |h.list| && forall k :: 0 <= k < i ==> !OfHost(h.list[k], link, host)
      {
        if h.list[i].link == link && SameName(h.list[i].host, host) {
          var r := ResultAddIp(h.list[i], a);
          return h.(list := h.list[i := Shortened(r, ttl)]);
        }
        i := i + 1;
      }
    }
  }

  /** mdns_priv_query_result_add_srv */
  method ResultAddSrv(h: Hits, host: string, port: nat, link: Link, ttl: nat) returns (h': Hits)
    ensures h' == AddSrv(h, host, port, link, ttl)
  {
    h' := h;
    var i := 0;
    while i < |h.list|
      invariant i <= |h.list| && forall k :: 0 <= k < i ==> !OfHost(h.list[k], link, host)
    {
      if h.list[i].link == link && SameName(h.list[i].host, host) {
        return h.(list := h.list[i := Shortened(h.list[i], ttl)]);
      }
      i := i + 1;
    }
    if h.maxResults == 0 || h.numResults < h.maxResults {
      var r := Blank(link, ttl).(host := Some(host), port := port);
      if h.query.instance.Some? {
        r := r.(instance := h.query.instance);
      }
      r := r.(service := h.query.service, proto := h.query.proto);
      h' := h'.(list := [r] + h.list, numResults := (h.numResults + 1) % 256);
    }
  }

  /** mdns_priv_query_result_add_ptr; `at` is the place of the result that it returns, past the end for NULL. */
  method ResultAddPtr(h: Hits, name: Name, link: Link, ttl: nat) returns (h': Hits, at: nat)
    ensures (h', at) == AddPtr(h, name, link, ttl)
  {
    h' := h;
    at := 0;
    while at < |h.list|
      invariant at <= |h.list| && forall k :: 0 <= k < at ==> !OfInstance(h.list[k], link, name.host)
    {
      if h.list[at].link == link && SameName(h.list[at].instance, name.host) {
        h' := h.(list := h.list[at := Shortened(h.list[at], ttl)]);
        return;
      }
      at := at + 1;
    }
    if h.maxResults == 0 || h.numResults < h.maxResults {
      var r := Blank(link, ttl).(instance := Some(name.host), service := Some(name.service), proto := Some(name.proto));
      h' := h'.(list := [r] + h.list, numResults := (h.numResults + 1) % 256);
      at := 0;
    }
  }

  /** The parser's search for the result of an instance, with the one it makes when there is none. */
  method FindResult(h: Hits, owner: Name, link: Link, ttl: nat) returns (h': Hits, at: nat)
    ensures (h', at) == ResultOf(h, owner, link, ttl)
  {
    h', at := h, 0;
    while at < |h.list|
      invariant at <= |h.list| && forall k :: 0 <= k < at ==> !Exactly(h.list[k], link, owner.host)
    {
      if h.list[at].link == link && h.list[at].instance == Some(owner.host) { return; }
      at := at + 1;
    }
    h', at := ResultAddPtr(h, owner, link, ttl);
  }

  /** What mdns_parse_packet does with a record for the search that it found. */
  method ParseRecord(h: Hits, heard: Heard, link: Link, ttl: nat) returns (h': Hits)
    ensures h' == Update(h, heard, link, ttl)
  {
    h' := h;
    var at: nat := |h.list|;
    match heard
    case HeardPtr(_, target) =>
      if target.Some? { h', at := ResultAddPtr(h, target.value, link, ttl); }
    case HeardSrv(owner, host, port) =>
      if h.query.kind == Only(PTR) {
        h', at := FindResult(h, owner, link, ttl);
        if at == |h'.list| { return; }
      }
      if host.None? { return; }
      if h.query.kind == Only(PTR) {
        if h'.list[at].host.None? {
          h' := h'.(list := h'.list[at := h'.list[at].(port := port, host := host)]);
        }
      } else {
        h' := ResultAddSrv(h, host.value, port, link, ttl);
      }
    case HeardTxt(owner, items) =>
      if h.query.kind == Only(PTR) {
        h', at := FindResult(h, owner, link, ttl);
        if at == |h'.list| { return; }
        if h'.list[at].txt.None? && items != [] {
          h' := h'.(list := h'.list[at := h'.list[at].(txt := Some(items))]);
        }
      } else if items != [] {
        h' := ResultAddTxt(h, items, link, ttl);
      }
    case HeardAddress(owner, a) => h' := ResultAddAddress(h, owner.host, a, link, ttl);
  }

  lemma {:induction false} WantingFrom(list: seq<Search>, heard: Heard, link: Link, i: nat)
    requires i <= |list| && (forall k :: 0 <= k < i ==> !Wanting(list[k], heard, link))
    requires i < |list| ==> Wanting(list[i], heard, link)
    ensures FirstWanting(list, heard, link) == i
    decreases i
  {
    hide Wanting;
    if i == 0 {
    } else {
      WantingFrom(list[1..], heard, link, i - 1);
    }
  }

  /** The searches before the first that wants a record stay as they are. */
  lemma NotHeardBefore(list: seq<Search>, at: nat, heard: Heard, link: Link, ttl: nat)
    requires at <= |list| && forall k :: 0 <= k < at ==> !Wanting(list[k], heard, link)
    ensures list[..at] == AllHearing(list, heard, link, ttl)[..at]
  {
    hide Wanting, Update;
  }

  /** The searches between the one that has heard an address and the next that wants it stay as they are. */
  lemma HeardUpTo(was: seq<Search>, before: seq<Search>, list: seq<Search>, at: nat, next: nat,
                  heard: Heard, link: Link, ttl: nat)
    requires at < next <= |was| == |before| && before[at..] == was[at..]
    requires before[..at] == AllHearing(was, heard, link, ttl)[..at]
    requires list == before[at := Hearing(before[at], heard, link, ttl)]
    requires forall k :: at + 1 <= k < next ==> !Wanting(list[k], heard, link)
    ensures list[..next] == AllHearing(was, heard, link, ttl)[..next] && list[next..] == was[next..]
  {
    hide Wanting, Update;
    var all := AllHearing(was, heard, link, ttl);
    assert before[at] == before[at..][0] == was[at];
    forall k | 0 <= k < next
      ensures list[k] == all[k]
    {
      if k < at {
        assert before[..at][k] == all[..at][k];
      } else {
        assert before[at..][k - at] == was[at..][k - at];
      }
    }
    assert list[next..] == before[at..][next - at..] == was[at..][next - at..];
  }

  /** s_search_once and the action queue */
  class SearchOnce {
    var now: nat
    var list: seq<Search>
    var actions: seq<Action>
    var finished: seq<Search>
    var deleted: seq<Search>
    var nextId: nat

    constructor ()
      ensures State() == NONE
    {
      now, list, actions, finished, deleted, nextId := 0, [], [], [], [], 0;
    }

    ghost function State(): Searches
      reads this
    {
      Searches(now, list, actions, finished, deleted, nextId)
    }

    /** search_is_in_list, with the place. */
    method Find(among: seq<Search>, id: nat) returns (i: nat)
      ensures i == IndexOf(among, id)
    {
      i := 0;
      while i < |among| && among[i].id != id
        invariant i <= |among| && forall k :: 0 <= k < i ==> among[k].id != id
      {
        i := i + 1;
      }
      IndexFrom(among, id, i);
    }

    /** search_finish */
    method SearchFinish(id: nat)
      modifies this`list, this`finished
      ensures State() == Finish(old(State()), id)
    {
      var i := Find(list, id);
      if i == |list| { return; }
      var search := list[i].(state := SearchOff);
      list := list[..i] + list[i + 1..];
      if search.notifier {
        search := search.(notifier := false, notified := search.notified + 1);
      }
      search := search.(given := search.given + 1);
      finished := finished + [search];
    }

    /** mdns_priv_query_start_stop; `refused` are the searches for whose action there is no room. */
    method StartStop(refused: set<nat>)
      modifies this`list, this`actions
      ensures State() == Step(old(State()), Timer(refused))
    {
      hide TimedAll, Timed;
      ghost var was := list;
      var i := 0;
      NoneTimed(now, refused);
      assert was[..0] == [] && actions + [] == actions;
      while i < |list|
        invariant i <= |list| == |was|
        invariant list == TimedAll(was[..i], now, refused).0 + was[i..]
        invariant |TimedAll(was[..i], now, refused).0| == i
        invariant actions == old(actions) + TimedAll(was[..i], now, refused).1
      {
        assert list[i] == was[i];
        StartStopOne(i, refused);
        TimedOneMore(was, i, now, refused);
        assert was[i..] == [was[i]] + was[i + 1..];
        i := i + 1;
      }
      assert was[..i] == was && was[i..] == [];
    }

    method StartStopOne(i: nat, refused: set<nat>)
      requires i < |list|
      modifies this`list, this`actions
      ensures list == old(list)[i := Timed(old(list[i]), now, refused).0]
      ensures actions == old(actions) + Timed(old(list[i]), now, refused).1
    {
      var s := list[i];
      assert list[i := s] == list;
      if s.state.SearchOff? { return; }
      if now > s.startedAt + s.timeout {
        s := s.(state := SearchOff);
        if s.id in refused {
          s := s.(state := SearchRunning);
        } else {
          actions := actions + [End(s.id)];
        }
        list := list[i := s];
      } else if s.state.SearchInit? || now - s.sentAt > 1000 {
        s := s.(state := SearchRunning, sentAt := now);
        if s.id in refused {
          s := s.(sentAt := s.sentAt - 1000);
        } else {
          s := s.(sends := s.sends + [now]);
          actions := actions + [Send(s.id)];
        }
        list := list[i := s];
      }
    }

    /** mdns_priv_query_done: the searches that have all they asked for come to their end. */
    method QueryDone()
      modifies this`list, this`finished
      ensures State() == Done(old(State()))
    {
      hide StillOpen, EndedFull;
      ghost var was, before := list, finished;
      ghost var passed := 0;
      var i := 0;
      NoneDone();
      assert was[..0] == [] && before + [] == before;
      while i < |list|
        invariant passed <= |was| && i <= |list| && |list| - i == |was| - passed
        invariant list[..i] == StillOpen(was[..passed]) && list[i..] == was[passed..]
        invariant finished == before + EndedFull(was[..passed])
        decreases |list| - i
      {
        var s := list[i];
        assert s == was[passed] && list[i..][1..] == list[i + 1..] && was[passed..][1..] == was[passed + 1..];
        assert was[..passed + 1] == was[..passed] + [s];
        OpenAppend(was[..passed], [s]);
        FullAppend(was[..passed], [s]);
        DoneOne(s);
        if s.hits.maxResults != 0 && s.hits.numResults >= s.hits.maxResults {
          list := list[..i] + list[i + 1..];
          finished := finished + [Ended(s)];
        } else {
          i := i + 1;
        }
        passed := passed + 1;
      }
      assert was[..passed] == was && list[..i] == list;
    }

    /** mdns_priv_query_find_from */
    method FindFrom(start: nat, heard: Heard, link: Link) returns (i: nat)
      requires start <= |list|
      ensures start <= i <= |list| && (i < |list| ==> Wanting(list[i], heard, link))
      ensures forall k :: start <= k < i ==> !Wanting(list[k], heard, link)
    {
      hide Wants;
      i := start;
      while i < |list| && (list[i].state.SearchOff? || !Wants(list[i].hits, heard, link))
        invariant start <= i <= |list| && forall k :: start <= k < i ==> !Wanting(list[k], heard, link)
      {
        i := i + 1;
      }
    }

    /** A record in mdns_parse_packet: an address goes on to every search that wants it. */
    method HearRecord(heard: Heard, link: Link, ttl: nat)
      modifies this`list
      ensures State() == Step(old(State()), Record(heard, link, ttl))
    {
      hide Wanting, Update, Hearing, AllHearing;
      ghost var was := list;
      var at := FindFrom(0, heard, link);
      WantingFrom(was, heard, link, at);
      NotHeardBefore(was, at, heard, link, ttl);
      while at < |list|
        invariant at <= |list| == |was| && list[at..] == was[at..] && (at < |list| ==> Wanting(list[at], heard, link))
        invariant heard.HeardAddress? ==> list[..at] == AllHearing(was, heard, link, ttl)[..at]
        invariant !heard.HeardAddress? ==> list == was && at == FirstWanting(was, heard, link)
        decreases |list| - at
      {
        ghost var before := list;
        HearAt(at, heard, link, ttl);
        if !heard.HeardAddress? { return; }
        var next := FindFrom(at + 1, heard, link);
        HeardUpTo(was, before, list, at, next, heard, link, ttl);
        at := next;
      }
    }

    method HearAt(at: nat, heard: Heard, link: Link, ttl: nat)
      requires at < |list| && Wanting(list[at], heard, link)
      modifies this`list
      ensures list == old(list)[at := Hearing(old(list[at]), heard, link, ttl)]
    {
      var hits := ParseRecord(list[at].hits, heard, link, ttl);
      list := list[at := list[at].(hits := hits)];
    }

    /** mdns_query_async_delete */
    method AsyncDelete(id: nat)
      modifies this`list, this`finished, this`deleted
      ensures State() == Delete(old(State()), id)
    {
      var i := Find(list, id);
      var k := Find(finished, id);
      if i < |list| {
        if !list[i].state.SearchOff? { return; }
        deleted := deleted + [list[i].(notifier := false)];
        list := list[..i] + list[i + 1..];
      } else if k < |finished| {
        deleted := deleted + [finished[k]];
        finished := finished[..k] + finished[k + 1..];
      }
    }
  }

  lemma NoneTimed(now: nat, refused: set<nat>)
    ensures TimedAll([], now, refused) == ([], [])
  {
  }

  lemma NoneDone()
    ensures StillOpen([]) == [] && EndedFull([]) == []
  {
  }

  lemma DoneOne(s: Search)
    ensures StillOpen([s]) == (if Full(s) then [] else [s]) && EndedFull([s]) == (if Full(s) then [Ended(s)] else [])
  {
  }
}
