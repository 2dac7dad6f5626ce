/** One-shot searches: their list, their actions, and how each comes to its end. */
module Querier {
  import opened Options
  import opened MdnsCommon
  import opened SearchResults
  import opened Sequences

  datatype SearchState = SearchInit | SearchRunning | SearchOff

  /**
   * mdns_search_once_t. `sends` are the times at which its query was handed on to be sent, `wanted` says that a
   * notifier was given, and `notified` and `given` count the calls of it and of xSemaphoreGive.
   */
  datatype Search = Search(
    id: nat, hits: Hits, startedAt: nat, timeout: nat, sentAt: int, sends: seq<nat>, state: SearchState,
    wanted: bool, notifier: bool, notified: nat, given: nat)

  datatype Action = Add(search: Search) | Send(id: nat) | End(id: nat)

  /** `finished` left the list through search_finish; `deleted` were given up by their user. */
  datatype Searches = Searches(
    now: nat, list: seq<Search>, actions: seq<Action>, finished: seq<Search>, deleted: seq<Search>, nextId: nat)

  const NONE: Searches := Searches(0, [], [], [], [], 0)

  function IndexOf(list: seq<Search>, id: nat): (i: nat)
    ensures i <= |list| && (i < |list| ==> list[i].id == id)
  {
    if list == [] || list[0].id == id then 0 else 1 + IndexOf(list[1..], id)
  }

  const NAME_LENGTH: nat := 63

  /** A string of a new search: NULL when it is empty, and cut to the length of a label. */
  function Label(s: string): Option<string> {
    if s == "" then None else Some(if |s| <= NAME_LENGTH then s else s[..NAME_LENGTH])
  }

  /** search_init; the number of results wanted goes through a byte. */
  function NewSearch(id: nat, now: nat, timeout: nat, kind: Kind, name: Name, maxResults: nat, wanted: bool): Search {
    var query := Query(kind, Label(name.host), Label(name.service), Label(name.proto));
    Search(id, Hits(query, maxResults % 256, [], 0), now, timeout, 0, [], SearchInit, wanted, wanted, 0, 0)
  }

  /** The end of a search: off, its notifier called once and cleared, its semaphore given. */
  function Ended(s: Search): Search {
    s.(state := SearchOff, notifier := false,
       notified := s.notified + (if s.notifier then 1 else 0), given := s.given + 1)
  }

  /** search_finish */
  function Finish(q: Searches, id: nat): Searches {
    var i := IndexOf(q.list, id);
    if i == |q.list| then q
    else q.(list := RemoveAt(q.list, i), finished := q.finished + [Ended(q.list[i])])
  }

  /** One search under mdns_priv_query_start_stop, with the action that it asks for. */
  function Timed(s: Search, now: nat, refused: set<nat>): (Search, seq<Action>) {
    if s.state.SearchOff? then (s, [])
    else if now > s.startedAt + s.timeout then
      if s.id in refused then (s.(state := SearchRunning), []) else (s.(state := SearchOff), [End(s.id)])
    else if s.state.SearchInit? || now - s.sentAt > 1000 then
      if s.id in refused then (s.(state := SearchRunning, sentAt := now - 1000), [])
      else (s.(state := SearchRunning, sentAt := now, sends := s.sends + [now]), [Send(s.id)])
    else (s, [])
  }

  function TimedAll(list: seq<Search>, now: nat, refused: set<nat>): (seq<Search>, seq<Action>) {
    if list == [] then ([], [])
    else
      var (first, action) := Timed(list[0], now, refused);
      var (rest, actions) := TimedAll(list[1..], now, refused);
      ([first] + rest, action + actions)
  }

  /** What mdns_priv_query_find_from looks for. */
  predicate Wanting(s: Search, heard: Heard, link: Link) {
    !s.state.SearchOff? && Wants(s.hits, heard, link)
  }

  /** mdns_priv_query_find_from, from the start of a list. */
  function FirstWanting(list: seq<Search>, heard: Heard, link: Link): (i: nat)
    ensures i <= |list| && (i < |list| ==> Wanting(list[i], heard, link))
  {
    if list == [] || Wanting(list[0], heard, link) then 0 else 1 + FirstWanting(list[1..], heard, link)
  }

  function Hearing(s: Search, heard: Heard, link: Link, ttl: nat): Search {
    if Wanting(s, heard, link) then s.(hits := Update(s.hits, heard, link, ttl)) else s
  }

  function AllHearing(list: seq<Search>, heard: Heard, link: Link, ttl: nat): (r: seq<Search>)
    ensures |r| == |list| && forall i :: 0 <= i < |list| ==> r[i] == Hearing(list[i], heard, link, ttl)
  {
    seq(|list|, i requires 0 <= i < |list| => Hearing(list[i], heard, link, ttl))
  }

  /** A record goes to the first search that wants it, an address to all of them. */
  function Hear(list: seq<Search>, heard: Heard, link: Link, ttl: nat): seq<Search> {
    if heard.HeardAddress? then AllHearing(list, heard, link, ttl)
    else
      var i := FirstWanting(list, heard, link);
      if i == |list| then list else list[i := Hearing(list[i], heard, link, ttl)]
  }

  predicate Full(s: Search) {
    s.hits.maxResults != 0 && s.hits.numResults >= s.hits.maxResults
  }

  function StillOpen(list: seq<Search>): seq<Search> {
    if list == [] then [] else (if Full(list[0]) then [] else [list[0]]) + StillOpen(list[1..])
  }

  function EndedFull(list: seq<Search>): seq<Search> {
    if list == [] then [] else (if Full(list[0]) then [Ended(list[0])] else []) + EndedFull(list[1..])
  }

  /** mdns_priv_query_done */
  function Done(q: Searches): Searches {
    q.(list := StillOpen(q.list), finished := q.finished + EndedFull(q.list))
  }

  /** mdns_query_async_delete: only a search that is off may go, from the list if it is still there. */
  function Delete(q: Searches, id: nat): Searches {
    var i, k := IndexOf(q.list, id), IndexOf(q.finished, id);
    if i < |q.list| then
      if q.list[i].state.SearchOff?
      then q.(list := RemoveAt(q.list, i), deleted := q.deleted + [q.list[i].(notifier := false)])
      else q
    else if k < |q.finished| then q.(finished := RemoveAt(q.finished, k), deleted := q.deleted + [q.finished[k]])
    else q
  }

  /** mdns_priv_query_action for the next action of the queue. */
  function Act(q: Searches): Searches {
    if q.actions == [] then q
    else
      var rest := q.(actions := q.actions[1..]);
      match q.actions[0]
      case Add(search) => rest.(list := [search] + q.list)
      case Send(id) => rest
      case End(id) => Finish(rest, id)
  }

  datatype Event =
    | Tick(ms: nat)
    | New(timeout: nat, kind: Kind, name: Name, maxResults: nat, wanted: bool)
    | Timer(refused: set<nat>)
    | RunAction
    | Record(heard: Heard, link: Link, ttl: nat)
    | PacketDone
    | UserDelete(id: nat)

  function Step(q: Searches, e: Event): Searches {
    match e
    case Tick(ms) => q.(now := q.now + ms)
    case New(timeout, kind, name, maxResults, wanted) =>
      if timeout == 0 || (name.service == "") != (name.proto == "") then q
      else
        var search := NewSearch(q.nextId, q.now, timeout, kind, name, maxResults, wanted);
        q.(actions := q.actions + [Add(search)], nextId := q.nextId + 1)
    case Timer(refused) =>
      var (list, actions) := TimedAll(q.list, q.now, refused);
      q.(list := list, actions := q.actions + actions)
    case RunAction => Act(q)
    case Record(heard, link, ttl) => q.(list := Hear(q.list, heard, link, ttl))
    case PacketDone => Done(q)
    case UserDelete(id) => Delete(q, id)
  }

  function Run(q: Searches, events: seq<Event>): Searches
    decreases |events|
  {
    if events == [] then q else Run(Step(q, events[0]), events[1..])
  }

  // ----- what every run keeps -----

  ghost predicate Untold(s: Search) {
    Sound(s.hits) && s.notified == 0 && s.given == 0 && s.notifier == s.wanted
  }

  ghost predicate Told(s: Search) {
    Sound(s.hits) && s.state.SearchOff? && s.given == 1 && s.notified == (if s.wanted then 1 else 0)
  }

  ghost predicate AllUntold(list: seq<Search>) {
    forall i :: 0 <= i < |list| ==> Untold(list[i])
  }

  ghost predicate AllTold(list: seq<Search>) {
    forall i :: 0 <= i < |list| ==> Told(list[i])
  }

  /** A deleted search was told once or never, and its semaphore given as often. */
  ghost predicate GivenUp(s: Search) {
    Sound(s.hits) && ((s.given == 0 && s.notified == 0) || Told(s))
  }

  ghost predicate AllGivenUp(list: seq<Search>) {
    forall i :: 0 <= i < |list| ==> GivenUp(list[i])
  }

  ghost predicate AddsUntold(actions: seq<Action>) {
    forall i :: 0 <= i < |actions| && actions[i].Add? ==> Untold(actions[i].search)
  }

  ghost predicate Good(q: Searches) {
    AllUntold(q.list) && AllTold(q.finished) && AllGivenUp(q.deleted) && AddsUntold(q.actions)
  }

  function Ids(list: seq<Search>): (ids: seq<nat>)
    ensures |ids| == |list| && forall i :: 0 <= i < |list| ==> ids[i] == list[i].id
  {
    seq(|list|, i requires 0 <= i < |list| => list[i].id)
  }

  function AddedId(action: Action): seq<nat> {
    if action.Add? then [action.search.id] else []
  }

  function AddedIds(actions: seq<Action>): seq<nat> {
    if actions == [] then [] else AddedId(actions[0]) + AddedIds(actions[1..])
  }

  function Upto(n: nat): seq<nat> {
    seq(n, i => i)
  }

  /** Every search ever made is in exactly one place. */
  ghost predicate Conserved(q: Searches) {
    multiset(AddedIds(q.actions)) + multiset(Ids(q.list)) + multiset(Ids(q.finished)) + multiset(Ids(q.deleted))
      == multiset(Upto(q.nextId))
  }

  lemma {:induction false} AddedAppend(a: seq<Action>, b: seq<Action>)
    ensures AddedIds(a + b) == AddedIds(a) + AddedIds(b)
    decreases |a|
  {
    hide AddedId;
    if a == [] {
      assert a + b == b;
    } else {
      AddedAppend(a[1..], b);
      assert (a + b)[0] == a[0] && (a + b)[1..] == a[1..] + b;
      var first := AddedId(a[0]);
      assert AddedIds(a + b) == first + (AddedIds(a[1..]) + AddedIds(b));
      assert first + (AddedIds(a[1..]) + AddedIds(b)) == (first + AddedIds(a[1..])) + AddedIds(b);
    }
  }

  lemma TimedOne(s: Search, now: nat, refused: set<nat>)
    requires Untold(s)
    ensures var (t, action) := Timed(s, now, refused);
            Untold(t) && t.id == s.id && |action| <= 1 && AddedIds(action) == [] && AddsUntold(action)
  {
  }

  lemma {:induction false} TimedKeeps(list: seq<Search>, now: nat, refused: set<nat>)
    requires AllUntold(list)
    ensures var (l, actions) := TimedAll(list, now, refused);
            AllUntold(l) && Ids(l) == Ids(list) && AddedIds(actions) == [] && AddsUntold(actions)
    decreases |list|
  {
    hide Untold, Timed;
    if list == [] {
    } else {
      TimedKeeps(list[1..], now, refused);
      TimedOne(list[0], now, refused);
      var (first, action) := Timed(list[0], now, refused);
      var (rest, actions) := TimedAll(list[1..], now, refused);
      AddedAppend(action, actions);
      IdsCons(first, rest);
      IdsCons(list[0], list[1..]);
      assert list == [list[0]] + list[1..];
    }
  }

  lemma IdsCons(s: Search, list: seq<Search>)
    ensures Ids([s] + list) == [s.id] + Ids(list)
  {
  }

  lemma TakenOut(list: seq<Search>, i: nat)
    requires i < |list|
    ensures multiset(Ids(list)) == multiset(Ids(RemoveAt(list, i))) + multiset{list[i].id}
  {
    var ids := Ids(list);
    assert Ids(RemoveAt(list, i)) == ids[..i] + ids[i + 1..];
    assert ids == ids[..i] + [ids[i]] + ids[i + 1..];
  }

  lemma PutBehind(list: seq<Search>, s: Search)
    ensures multiset(Ids(list + [s])) == multiset(Ids(list)) + multiset{s.id}
  {
    assert Ids(list + [s]) == Ids(list) + [s.id];
  }

  lemma EndedIsTold(s: Search)
    requires Untold(s)
    ensures Told(Ended(s)) && Ended(s).id == s.id
  {
  }

  lemma FinishKeeps(q: Searches, id: nat)
    requires Good(q) && Conserved(q)
    ensures Good(Finish(q, id)) && Conserved(Finish(q, id))
  {
    hide AddedIds, Upto, Untold, Told, Ended, GivenUp;
    var i := IndexOf(q.list, id);
    if i < |q.list| {
      EndedIsTold(q.list[i]);
      TakenOut(q.list, i);
      PutBehind(q.finished, Ended(q.list[i]));
    }
  }

  /** A search goes from one of two places to the deleted ones. */
  lemma Moved(added: multiset<nat>, from: seq<Search>, other: seq<Search>, deleted: seq<Search>, i: nat, gone: Search)
    requires i < |from| && gone.id == from[i].id
    ensures added + multiset(Ids(from)) + multiset(Ids(other)) + multiset(Ids(deleted)) ==
            added + multiset(Ids(RemoveAt(from, i))) + multiset(Ids(other)) + multiset(Ids(deleted + [gone]))
  {
    hide Ids, RemoveAt;
    TakenOut(from, i);
    PutBehind(deleted, gone);
  }

  lemma DeleteConserves(q: Searches, id: nat)
    requires Conserved(q)
    ensures Conserved(Delete(q, id))
  {
    hide AddedIds, Upto, Ids, RemoveAt;
    var i, k := IndexOf(q.list, id), IndexOf(q.finished, id);
    var added := multiset(AddedIds(q.actions));
    if i < |q.list| {
      Moved(added, q.list, q.finished, q.deleted, i, q.list[i].(notifier := false));
    } else if k < |q.finished| {
      Moved(added, q.finished, q.list, q.deleted, k, q.finished[k]);
      var listed, left := multiset(Ids(q.list)), multiset(Ids(RemoveAt(q.finished, k)));
      assert added + listed + multiset(Ids(q.finished)) == added + multiset(Ids(q.finished)) + listed;
      assert added + listed + left == added + left + listed;
    }
  }

  lemma DeleteKeeps(q: Searches, id: nat)
    requires Good(q) && Conserved(q)
    ensures Good(Delete(q, id)) && Conserved(Delete(q, id))
  {
    hide Conserved, Untold, Told, GivenUp;
    DeleteConserves(q, id);
    var i, k := IndexOf(q.list, id), IndexOf(q.finished, id);
    if i < |q.list| {
      OffWithoutNotice(q.list[i]);
    } else if k < |q.finished| {
      ToldIsGivenUp(q.finished[k]);
    }
  }

  lemma ToldIsGivenUp(s: Search)
    requires Told(s)
    ensures GivenUp(s)
  {
  }

  lemma OffWithoutNotice(s: Search)
    requires Untold(s)
    ensures GivenUp(s.(notifier := false))
  {
  }

  lemma {:induction false} DoneStates(list: seq<Search>)
    requires AllUntold(list)
    ensures AllUntold(StillOpen(list)) && AllTold(EndedFull(list))
    decreases |list|
  {
    hide Untold, Told, Ended, Full;
    if list == [] {
    } else {
      DoneStates(list[1..]);
      EndedIsTold(list[0]);
    }
  }

  lemma {:induction false} DoneIds(list: seq<Search>)
    ensures multiset(Ids(list)) == multiset(Ids(StillOpen(list))) + multiset(Ids(EndedFull(list)))
    decreases |list|
  {
    hide Full;
    if list == [] {
    } else {
      DoneIds(list[1..]);
      var open, ended := StillOpen(list[1..]), EndedFull(list[1..]);
      IdsCons(list[0], list[1..]);
      assert list == [list[0]] + list[1..];
      if Full(list[0]) {
        IdsCons(Ended(list[0]), ended);
        assert [] + open == open;
      } else {
        IdsCons(list[0], open);
        assert [] + ended == ended;
      }
    }
  }

  lemma DoneKeeps(q: Searches)
    requires Good(q) && Conserved(q)
    ensures Good(Done(q)) && Conserved(Done(q))
  {
    hide AddedIds, Upto, Sound, StillOpen, EndedFull;
    DoneStates(q.list);
    DoneIds(q.list);
    assert Ids(q.finished + EndedFull(q.list)) == Ids(q.finished) + Ids(EndedFull(q.list));
  }

  lemma AddKeeps(q: Searches, s: Search, rest: seq<Action>)
    requires Good(q) && Conserved(q) && q.actions == [Add(s)] + rest
    ensures var q' := q.(actions := rest, list := [s] + q.list); Good(q') && Conserved(q')
  {
    hide Told, GivenUp, Untold, Upto;
    assert q.actions[1..] == rest && q.actions[0].search == s;
    assert AddedIds(q.actions) == [s.id] + AddedIds(rest);
    hide AddedIds;
    assert Ids([s] + q.list) == [s.id] + Ids(q.list);
    assert forall i :: 0 <= i < |rest| ==> rest[i] == q.actions[i + 1];
  }

  lemma PopKeeps(q: Searches)
    requires Good(q) && Conserved(q) && q.actions != [] && !q.actions[0].Add?
    ensures var q' := q.(actions := q.actions[1..]); Good(q') && Conserved(q')
  {
  }

  lemma NewIsUntold(id: nat, now: nat, timeout: nat, kind: Kind, name: Name, maxResults: nat, wanted: bool)
    ensures Untold(NewSearch(id, now, timeout, kind, name, maxResults, wanted))
  {
  }

  lemma OneAdded(s: Search)
    ensures AddedIds([Add(s)]) == [s.id]
  {
  }

  lemma AskedKeeps(q: Searches, s: Search)
    requires Good(q) && Conserved(q) && Untold(s) && s.id == q.nextId
    ensures var q' := q.(actions := q.actions + [Add(s)], nextId := q.nextId + 1); Good(q') && Conserved(q')
  {
    hide Untold, Told, GivenUp, AddedIds, Ids;
    AddedAppend(q.actions, [Add(s)]);
    OneAdded(s);
    assert Upto(q.nextId + 1) == Upto(q.nextId) + [q.nextId];
  }

  lemma NewKeeps(q: Searches, e: Event)
    requires Good(q) && Conserved(q) && e.New?
    ensures Good(Step(q, e)) && Conserved(Step(q, e))
  {
    hide Good, Conserved;
    var s := NewSearch(q.nextId, q.now, e.timeout, e.kind, e.name, e.maxResults, e.wanted);
    NewIsUntold(q.nextId, q.now, e.timeout, e.kind, e.name, e.maxResults, e.wanted);
    AskedKeeps(q, s);
  }

  lemma HearingKeeps(s: Search, heard: Heard, link: Link, ttl: nat)
    requires Untold(s)
    ensures Untold(Hearing(s, heard, link, ttl)) && Hearing(s, heard, link, ttl).id == s.id
  {
    hide Sound, ListGrown, Wants, Update;
    if Wanting(s, heard, link) {
      UpdateKeeps(s.hits, heard, link, ttl);
    }
  }

  /** A record keeps the searches in order, whichever of them hear it. */
  lemma RecordKeeps(q: Searches, heard: Heard, link: Link, ttl: nat)
    requires Good(q) && Conserved(q)
    ensures var q' := q.(list := Hear(q.list, heard, link, ttl)); Good(q') && Conserved(q')
  {
    hide AddedIds, Upto, Untold, Hearing;
    forall i | 0 <= i < |q.list|
      ensures Untold(Hearing(q.list[i], heard, link, ttl)) && Hearing(q.list[i], heard, link, ttl).id == q.list[i].id
    {
      HearingKeeps(q.list[i], heard, link, ttl);
    }
    assert Ids(Hear(q.list, heard, link, ttl)) == Ids(q.list);
  }

  lemma TimerKeeps(q: Searches, refused: set<nat>)
    requires Good(q) && Conserved(q)
    ensures Good(Step(q, Timer(refused))) && Conserved(Step(q, Timer(refused)))
  {
    hide AddedIds, Upto, Untold, TimedAll, Told, GivenUp;
    TimedKeeps(q.list, q.now, refused);
    AddedAppend(q.actions, TimedAll(q.list, q.now, refused).1);
    assert AddedIds(q.actions) + [] == AddedIds(q.actions);
  }

  lemma StepKeeps(q: Searches, e: Event)
    requires Good(q) && Conserved(q)
    ensures Good(Step(q, e)) && Conserved(Step(q, e))
  {
    hide Good, Conserved;
    match e
    case Tick(ms) => TickKeeps(q, ms);
    case New(_, _, _, _, _) => NewKeeps(q, e);
    case Timer(refused) => TimerKeeps(q, refused);
    case RunAction =>
      if q.actions != [] {
        match q.actions[0]
        case Add(search) =>
          assert q.actions == [Add(search)] + q.actions[1..];
          AddKeeps(q, search, q.actions[1..]);
        case Send(id) => PopKeeps(q);
        case End(id) =>
          PopKeeps(q);
          FinishKeeps(q.(actions := q.actions[1..]), id);
      }
    case Record(heard, link, ttl) => RecordKeeps(q, heard, link, ttl);
    case PacketDone => DoneKeeps(q);
    case UserDelete(id) => DeleteKeeps(q, id);
  }

  lemma TickKeeps(q: Searches, ms: nat)
    requires Good(q) && Conserved(q)
    ensures Good(q.(now := q.now + ms)) && Conserved(q.(now := q.now + ms))
  {
  }

  lemma {:induction false} RunKeeps(q: Searches, events: seq<Event>)
    requires Good(q) && Conserved(q)
    ensures Good(Run(q, events)) && Conserved(Run(q, events))
    decreases |events|
  {
    hide Good, Conserved, Step;
    if events == [] {
    } else {
      StepKeeps(q, events[0]);
      RunKeeps(Step(q, events[0]), events[1..]);
    }
  }

  /**
   * In every interleaving: each search ever made is in one place, and one that left the list through
   * search_finish had its notifier called and its semaphore given exactly once, a deleted one at most once,
   * any other never.
   */
  lemma EachSearchEndsOnce(events: seq<Event>)
    ensures var q := Run(NONE, events);
            && multiset(AddedIds(q.actions)) + multiset(Ids(q.list)) + multiset(Ids(q.finished))
                + multiset(Ids(q.deleted))
               == multiset(Upto(q.nextId))
            && (forall i :: 0 <= i < |q.list| ==> q.list[i].notified == 0 && q.list[i].given == 0)
            && (forall i :: 0 <= i < |q.finished| ==>
                  q.finished[i].given == 1 && q.finished[i].notified == (if q.finished[i].wanted then 1 else 0))
            && (forall i :: 0 <= i < |q.deleted| ==>
                q.deleted[i].given <= 1 && q.deleted[i].notified <= q.deleted[i].given)
  {
    hide Run, AddedIds, Upto, Sound;
    EmptyIsGood();
    RunKeeps(NONE, events);
  }

  /** What a caller may rely on in the results of a search. */
  ghost predicate ResultsOk(h: Hits) {
    && h.numResults == |h.list| % 256 && (h.maxResults != 0 ==> |h.list| == h.numResults <= h.maxResults)
    && (forall i, j :: 0 <= i < |h.list| && 0 <= j < |h.list| && i != j ==> !Double(h.query, h.list[i], h.list[j]))
    && (forall i, j, k :: 0 <= i < |h.list| && 0 <= j < k < |h.list[i].addrs| ==>
        h.list[i].addrs[j] != h.list[i].addrs[k])
  }

  /**
   * In every interleaving, for a search that is running, ended or deleted: its count is the length of its result
   * list, never more than its limit, no two of its results stand for the same thing, and none has an address twice.
   */
  lemma ResultsInOrder(events: seq<Event>)
    ensures var q := Run(NONE, events);
            && (forall i :: 0 <= i < |q.list| ==> ResultsOk(q.list[i].hits))
            && (forall i :: 0 <= i < |q.finished| ==> ResultsOk(q.finished[i].hits))
            && (forall i :: 0 <= i < |q.deleted| ==> ResultsOk(q.deleted[i].hits))
  {
    hide Run, AddedIds, Upto, ResultsOk;
    EmptyIsGood();
    RunKeeps(NONE, events);
    forall h: Hits | Sound(h) ensures ResultsOk(h) { SoundIsOk(h); }
  }

  lemma SoundIsOk(h: Hits)
    requires Sound(h)
    ensures ResultsOk(h)
  {
    hide Double;
    assert forall i :: 0 <= i < |h.list| ==> AddressesApart(h.list[i].addrs);
  }

  lemma EmptyIsGood()
    ensures Good(NONE) && Conserved(NONE)
  {
  }
}
