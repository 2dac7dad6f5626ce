/** When a search is sent, sent again, and ended, and which records reach it. */
module QuerierTimes {
  import opened Querier
  import opened SearchResults
  import opened Options
  import opened MdnsCommon
  import opened Sequences

  ghost predicate Spaced(times: seq<nat>) {
    forall i :: 0 < i < |times| ==> times[i - 1] + 1000 < times[i]
  }

  /** Sent in its time only, at intervals of more than a second, and not since it was last tried. */
  ghost predicate TimesOk(s: Search, now: nat) {
    && s.startedAt <= now && Spaced(s.sends)
    && (forall i :: 0 <= i < |s.sends| ==> s.startedAt <= s.sends[i] <= s.startedAt + s.timeout)
    && (s.sends != [] ==> s.sends[|s.sends| - 1] <= s.sentAt)
    && (s.state.SearchInit? ==> s.sends == [])
  }

  ghost predicate AllTimesOk(list: seq<Search>, now: nat) {
    forall i :: 0 <= i < |list| ==> TimesOk(list[i], now)
  }

  ghost predicate InTime(q: Searches) {
    && AllTimesOk(q.list, q.now) && AllTimesOk(q.finished, q.now) && AllTimesOk(q.deleted, q.now)
    && forall i :: 0 <= i < |q.actions| && q.actions[i].Add? ==> TimesOk(q.actions[i].search, q.now)
  }

  lemma TimedInTime(s: Search, now: nat, refused: set<nat>)
    requires TimesOk(s, now)
    ensures TimesOk(Timed(s, now, refused).0, now)
  {
    hide Spaced;
    if !s.state.SearchOff? && now <= s.startedAt + s.timeout && (s.state.SearchInit? || now - s.sentAt > 1000) {
      OneMoreSend(s, now);
    }
  }

  lemma OneMoreSend(s: Search, now: nat)
    requires TimesOk(s, now) && now <= s.startedAt + s.timeout && (s.state.SearchInit? || now - s.sentAt > 1000)
    ensures Spaced(s.sends + [now])
    ensures forall i :: 0 <= i < |s.sends + [now]| ==> s.startedAt <= (s.sends + [now])[i] <= s.startedAt + s.timeout
  {
  }

  /** What a timer makes of each search, and that it only asks for sends and ends. */
  lemma {:induction false} TimedEach(list: seq<Search>, now: nat, refused: set<nat>)
    ensures var (list', actions) := TimedAll(list, now, refused);
            && |list'| == |list| && (forall i :: 0 <= i < |list| ==> list'[i] == Timed(list[i], now, refused).0)
            && forall a :: a in actions <==> exists i :: 0 <= i < |list| && a in Timed(list[i], now, refused).1
    decreases |list|
  {
    hide Timed;
    if list == [] {
    } else {
      TimedEach(list[1..], now, refused);
      var (rest, actions) := TimedAll(list[1..], now, refused);
      var mine := Timed(list[0], now, refused).1;
      forall a ensures a in mine + actions <==> exists i :: 0 <= i < |list| && a in Timed(list[i], now, refused).1 {
        if a in actions {
          var i :| 0 <= i < |list[1..]| && a in Timed(list[1..][i], now, refused).1;
          assert list[i + 1] == list[1..][i];
        }
        if i :| 0 <= i < |list| && a in Timed(list[i], now, refused).1 {
          if i > 0 { assert list[1..][i - 1] == list[i]; }
        }
      }
    }
  }

  predicate Over(s: Search, now: nat) {
    now > s.startedAt + s.timeout
  }

  /**
   * At a timer event, a search is handed on to be ended exactly when it is on, its time is over and there is room, and
   * to be sent exactly when its time is not over, there is room, and it is new or was last tried over a second ago.
   */
  lemma TimerAsks(list: seq<Search>, now: nat, refused: set<nat>, id: nat)
    ensures var actions := TimedAll(list, now, refused).1;
            && (End(id) in actions <==>
                exists i :: 0 <= i < |list| && list[i].id == id && !list[i].state.SearchOff? && Over(list[i], now)
                            && id !in refused)
            && (Send(id) in actions <==>
                exists i :: 0 <= i < |list| && list[i].id == id && !list[i].state.SearchOff? && !Over(list[i], now)
                            && id !in refused && (list[i].state.SearchInit? || now - list[i].sentAt > 1000))
  {
    hide TimedAll, Timed;
    TimedEach(list, now, refused);
    forall i | 0 <= i < |list|
      ensures End(id) in Timed(list[i], now, refused).1 <==>
                list[i].id == id && !list[i].state.SearchOff? && Over(list[i], now) && id !in refused
      ensures Send(id) in Timed(list[i], now, refused).1 <==>
                && list[i].id == id && !list[i].state.SearchOff? && !Over(list[i], now) && id !in refused
                && (list[i].state.SearchInit? || now - list[i].sentAt > 1000)
    {
      TimedAsks(list[i], now, refused);
    }
  }

  lemma TimedAsks(s: Search, now: nat, refused: set<nat>)
    ensures forall id :: End(id) in Timed(s, now, refused).1 <==>
              id == s.id && !s.state.SearchOff? && Over(s, now) && id !in refused
    ensures forall id :: Send(id) in Timed(s, now, refused).1 <==>
              && id == s.id && !s.state.SearchOff? && !Over(s, now) && id !in refused
              && (s.state.SearchInit? || now - s.sentAt > 1000)
  {
  }

  lemma TimerInTime(q: Searches, refused: set<nat>)
    requires InTime(q)
    ensures InTime(Step(q, Timer(refused)))
  {
    hide TimedAll, Timed, TimesOk;
    TimedEach(q.list, q.now, refused);
    forall i | 0 <= i < |q.list| ensures TimesOk(Timed(q.list[i], q.now, refused).0, q.now) {
      TimedInTime(q.list[i], q.now, refused);
    }
    NoAdds(q.list, q.now, refused);
    var q' := Step(q, Timer(refused));
    forall i | 0 <= i < |q'.actions| && q'.actions[i].Add?
      ensures TimesOk(q'.actions[i].search, q.now)
    {
      assert i < |q.actions|;
    }
  }

  lemma NoAdds(list: seq<Search>, now: nat, refused: set<nat>)
    ensures var actions := TimedAll(list, now, refused).1; forall i :: 0 <= i < |actions| ==> !actions[i].Add?
  {
    TimedEach(list, now, refused);
  }

  lemma LaterInTime(s: Search, now: nat, later: nat)
    requires TimesOk(s, now) && now <= later
    ensures TimesOk(s, later)
  {
  }

  /** Nothing but a timer touches the times of a search. */
  predicate SameTimes(s: Search, s': Search) {
    && s'.startedAt == s.startedAt && s'.timeout == s.timeout && s'.sentAt == s.sentAt && s'.sends == s.sends
    && (s'.state.SearchInit? ==> s.state.SearchInit?)
  }

  lemma SameInTime(s: Search, s': Search, now: nat)
    requires TimesOk(s, now) && SameTimes(s, s')
    ensures TimesOk(s', now)
  {
  }

  lemma {:induction false} DoneInTime(list: seq<Search>, now: nat)
    requires AllTimesOk(list, now)
    ensures AllTimesOk(StillOpen(list), now) && AllTimesOk(EndedFull(list), now)
    decreases |list|
  {
    hide TimesOk, Full;
    if list == [] {
    } else {
      DoneInTime(list[1..], now);
      SameInTime(list[0], Ended(list[0]), now);
    }
  }

  lemma StepInTime(q: Searches, e: Event)
    requires InTime(q)
    ensures InTime(Step(q, e))
  {
    hide TimesOk, Hear, StillOpen, EndedFull, TimedAll, IndexOf, Ended, NewSearch;
    match e
    case Tick(ms) =>
      forall s | TimesOk(s, q.now) ensures TimesOk(s, q.now + ms) { LaterInTime(s, q.now, q.now + ms); }
    case New(timeout, kind, name, maxResults, wanted) =>
      NewInTime(q.nextId, q.now, timeout, kind, name, maxResults, wanted);
    case Timer(refused) => TimerInTime(q, refused);
    case RunAction =>
      forall s | TimesOk(s, q.now) ensures TimesOk(Ended(s), q.now) { EndedInTime(s, q.now); }
    case Record(heard, link, ttl) =>
      HearLength(q.list, heard, link, ttl);
      forall i | 0 <= i < |q.list| ensures TimesOk(Hear(q.list, heard, link, ttl)[i], q.now) {
        HearSame(q.list, heard, link, ttl, i);
        SameInTime(q.list[i], Hear(q.list, heard, link, ttl)[i], q.now);
      }
    case PacketDone => DoneInTime(q.list, q.now);
    case UserDelete(id) =>
      forall s | TimesOk(s, q.now) ensures TimesOk(s.(notifier := false), q.now) {
        SameInTime(s, s.(notifier := false), q.now);
      }
  }

  lemma EndedInTime(s: Search, now: nat)
    requires TimesOk(s, now)
    ensures TimesOk(Ended(s), now)
  {
  }

  lemma NewInTime(id: nat, now: nat, timeout: nat, kind: Kind, name: Name, maxResults: nat, wanted: bool)
    ensures TimesOk(NewSearch(id, now, timeout, kind, name, maxResults, wanted), now)
  {
  }

  lemma HearLength(list: seq<Search>, heard: Heard, link: Link, ttl: nat)
    ensures |Hear(list, heard, link, ttl)| == |list|
  {
  }

  lemma HearSame(list: seq<Search>, heard: Heard, link: Link, ttl: nat, i: nat)
    requires i < |list|
    ensures |Hear(list, heard, link, ttl)| == |list| && SameTimes(list[i], Hear(list, heard, link, ttl)[i])
  {
    hide FirstWanting, Update, Wanting;
  }

  lemma {:induction false} RunInTime(q: Searches, events: seq<Event>)
    requires InTime(q)
    ensures InTime(Run(q, events))
    decreases |events|
  {
    hide InTime, Step;
    if events == [] {
    } else {
      StepInTime(q, events[0]);
      RunInTime(Step(q, events[0]), events[1..]);
    }
  }

  /**
   * In every interleaving, for a search that is running, ended or deleted: its query was handed on only between
   * its beginning and its timeout, and each time more than a second after the time before.
   */
  lemma SendsInTime(events: seq<Event>, s: Search)
    requires var q := Run(NONE, events); s in q.list || s in q.finished || s in q.deleted
    ensures forall i :: 0 <= i < |s.sends| ==> s.startedAt <= s.sends[i] <= s.startedAt + s.timeout
    ensures forall i :: 0 < i < |s.sends| ==> s.sends[i - 1] + 1000 < s.sends[i]
  {
    hide Run;
    RunInTime(NONE, events);
    assert TimesOk(s, Run(NONE, events).now);
  }

  // ----- when a search has all it asked for, and when it may be deleted -----

  predicate Complete(s: Search) {
    s.hits.maxResults != 0 && |s.hits.list| >= s.hits.maxResults
  }

  lemma {:induction false} OpenExact(list: seq<Search>)
    requires AllUntold(list)
    ensures forall s :: s in StillOpen(list) <==> s in list && !Complete(s)
    ensures forall s :: s in EndedFull(list) <==> exists was :: was in list && Complete(was) && s == Ended(was)
    decreases |list|
  {
    hide Ended, Untold;
    if list == [] {
    } else {
      OpenExact(list[1..]);
      assert Full(list[0]) <==> Complete(list[0]) by { FullIsComplete(list[0]); }
      assert list == [list[0]] + list[1..];
    }
  }

  lemma FullIsComplete(s: Search)
    requires Untold(s)
    ensures Full(s) <==> Complete(s)
  {
  }

  /** In every run, the end of a packet ends exactly the searches that have as many results as they asked for. */
  lemma PacketEndsComplete(events: seq<Event>)
    ensures var q := Run(NONE, events); var q' := Step(q, PacketDone);
            && (forall s :: s in q'.list <==> s in q.list && !Complete(s))
            && (forall s :: s in q'.finished <==>
                  s in q.finished || exists was :: was in q.list && Complete(was) && s == Ended(was))
  {
    hide Run, Complete, Ended, Conserved, StillOpen, EndedFull;
    EmptyIsGood();
    RunKeeps(NONE, events);
    OpenExact(Run(NONE, events).list);
  }

  lemma {:induction false} IndexExact(list: seq<Search>, id: nat)
    ensures IndexOf(list, id) < |list| <==> exists i :: 0 <= i < |list| && list[i].id == id
    ensures forall k :: 0 <= k < IndexOf(list, id) ==> list[k].id != id
    decreases |list|
  {
    if list == [] || list[0].id == id {
    } else {
      IndexExact(list[1..], id);
      if i :| 0 <= i < |list| && list[i].id == id { assert list[1..][i - 1].id == id; }
    }
  }

  /** A search that is not off cannot be deleted; one that is off, or is gone from the list, can. */
  lemma DeleteExact(q: Searches, id: nat)
    requires forall i, j :: 0 <= i < j < |q.list| ==> q.list[i].id != q.list[j].id
    ensures forall i :: 0 <= i < |q.list| && q.list[i].id == id && !q.list[i].state.SearchOff? ==> Delete(q, id) == q
    ensures forall i :: 0 <= i < |q.list| && q.list[i].id == id && q.list[i].state.SearchOff? ==>
              && Delete(q, id).deleted == q.deleted + [q.list[i].(notifier := false)]
              && forall s :: s in Delete(q, id).list <==> s in q.list && s.id != id
  {
    IndexExact(q.list, id);
    var k := IndexOf(q.list, id);
    if k < |q.list| {
      forall s ensures s in RemoveAt(q.list, k) <==> s in q.list && s.id != id { Removed(q.list, k, s); }
    }
  }

  lemma Removed(list: seq<Search>, k: nat, s: Search)
    requires k < |list| && forall i, j :: 0 <= i < j < |list| ==> list[i].id != list[j].id
    ensures s in RemoveAt(list, k) <==> s in list && s.id != list[k].id
  {
    var rest := RemoveAt(list, k);
    if s in rest {
      var i :| 0 <= i < |rest| && rest[i] == s;
      assert s == list[if i < k then i else i + 1];
    }
    if s in list && s.id != list[k].id {
      var i :| 0 <= i < |list| && list[i] == s;
      assert s == rest[if i < k then i else i - 1];
    }
  }

  // ----- which search a record reaches -----

  lemma {:induction false} FirstExact(list: seq<Search>, heard: Heard, link: Link)
    ensures var i := FirstWanting(list, heard, link);
            && (forall k :: 0 <= k < i ==> !Wanting(list[k], heard, link))
            && (i == |list| <==> forall k :: 0 <= k < |list| ==> !Wanting(list[k], heard, link))
    decreases |list|
  {
    if list == [] || Wanting(list[0], heard, link) {
    } else {
      FirstExact(list[1..], heard, link);
    }
  }

  /** An address reaches every search that is on and wants it, any other record the first of them alone. */
  lemma RecordReaches(list: seq<Search>, heard: Heard, link: Link, ttl: nat, i: nat)
    requires i < |list|
    ensures var wants := !list[i].state.SearchOff? && Wants(list[i].hits, heard, link);
            var first := forall k :: 0 <= k < i ==> list[k].state.SearchOff? || !Wants(list[k].hits, heard, link);
            && |Hear(list, heard, link, ttl)| == |list|
            && Hear(list, heard, link, ttl)[i] ==
                 if wants && (heard.HeardAddress? || first)
                     then list[i].(hits := Update(list[i].hits, heard, link, ttl))
                 else list[i]
  {
    hide Wants, Update;
    FirstExact(list, heard, link);
  }

  /** A new search asks for what it was made for; empty names are none, and long ones are cut. */
  lemma NewSearchAsks(id: nat, now: nat, timeout: nat, kind: Kind, name: Name, maxResults: nat, wanted: bool)
    requires maxResults < 256 && |name.host| <= 63 && |name.service| <= 63 && |name.proto| <= 63
    ensures var s := NewSearch(id, now, timeout, kind, name, maxResults, wanted);
            && s.id == id && s.startedAt == now && s.timeout == timeout && s.wanted == wanted && s.state == SearchInit
            && s.hits.query.kind == kind && s.hits.list == [] && s.hits.maxResults == maxResults
            && (s.hits.query.instance == None <==> name.host == "")
            && (s.hits.query.instance.Some? ==> s.hits.query.instance.value == name.host)
            && (s.hits.query.service == None <==> name.service == "")
            && (s.hits.query.service.Some? ==> s.hits.query.service.value == name.service)
            && (s.hits.query.proto == None <==> name.proto == "")
            && (s.hits.query.proto.Some? ==> s.hits.query.proto.value == name.proto)
  {
  }
}
