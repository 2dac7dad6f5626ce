/** At most one browser of a type at a time, in every run. */
module MdnsBrowsers {
  import opened CStrings
  import opened MdnsCache
  import opened MdnsCommon
  import opened MdnsViews
  import opened MdnsProofs
  import opened Sequences

  predicate SameBrowse(a: Browse, b: Browse) {
    Fold(a.service) == Fold(b.service) && Fold(a.proto) == Fold(b.proto)
  }

  /** No two browsers of one type that have not been stopped, and all with names. */
  ghost predicate OneEach(browses: seq<Browse>) {
    && (forall i :: 0 <= i < |browses| ==> browses[i].service != "" && browses[i].proto != "")
    && (forall i, j :: 0 <= i < j < |browses| && browses[i].state != BrowseOff && browses[j].state != BrowseOff ==>
          !SameBrowse(browses[i], browses[j]))
  }

  /** The same browsers, some of them stopped perhaps. */
  ghost predicate SameBrowses(before: seq<Browse>, after: seq<Browse>) {
    && |after| == |before|
    && forall i :: 0 <= i < |before| ==>
         && after[i].service == before[i].service && after[i].proto == before[i].proto
         && (after[i].state != BrowseOff ==> before[i].state != BrowseOff)
  }

  lemma SameOneEach(before: seq<Browse>, after: seq<Browse>)
    requires OneEach(before) && SameBrowses(before, after)
    ensures OneEach(after)
  {
  }

  lemma LessOneEach(browses: seq<Browse>, i: nat)
    requires OneEach(browses) && i < |browses|
    ensures OneEach(RemoveAt(browses, i))
  {
    var left := RemoveAt(browses, i);
    assert forall j :: 0 <= j < |left| ==> left[j] == browses[if j < i then j else j + 1];
  }

  lemma IsSameType(b: Browse, service: string, proto: string)
    requires service != "" && proto != ""
    ensures BrowseIs(b, service, proto) <==> Fold(b.service) == Fold(service) && Fold(b.proto) == Fold(proto)
  {
    NamesAfterFold(b.service, service);
    NamesAfterFold(b.proto, proto);
  }

  lemma NewOneEach(st: State, id: nat, service: string, proto: string, notifier: bool)
    requires OneEach(st.browses)
    ensures OneEach(BrowseNew(st, id, service, proto, notifier).browses)
  {
    hide Fold;
    if service != "" && proto != "" && !HasBrowse(st.browses, service, proto) {
      var b := Browse(id, service, proto, BrowseInit, notifier, []);
      var browses := [b] + st.browses;
      forall j | 0 <= j < |st.browses| && st.browses[j].state != BrowseOff ensures !SameBrowse(b, st.browses[j]) {
        IsSameType(st.browses[j], service, proto);
      }
      assert forall j :: 0 < j < |browses| ==> browses[j] == st.browses[j - 1];
    }
  }

  lemma {:induction false} SyncSameBrowses(browses: seq<Browse>, slots: seq<Slot>)
    ensures SameBrowses(browses, SyncSlots(browses, slots))
    decreases |slots|
  {
    hide Matches, Project;
    if slots == [] {
    } else {
      SyncSameBrowses(SyncSlot(browses, slots[0]), slots[1..]);
    }
  }

  lemma {:induction false} ApplySameBrowses(st: State, link: Link, us: seq<Update>)
    ensures SameBrowses(st.browses, ApplyAll(st, link, us).browses)
    decreases |us|
  {
    if us == [] {
    } else {
      OneSameBrowses(st, link, us[0]);
      hide Apply;
      ApplySameBrowses(Apply(st, link, us[0]), link, us[1..]);
    }
  }

  lemma OneSameBrowses(st: State, link: Link, u: Update)
    ensures SameBrowses(st.browses, Apply(st, link, u).browses)
  {
    hide FindOwner, FindIn, FindEntry, PutService, PushService, MoveService, RemoveService, PutAddrs, Matches, Project;
  }

  lemma {:induction false} ReplayState(b: Browse, slots: seq<Slot>)
    ensures Replay(b, slots) == b.(log := Replay(b, slots).log)
    decreases |slots|
  {
    ReplayNotices(b, slots);
  }

  lemma StartOneEach(st: State, id: nat)
    requires OneEach(st.browses)
    ensures OneEach(BrowseStart(st, id).browses)
  {
    hide OneEach, Replay, Slots;
    forall i | 0 <= i < |st.browses| {
      ReplayState(st.browses[i].(state := BrowseRunning), Slots(st.cache));
    }
    SameOneEach(st.browses, BrowseStart(st, id).browses);
  }

  lemma StepOneEach(st: State, e: Event)
    requires OneEach(st.browses)
    ensures OneEach(Step(st, e).browses)
  {
    hide OneEach, ApplyAll, SyncSlots, ClearedCache, RemoveType, Slots, BrowseStart, BrowseNew;
    match e
    case NewBrowse(id, service, proto, notifier) => NewOneEach(st, id, service, proto, notifier);
    case DeleteBrowse(service, proto) => SameOneEach(st.browses, Step(st, e).browses);
    case StartBrowse(id) => StartOneEach(st, id);
    case FinishBrowse(id) =>
      var i := IndexOfBrowse(st.browses, id);
      if i < |st.browses| { LessOneEach(st.browses, i); }
    case Packet(link, updates) =>
      ApplySameBrowses(st, link, updates);
      var applied := ApplyAll(st, link, updates);
      SyncSameBrowses(applied.browses, Slots(applied.cache));
      SameOneEach(st.browses, Step(st, e).browses);
  }

  lemma {:induction false} RunOneEach(st: State, events: seq<Event>)
    requires OneEach(st.browses)
    ensures OneEach(Run(st, events).browses)
    decreases |events|
  {
    hide OneEach, Step;
    if events == [] {
    } else {
      StepOneEach(st, events[0]);
      RunOneEach(Step(st, events[0]), events[1..]);
    }
  }

  ghost predicate Live(browses: seq<Browse>, service: string, proto: string) {
    exists i :: 0 <= i < |browses| && browses[i].state != BrowseOff
                && Fold(browses[i].service) == Fold(service) && Fold(browses[i].proto) == Fold(proto)
  }

  lemma {:induction false} BrowseFound(browses: seq<Browse>, service: string, proto: string)
    requires service != "" && proto != ""
    ensures var i := FindBrowse(browses, service, proto);
            && (i < |browses| <==> Live(browses, service, proto))
            && (i < |browses| ==> browses[i].state != BrowseOff && Fold(browses[i].service) == Fold(service)
                                  && Fold(browses[i].proto) == Fold(proto))
    decreases |browses|
  {
    hide Fold;
    if browses != [] {
      IsSameType(browses[0], service, proto);
      BrowseFound(browses[1..], service, proto);
      if i :| 0 <= i < |browses| && browses[i].state != BrowseOff
              && Fold(browses[i].service) == Fold(service) && Fold(browses[i].proto) == Fold(proto) {
        if i > 0 { assert browses[1..][i - 1] == browses[i]; }
      }
      if Live(browses[1..], service, proto) {
        var i :| 0 <= i < |browses[1..]| && browses[1..][i].state != BrowseOff
                 && Fold(browses[1..][i].service) == Fold(service) && Fold(browses[1..][i].proto) == Fold(proto);
        assert browses[i + 1] == browses[1..][i];
      }
    }
  }

  /**
   * In every run at most one browser of a type is not stopped; a new one of the type makes it one, a deletion none.
   */
  lemma OneBrowserEach(events: seq<Event>, service: string, proto: string, id: nat, notifier: bool)
    requires service != "" && proto != ""
    ensures var st := Run(EMPTY, events);
            && (forall i, j :: 0 <= i < j < |st.browses|
                               && st.browses[i].state != BrowseOff && st.browses[j].state != BrowseOff ==>
                  !SameBrowse(st.browses[i], st.browses[j]))
            && Live(BrowseNew(st, id, service, proto, notifier).browses, service, proto)
            && !Live(BrowseDelete(st, service, proto).browses, service, proto)
  {
    hide Run, Fold, FindBrowse;
    var st := Run(EMPTY, events);
    RunOneEach(EMPTY, events);
    BrowseFound(st.browses, service, proto);
    var created := BrowseNew(st, id, service, proto, notifier).browses;
    if HasBrowse(st.browses, service, proto) {
      var i :| 0 <= i < |st.browses| && st.browses[i].state != BrowseOff && BrowseIs(st.browses[i], service, proto);
      IsSameType(st.browses[i], service, proto);
      assert created == st.browses;
    } else {
      assert created[0].state != BrowseOff && created[0].service == service && created[0].proto == proto;
    }
    var i, deleted := FindBrowse(st.browses, service, proto), BrowseDelete(st, service, proto).browses;
    forall k | 0 <= k < |deleted| && deleted[k].state != BrowseOff
      ensures !(Fold(deleted[k].service) == Fold(service) && Fold(deleted[k].proto) == Fold(proto))
    {
      assert deleted[k] == st.browses[k];
      if i < |st.browses| { assert k != i && !SameBrowse(st.browses[i], st.browses[k]); }
    }
  }
}
