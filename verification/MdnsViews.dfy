/** What a browser has been told, against a bag of cached services. */
module MdnsViews {
  import opened CStrings
  import opened MdnsCache
  import opened MdnsCommon

  /** What names a service for a browser of its type. */
  datatype Key = Key(link: Link, instance: string)

  type View = map<Key, Notice>

  function KeyOf(slot: Slot): Key {
    Key(slot.link, Fold(slot.s.instance))
  }

  function Heard(v: View, n: Notice): View {
    var k := Key(n.link, Fold(n.instance));
    if n.ttl == 0 then v - {k} else v[k := n]
  }

  /** The fold of the notices: a notice with TTL zero deletes. */
  function ViewFrom(v: View, log: seq<Notice>): View
    decreases |log|
  {
    if log == [] then v else ViewFrom(Heard(v, log[0]), log[1..])
  }

  function ViewOf(b: Browse): View {
    ViewFrom(map[], b.log)
  }

  lemma {:induction false} ViewAppend(v: View, a: seq<Notice>, b: seq<Notice>)
    ensures ViewFrom(v, a + b) == ViewFrom(ViewFrom(v, a), b)
    decreases |a|
  {
    if a == [] {
      assert a + b == b;
    } else {
      ViewAppend(Heard(v, a[0]), a[1..], b);
      assert (a + b)[1..] == a[1..] + b;
    }
  }

  lemma ViewTold(b: Browse, n: Notice)
    ensures ViewOf(Told(b, n)) == Heard(ViewOf(b), n)
  {
    ViewAppend(map[], b.log, [n]);
    assert [n][1..] == [];
  }

  // ----- bags of services -----

  predicate Named(s: Service) {
    s.instance != "" && s.service != "" && s.proto != ""
  }

  predicate SameService(a: Slot, b: Slot) {
    && a.link == b.link && Fold(a.s.instance) == Fold(b.s.instance)
    && Fold(a.s.service) == Fold(b.s.service) && Fold(a.s.proto) == Fold(b.s.proto)
  }

  predicate SlotOk(a: Slot) {
    && HasRecord(a.s) && (a.s.ptr ==> Named(a.s) && a.s.ptrTtl > 0)
    && (a.s.dirty <==> a.s.records != {})
  }

  ghost predicate BagOk(bag: multiset<Slot>) {
    forall a :: a in bag ==> SlotOk(a)
  }

  /** At most one service per link, instance, type and protocol. */
  ghost predicate Unique(bag: multiset<Slot>) {
    && (forall a :: a in bag && Named(a.s) ==> bag[a] == 1)
    && (forall a, b :: a in bag && b in bag && Named(a.s) && SameService(a, b) ==> a == b)
  }

  predicate Listening(b: Browse) {
    b.state == BrowseRunning && b.notifier
  }

  /** Clean services are shown as they are, and nothing is shown that is not there. */
  ghost predicate ViewOk(bag: multiset<Slot>, b: Browse) {
    && (forall a :: a in bag && Matches(b, a.s) && !a.s.dirty ==>
        KeyOf(a) in ViewOf(b) && ViewOf(b)[KeyOf(a)] == Project(a))
    && (forall k :: k in ViewOf(b) ==> exists a :: a in bag && Matches(b, a.s) && KeyOf(a) == k)
  }

  ghost predicate BrowseOk(bag: multiset<Slot>, b: Browse) {
    (Listening(b) ==> ViewOk(bag, b)) && (b.state == BrowseInit ==> b.log == [])
  }

  ghost predicate AllViewsOk(bag: multiset<Slot>, browses: seq<Browse>) {
    forall i :: 0 <= i < |browses| ==> BrowseOk(bag, browses[i])
  }

  ghost predicate Good(bag: multiset<Slot>, browses: seq<Browse>) {
    BagOk(bag) && Unique(bag) && AllViewsOk(bag, browses)
  }

  /** Two matching services with one key are the same one. */
  lemma MatchingKey(bag: multiset<Slot>, b: Browse, x: Slot, y: Slot)
    requires BagOk(bag) && Unique(bag) && x in bag && y in bag
    requires Matches(b, x.s) && Matches(b, y.s) && KeyOf(x) == KeyOf(y)
    ensures x == y && bag[x] == 1
  {
  }

  /** A service changed in place, still of the same name, and marked. */
  predicate Changed(before: Slot, after: Slot) {
    && after.link == before.link
    && after.s.instance == before.s.instance && after.s.service == before.s.service && after.s.proto == before.s.proto
    && (before.s.ptr ==> after.s.ptr)
    && (after.s.dirty || after == before)
  }

  lemma ChangeKeeps(bag: multiset<Slot>, browses: seq<Browse>, before: Slot, after: Slot)
    requires Good(bag, browses) && before in bag && Changed(before, after) && SlotOk(after)
    ensures Good(bag - multiset{before} + multiset{after}, browses)
  {
    var bag' := bag - multiset{before} + multiset{after};
    forall i | 0 <= i < |browses| && Listening(browses[i])
      ensures ViewOk(bag', browses[i])
    {
      var b := browses[i];
      assert BrowseOk(bag, b);
      forall k | k in ViewOf(b)
        ensures exists a :: a in bag' && Matches(b, a.s) && KeyOf(a) == k
      {
        var a :| a in bag && Matches(b, a.s) && KeyOf(a) == k;
        if a == before {
          assert after in bag' && Matches(b, after.s) && KeyOf(after) == k;
        } else {
          assert a in bag';
        }
      }
    }
    forall i | 0 <= i < |browses| ensures BrowseOk(bag', browses[i]) { assert BrowseOk(bag, browses[i]); }
    UniqueAfterChange(bag, before, after);
  }

  lemma UniqueAfterChange(bag: multiset<Slot>, before: Slot, after: Slot)
    requires Unique(bag) && before in bag && SameService(before, after) && Named(before.s) == Named(after.s)
    ensures Unique(bag - multiset{before} + multiset{after})
  {
    assert Named(before.s) ==> after !in bag || after == before;
    forall x | x in bag && Named(x.s) && SameService(x, after)
      ensures x == before
    {
      assert SameService(x, before);
    }
  }

  /** A service under a new name, marked. */
  lemma AddKeeps(bag: multiset<Slot>, browses: seq<Browse>, new': Slot)
    requires Good(bag, browses) && SlotOk(new') && new'.s.dirty
    requires Named(new'.s) ==> forall a :: a in bag ==> !SameService(a, new')
    ensures Good(bag + multiset{new'}, browses)
  {
    var bag' := bag + multiset{new'};
    forall i | 0 <= i < |browses|
      ensures BrowseOk(bag', browses[i])
    {
      assert BrowseOk(bag, browses[i]);
    }
    forall a, b | a in bag' && b in bag' && Named(a.s) && SameService(a, b)
      ensures a == b
    {
      assert Named(b.s);
      assert SameService(b, a);
    }
    forall a | a in bag' && Named(a.s) ensures bag'[a] == 1 {
      assert SameService(a, a);
    }
  }

  /** A service that no browser shows goes without a word. */
  lemma RemoveKeeps(bag: multiset<Slot>, browses: seq<Browse>, gone: Slot)
    requires Good(bag, browses) && gone in bag && !gone.s.ptr
    ensures Good(bag - multiset{gone}, browses)
  {
    var bag' := bag - multiset{gone};
    forall i | 0 <= i < |browses|
      ensures BrowseOk(bag', browses[i])
    {
      var b := browses[i];
      assert BrowseOk(bag, b);
      if Listening(b) {
        forall k | k in ViewOf(b)
          ensures exists a :: a in bag' && Matches(b, a.s) && KeyOf(a) == k
        {
          var a :| a in bag && Matches(b, a.s) && KeyOf(a) == k;
          assert a in bag';
        }
      }
    }
  }

  /** A PTR goodbye: the browsers of the type are told, and the service goes. */
  lemma GoodbyeKeeps(bag: multiset<Slot>, browses: seq<Browse>, gone: Slot)
    requires Good(bag, browses) && gone in bag
    ensures Good(bag - multiset{gone}, NotifyMatching(browses, gone.s, Goodbye(gone)))
  {
    var bag' := bag - multiset{gone};
    forall i | 0 <= i < |browses|
      ensures BrowseOk(bag', NotifyMatching(browses, gone.s, Goodbye(gone))[i])
    {
      GoodbyeView(bag, browses[i], gone);
    }
  }

  lemma GoodbyeTold(b: Browse, gone: Slot)
    ensures ViewOf(Told(b, Goodbye(gone))) == ViewOf(b) - {KeyOf(gone)}
  {
    ViewTold(b, Goodbye(gone));
  }

  lemma GoodbyeView(bag: multiset<Slot>, b: Browse, gone: Slot)
    requires BagOk(bag) && Unique(bag) && BrowseOk(bag, b) && gone in bag
    ensures BrowseOk(bag - multiset{gone}, if Matches(b, gone.s) then Told(b, Goodbye(gone)) else b)
  {
    hide Project, KeyOf, ViewOf, Goodbye, SameType;
    var bag' := bag - multiset{gone};
    if Listening(b) {
      var b' := if Matches(b, gone.s) then Told(b, Goodbye(gone)) else b;
      GoodbyeTold(b, gone);
      forall a | a in bag' && Matches(b', a.s) && !a.s.dirty
        ensures KeyOf(a) in ViewOf(b') && ViewOf(b')[KeyOf(a)] == Project(a)
      {
        if Matches(b, gone.s) && KeyOf(a) == KeyOf(gone) {
          MatchingKey(bag, b, a, gone);
        }
      }
      forall k | k in ViewOf(b')
        ensures exists a :: a in bag' && Matches(b', a.s) && KeyOf(a) == k
      {
        var a :| a in bag && Matches(b, a.s) && KeyOf(a) == k;
        assert a in bag' && Matches(b', a.s);
      }
    }
  }

  // ----- telling about many services -----

  predicate Due(b: Browse, slot: Slot, replay: bool) {
    Matches(b, slot.s) && (replay || (slot.s.dirty && slot.s.records != {}))
  }

  function Notices(b: Browse, slots: seq<Slot>, replay: bool): seq<Notice>
    decreases |slots|
  {
    if slots == [] then []
    else (if Due(b, slots[0], replay) then [Project(slots[0])] else []) + Notices(b, slots[1..], replay)
  }

  lemma {:induction false} NoticesSame(b: Browse, b': Browse, slots: seq<Slot>, replay: bool)
    requires b' == b.(log := b'.log)
    ensures Notices(b', slots, replay) == Notices(b, slots, replay)
    decreases |slots|
  {
    if slots == [] {
    } else {
      NoticesSame(b, b', slots[1..], replay);
    }
  }

  lemma {:induction false} ReplayNotices(b: Browse, slots: seq<Slot>)
    ensures Replay(b, slots) == b.(log := b.log + Notices(b, slots, true))
    decreases |slots|
  {
    if slots == [] {
      assert b.log + [] == b.log;
    } else {
      var b' := if Matches(b, slots[0].s) then Told(b, Project(slots[0])) else b;
      ReplayNotices(b', slots[1..]);
      NoticesSame(b, b', slots[1..], true);
      assert b'.log + Notices(b, slots[1..], true) == b.log + Notices(b, slots, true);
    }
  }

  lemma SyncTold(browses: seq<Browse>, slot: Slot, i: nat)
    requires i < |browses|
    ensures |SyncSlot(browses, slot)| == |browses|
    ensures SyncSlot(browses, slot)[i] == browses[i].(log := browses[i].log + Notices(browses[i], [slot], false))
  {
  }

  lemma {:induction false} SyncNotices(browses: seq<Browse>, slots: seq<Slot>, i: nat)
    requires i < |browses|
    ensures |SyncSlots(browses, slots)| == |browses|
    ensures SyncSlots(browses, slots)[i] == browses[i].(log := browses[i].log + Notices(browses[i], slots, false))
    decreases |slots|
  {
    hide Due, SyncSlot, Matches, Project;
    var b := browses[i];
    if slots == [] {
      assert b.log + [] == b.log;
    } else {
      var told := SyncSlot(browses, slots[0]);
      SyncTold(browses, slots[0], i);
      SyncNotices(told, slots[1..], i);
      NoticesSame(b, told[i], slots[1..], false);
      NoticesStep(b, slots, false);
      assert told[i].log + Notices(b, slots[1..], false) == b.log + Notices(b, slots, false);
    }
  }

  lemma NoticesStep(b: Browse, slots: seq<Slot>, replay: bool)
    requires slots != []
    ensures Notices(b, slots, replay) == Notices(b, [slots[0]], replay) + Notices(b, slots[1..], replay)
  {
    assert Notices(b, [], replay) == [];
  }

  /** Every service that is due ends up shown as it is, and nothing else changes. */
  lemma {:induction false} NoticesView(bag: multiset<Slot>, b: Browse, v: View, slots: seq<Slot>, replay: bool)
    requires BagOk(bag) && Unique(bag) && forall i :: 0 <= i < |slots| ==> slots[i] in bag
    ensures Shown(b, v, slots, replay, ViewFrom(v, Notices(b, slots, replay)))
    decreases |slots|
  {
    hide Due, Project, KeyOf, Heard, BagOk, Unique;
    if slots == [] {
    } else {
      NoticesStep(b, slots, replay);
      ViewAppend(v, Notices(b, [slots[0]], replay), Notices(b, slots[1..], replay));
      var first := ViewFrom(v, Notices(b, [slots[0]], replay));
      FirstNotice(bag, b, v, slots[0], replay);
      NoticesView(bag, b, first, slots[1..], replay);
      ShownStep(bag, b, v, first, slots, replay, ViewFrom(v, Notices(b, slots, replay)));
    }
  }

  ghost predicate Shown(b: Browse, v: View, slots: seq<Slot>, replay: bool, v': View) {
    && (forall i :: 0 <= i < |slots| && Due(b, slots[i], replay) ==>
          KeyOf(slots[i]) in v' && v'[KeyOf(slots[i])] == Project(slots[i]))
    && (forall k :: (k in v' && !(k in v && v'[k] == v[k])) ==>
          exists i :: 0 <= i < |slots| && Due(b, slots[i], replay) && KeyOf(slots[i]) == k)
    && (forall k :: k in v ==> k in v')
  }

  lemma FirstNotice(bag: multiset<Slot>, b: Browse, v: View, slot: Slot, replay: bool)
    requires BagOk(bag) && slot in bag
    ensures ViewFrom(v, Notices(b, [slot], replay)) ==
            if Due(b, slot, replay) then v[KeyOf(slot) := Project(slot)] else v
  {
  }

  lemma ShownStep(bag: multiset<Slot>, b: Browse, v: View, first: View, slots: seq<Slot>, replay: bool, v': View)
    requires BagOk(bag) && Unique(bag) && slots != [] && forall i :: 0 <= i < |slots| ==> slots[i] in bag
    requires first == if Due(b, slots[0], replay) then v[KeyOf(slots[0]) := Project(slots[0])] else v
    requires Shown(b, first, slots[1..], replay, v')
    ensures Shown(b, v, slots, replay, v')
  {
    hide Project, KeyOf, BagOk, Unique, Matches;
    var k0 := KeyOf(slots[0]);
    if Due(b, slots[0], replay) && v'[k0] != Project(slots[0]) {
      var i :| 0 <= i < |slots[1..]| && Due(b, slots[1..][i], replay) && KeyOf(slots[1..][i]) == k0;
      MatchingKey(bag, b, slots[0], slots[i + 1]);
    }
    forall i | 0 <= i < |slots| && Due(b, slots[i], replay)
      ensures KeyOf(slots[i]) in v' && v'[KeyOf(slots[i])] == Project(slots[i])
    {
      if i > 0 { assert slots[i] == slots[1..][i - 1]; }
    }
    forall k | k in v' && !(k in v && v'[k] == v[k])
      ensures exists i :: 0 <= i < |slots| && Due(b, slots[i], replay) && KeyOf(slots[i]) == k
    {
      if !(Due(b, slots[0], replay) && k == k0) {
        var i :| 0 <= i < |slots[1..]| && Due(b, slots[1..][i], replay) && KeyOf(slots[1..][i]) == k;
        assert slots[i + 1] == slots[1..][i];
      }
    }
  }
}
