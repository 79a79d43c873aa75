// The order a channel ends up with, told from its edit history alone: keep listeners in order
// of arrival, let a promoted listener arrive again and a demoted one go to the front, and sort
// once, stably, at the end.
module EventHistory {
  import opened EventTypes
  import opened EventTable

  /** The arrival order after a (re)subscription; never sorted. */
  function Arrive(h: seq<Entry>, e: Entry): seq<Entry> {
    var i := IndexOf(h, e.listener);
    if i == |h| then h + [e]
    else if e.priority < h[i].priority then Without(h, e.listener) + [e]
    else if h[i].priority < e.priority then [e] + Without(h, e.listener)
    else h[i := e]
  }

  function ArriveEdit(h: seq<Entry>, channel: string, edit: Edit): seq<Entry> {
    match edit
    case Subscribe(c, l, p, publisher) =>
      if c == channel && Accepted(c, l) then Arrive(h, Entry(l, p, publisher)) else h
    case Unsubscribe(c, l) => if c == channel then Without(h, l) else h
    case Sweep(publisher) => Keep(h, NotBy(publisher))
  }

  /** The arrival order of one channel after a run of edits. */
  function Arrivals(channel: string, edits: seq<Edit>): seq<Entry> {
    if edits == [] then []
    else ArriveEdit(Arrivals(channel, edits[..|edits| - 1]), channel, edits[|edits| - 1])
  }

  lemma UniqueSplit(a: seq<Entry>, b: seq<Entry>, x: seq<Entry>, y: seq<Entry>, o: Entry)
    requires a + [o] + b == x + [o] + y
    requires o !in a && o !in b && o !in x && o !in y
    ensures a == x && b == y
  {
    var whole := a + [o] + b;
    assert whole[|a|] == o && whole[|x|] == o;
    assert forall k :: 0 <= k < |x| ==> whole[k] == x[k] && whole[k] != o;
    assert forall k :: 0 <= k < |a| ==> whole[k] == a[k] && whole[k] != o;
    assert a == whole[..|a|] && b == whole[|a| + 1..];
    assert x == (x + [o] + y)[..|x|] && y == (x + [o] + y)[|x| + 1..];
  }

  /** `h` and `es` hold the same entries, in the same order tier by tier. */
  ghost predicate SameEntries(es: seq<Entry>, h: seq<Entry>) {
    && (forall p :: Tier(es, p) == Tier(h, p))
    && (forall x :: x in es <==> x in h)
  }

  /** The entry a merge finds is the same in both lists. */
  lemma SameEntry(es: seq<Entry>, h: seq<Entry>, l: Listener)
    requires NoDuplicates(es) && NoDuplicates(h) && SameEntries(es, h)
    ensures IndexOf(es, l) < |es| <==> IndexOf(h, l) < |h|
    ensures IndexOf(es, l) < |es| ==> es[IndexOf(es, l)] == h[IndexOf(h, l)]
  {
    var i, j := IndexOf(es, l), IndexOf(h, l);
    if i < |es| { assert es[i] in h; }
    if j < |h| { assert h[j] in es; }
  }

  /** Membership and distinctness after an arrival. */
  lemma ArriveMembers(h: seq<Entry>, e: Entry)
    requires NoDuplicates(h)
    ensures NoDuplicates(Arrive(h, e))
    ensures forall x :: x in Arrive(h, e) <==> x == e || (x in h && x.listener != e.listener)
  {
    var i := IndexOf(h, e.listener);
    if i == |h| || h[i].priority == e.priority {
      EditedMembers(h, e, Arrive(h, e));
    } else {
      KeepMembers(h, Others(e.listener));
      KeepNoDuplicates(h, Others(e.listener));
      EndMembers(Without(h, e.listener), e);
    }
  }

  /** A new listener at either end. */
  lemma EndMembers(w: seq<Entry>, e: Entry)
    requires NoDuplicates(w) && forall x :: x in w ==> x.listener != e.listener
    ensures NoDuplicates(w + [e]) && NoDuplicates([e] + w)
    ensures forall x :: x in w + [e] <==> x == e || x in w
    ensures forall x :: x in [e] + w <==> x == e || x in w
  {
    assert forall k :: 0 <= k < |w| ==> w[k] in w;
  }

  lemma WithoutOutsideTier(h: seq<Entry>, l: Listener, p: Priority)
    requires forall x :: x in h && x.listener == l ==> x.priority != p
    ensures Tier(Without(h, l), p) == Tier(h, p)
  {
    KeepCommutes(h, Others(l), InTier(p));
    KeepMembers(h, InTier(p));
    KeepAll(Tier(h, p), Others(l));
  }

  lemma PrependOtherTier(w: seq<Entry>, e: Entry, p: Priority)
    requires p != e.priority
    ensures Tier([e] + w, p) == Tier(w, p)
  {
    KeepConcat([e], w, InTier(p));
    KeepNone([e], InTier(p));
  }

  lemma PrependOwnTier(w: seq<Entry>, e: Entry)
    ensures Tier([e] + w, e.priority) == [e] + Tier(w, e.priority)
  {
    KeepConcat([e], w, InTier(e.priority));
    KeepAll([e], InTier(e.priority));
  }

  /** The tiers of the other priorities just lose the listener. */
  lemma ArriveOtherTier(h: seq<Entry>, e: Entry, p: Priority)
    requires NoDuplicates(h) && p != e.priority
    ensures Tier(Arrive(h, e), p) == Without(Tier(h, p), e.listener)
  {
    var l := e.listener;
    var i := IndexOf(h, l);
    if i == |h| {
      AppendTiers(h, e);
    } else if e.priority < h[i].priority {
      KeepCommutes(h, Others(l), InTier(p));
      KeepSnoc(Without(h, l), e, InTier(p));
    } else if h[i].priority < e.priority {
      KeepCommutes(h, Others(l), InTier(p));
      PrependOtherTier(Without(h, l), e, p);
    } else {
      MergeOtherTier(h, e, i, p);
    }
  }

  lemma MergeOtherTier(h: seq<Entry>, e: Entry, i: nat, p: Priority)
    requires NoDuplicates(h) && p != e.priority && i < |h| && h[i].listener == e.listener
    ensures Tier(h[i := e], p) == Without(Tier(h, p), e.listener)
  {
    var a, b := h[..i], h[i + 1..];
    assert h == a + [h[i]] + b && h[i := e] == a + [e] + b;
    OthersAround(a, h[i], b);
    UpdateOthers(a, h[i], b, e);
  }

  /** The tier of the new priority is the one the sorted list gets. */
  lemma ArriveOwnTier(es: seq<Entry>, h: seq<Entry>, e: Entry)
    requires Sorted(es) && NoDuplicates(es) && NoDuplicates(h) && SameEntries(es, h)
    ensures Tier(Arrive(h, e), e.priority) == TierAfterSubscribe(es, e)
  {
    var l, q := e.listener, e.priority;
    SameEntry(es, h, l);
    var i, j := IndexOf(es, l), IndexOf(h, l);
    assert Tier(es, q) == Tier(h, q);
    if j == |h| {
      assert Arrive(h, e) == h + [e];
      KeepSnoc(h, e, InTier(q));
    } else if h[j].priority != q {
      assert i < |es| && es[i].priority == h[j].priority;
      MovedInTier(h, e);
    } else {
      assert Arrive(h, e) == h[j := e];
      MergeInTier(es, h, e, i, j);
    }
  }

  /** A listener that comes from another tier joins at an end. */
  lemma MovedInTier(h: seq<Entry>, e: Entry)
    requires NoDuplicates(h)
    requires var j := IndexOf(h, e.listener); j < |h| && h[j].priority != e.priority
    ensures Tier(Without(h, e.listener) + [e], e.priority) == Tier(h, e.priority) + [e]
    ensures Tier([e] + Without(h, e.listener), e.priority) == [e] + Tier(h, e.priority)
  {
    forall x | x in h && x.listener == e.listener ensures x.priority != e.priority {
      OnlyEntry(h, x);
    }
    WithoutOutsideTier(h, e.listener, e.priority);
    KeepSnoc(Without(h, e.listener), e, InTier(e.priority));
    PrependOwnTier(Without(h, e.listener), e);
  }

  lemma OnlyEntry(h: seq<Entry>, x: Entry)
    requires NoDuplicates(h) && x in h
    ensures var j := IndexOf(h, x.listener); j < |h| && h[j] == x
  {
    var k :| 0 <= k < |h| && h[k] == x;
  }

  lemma MergeInTier(es: seq<Entry>, h: seq<Entry>, e: Entry, i: nat, j: nat)
    requires NoDuplicates(es) && NoDuplicates(h)
    requires i < |es| && j < |h| && es[i] == h[j]
    requires es[i].listener == e.listener && es[i].priority == e.priority
    requires Tier(es, e.priority) == Tier(h, e.priority)
    ensures Tier(h[j := e], e.priority) == Tier(es[..i], e.priority) + [e] + Tier(es[i + 1..], e.priority)
  {
    var q, o := e.priority, es[i];
    var a, b, x, y := es[..i], es[i + 1..], h[..j], h[j + 1..];
    assert es == a + [o] + b && h == x + [o] + y && h[j := e] == x + [e] + y;
    OthersAround(a, o, b);
    OthersAround(x, o, y);
    KeepAround(a, o, b, InTier(q));
    KeepAround(x, o, y, InTier(q));
    KeepAround(x, e, y, InTier(q));
    KeepMembers(a, InTier(q));
    KeepMembers(b, InTier(q));
    KeepMembers(x, InTier(q));
    KeepMembers(y, InTier(q));
    UniqueSplit(Tier(a, q), Tier(b, q), Tier(x, q), Tier(y, q), o);
  }

  lemma ArriveStep(es: seq<Entry>, h: seq<Entry>, e: Entry)
    requires NoDuplicates(h) && es == StableSort(h)
    ensures SubscribeList(es, e) == StableSort(Arrive(h, e))
  {
    StableSortEffect(h);
    SortedNoDuplicates(h);
    SubscribePlacement(es, e);
    StableSortEffect(Arrive(h, e));
    var r, s := SubscribeList(es, e), StableSort(Arrive(h, e));
    ArriveOwnTier(es, h, e);
    forall p ensures Tier(r, p) == Tier(s, p) {
      assert Tier(es, p) == Tier(h, p);
      assert Tier(s, p) == Tier(Arrive(h, e), p);
      if p != e.priority { ArriveOtherTier(h, e, p); }
    }
    TiersDetermine(r, s);
  }

  lemma KeepSortCommute(h: seq<Entry>, f: Entry -> bool)
    ensures Keep(StableSort(h), f) == StableSort(Keep(h, f))
  {
    StableSortEffect(h);
    StableSortEffect(Keep(h, f));
    KeepSorted(StableSort(h), f);
    var r, s := Keep(StableSort(h), f), StableSort(Keep(h, f));
    forall p ensures Tier(r, p) == Tier(s, p) {
      KeepCommutes(StableSort(h), f, InTier(p));
      KeepCommutes(h, f, InTier(p));
      assert Tier(StableSort(h), p) == Tier(h, p);
      assert Tier(s, p) == Tier(Keep(h, f), p);
    }
    TiersDetermine(r, s);
  }

  /** Over every run of edits, each channel's list is the stable sort of its arrival order. */
  lemma {:induction false} ChannelIsSortedHistory(edits: seq<Edit>, channel: string)
    ensures NoDuplicates(Arrivals(channel, edits))
    ensures Get(ApplyAll(map[], edits), channel) == StableSort(Arrivals(channel, edits))
  {
    if edits != [] {
      var before, edit := edits[..|edits| - 1], edits[|edits| - 1];
      ChannelIsSortedHistory(before, channel);
      var t, h := ApplyAll(map[], before), Arrivals(channel, before);
      ApplyOnChannel(t, edit, channel);
      match edit
      case Subscribe(c, l, p, publisher) =>
        ArriveStep(Get(t, channel), h, Entry(l, p, publisher));
        ArriveMembers(h, Entry(l, p, publisher));
      case Unsubscribe(c, l) =>
        KeepSortCommute(h, Others(l));
        KeepNoDuplicates(h, Others(l));
      case Sweep(publisher) =>
        KeepSortCommute(h, NotBy(publisher));
        KeepNoDuplicates(h, NotBy(publisher));
    }
  }
}
