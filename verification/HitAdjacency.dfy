// The two hit adapters of a session stay next to each other on the hit channel.
module HitAdjacency {
  import opened EventTypes
  import opened EventTable
  import opened Text
  import EventId

  const HIT: string := "pet.instance.hit"

  function Mounted(s: nat): Entry { Entry(MountedBehavior(s), LOWEST, HOST) }
  function Fallback(s: nat): Entry { Entry(InteractionFallback(s), LOWEST, HOST) }

  /** Taking both adapters of a session off the channel. */
  function UnbindEdits(s: nat): seq<Edit> {
    [Unsubscribe(HIT, MountedBehavior(s)), Unsubscribe(HIT, InteractionFallback(s))]
  }

  /** Putting both on, the voice-pack adapter first: binding a session that had no bus. */
  function AddEdits(s: nat): seq<Edit> {
    [Subscribe(HIT, MountedBehavior(s), LOWEST, HOST), Subscribe(HIT, InteractionFallback(s), LOWEST, HOST)]
  }

  /** Rebinding a session to its bus: off the channel first, then on again. */
  function BindEdits(s: nat): seq<Edit> { UnbindEdits(s) + AddEdits(s) }

  /** The edit names no adapter of session `s`; a sweep may name any publisher. */
  predicate Avoids(edit: Edit, s: nat) {
    match edit
    case Subscribe(_, l, _, _) => l != MountedBehavior(s) && l != InteractionFallback(s)
    case Unsubscribe(_, l) => l != MountedBehavior(s) && l != InteractionFallback(s)
    case Sweep(_) => true
  }

  /** The edit names no adapter at all. */
  predicate Foreign(edit: Edit) {
    match edit
    case Subscribe(_, l, _, _) => l.Plugin? || l.NoListener?
    case Unsubscribe(_, l) => l.Plugin? || l.NoListener?
    case Sweep(_) => true
  }

  /** What may happen to the table: any edits of other listeners, or a session being (un)bound. */
  ghost predicate Allowed(edits: seq<Edit>) {
    || (forall i :: 0 <= i < |edits| ==> Foreign(edits[i]))
    || (exists s :: edits == AddEdits(s))
    || (exists s :: edits == BindEdits(s))
    || (exists s :: edits == UnbindEdits(s))
  }

  predicate AdjacentAt(es: seq<Entry>, a: Entry, b: Entry, i: nat) {
    i + 1 < |es| && es[i] == a && es[i + 1] == b
  }

  ghost predicate Adjacent(es: seq<Entry>, a: Entry, b: Entry) {
    exists i: nat :: AdjacentAt(es, a, b, i)
  }

  predicate Absent(es: seq<Entry>, s: nat) {
    !Subscribed(es, MountedBehavior(s)) && !Subscribed(es, InteractionFallback(s))
  }

  /** Both adapters of the session are subscribed, adjacent and in order, or neither is. */
  ghost predicate Paired(es: seq<Entry>, s: nat) {
    Absent(es, s) || Adjacent(es, Mounted(s), Fallback(s))
  }

  ghost predicate AllPaired(t: Table) {
    ValidTable(t) && forall s :: Paired(Get(t, HIT), s)
  }

  // ----- adjacency under the list operations -------------------------------------------

  lemma AdjacentMiddle(x: seq<Entry>, a: Entry, b: Entry, y: seq<Entry>)
    ensures Adjacent(x + [a, b] + y, a, b)
  {
    assert AdjacentAt(x + [a, b] + y, a, b, |x|);
  }

  lemma AdjacentInside(x: seq<Entry>, es: seq<Entry>, y: seq<Entry>, a: Entry, b: Entry)
    requires Adjacent(es, a, b)
    ensures Adjacent(x + es + y, a, b)
  {
    var i: nat :| AdjacentAt(es, a, b, i);
    assert AdjacentAt(x + es + y, a, b, |x| + i);
  }

  lemma KeepAdjacent(es: seq<Entry>, a: Entry, b: Entry, f: Entry -> bool)
    requires Adjacent(es, a, b) && f(a) && f(b)
    ensures Adjacent(Keep(es, f), a, b)
  {
    var i: nat :| AdjacentAt(es, a, b, i);
    var x, y := es[..i], es[i + 2..];
    assert es == x + [a, b] + y;
    KeepConcat(x + [a, b], y, f);
    KeepConcat(x, [a, b], f);
    KeepAll([a, b], f);
    AdjacentMiddle(Keep(x, f), a, b, Keep(y, f));
  }

  /** A tier of a sorted list is one contiguous block. */
  lemma {:induction false} TierIsBlock(es: seq<Entry>, p: Priority)
    requires Sorted(es)
    ensures es == Keep(es, Above(p)) + Tier(es, p) + Keep(es, Below(p))
  {
    if es != [] {
      var n := |es| - 1;
      TierIsBlock(es[..n], p);
      assert es == es[..n] + [es[n]];
      BlockSnoc(es[..n], es[n], p);
    }
  }

  lemma BlockSnoc(front: seq<Entry>, x: Entry, p: Priority)
    requires front == Keep(front, Above(p)) + Tier(front, p) + Keep(front, Below(p))
    requires forall i :: 0 <= i < |front| ==> front[i].priority <= x.priority
    ensures front + [x] == Keep(front + [x], Above(p)) + Tier(front + [x], p) + Keep(front + [x], Below(p))
  {
    KeepSnoc(front, x, Above(p));
    KeepSnoc(front, x, InTier(p));
    KeepSnoc(front, x, Below(p));
    if x.priority <= p { KeepNone(front, Below(p)); }
    if x.priority < p { KeepNone(front, InTier(p)); }
    BlockEnd(front, Keep(front, Above(p)), Tier(front, p), Keep(front, Below(p)), x);
  }

  /** Where an element at the end belongs, when the blocks after its own are empty. */
  lemma BlockEnd(whole: seq<Entry>, a: seq<Entry>, t: seq<Entry>, b: seq<Entry>, x: Entry)
    requires whole == a + t + b
    ensures whole + [x] == a + t + (b + [x])
    ensures b == [] ==> whole + [x] == a + (t + [x]) + b
    ensures b == [] && t == [] ==> whole + [x] == (a + [x]) + t + b
  {
  }

  lemma TierAdjacent(es: seq<Entry>, a: Entry, b: Entry, p: Priority)
    requires Sorted(es) && Adjacent(Tier(es, p), a, b)
    ensures Adjacent(es, a, b)
  {
    TierIsBlock(es, p);
    AdjacentInside(Keep(es, Above(p)), Tier(es, p), Keep(es, Below(p)), a, b);
  }

  lemma AdjacentExtended(es: seq<Entry>, e: Entry, a: Entry, b: Entry)
    requires Adjacent(es, a, b)
    ensures Adjacent(es + [e], a, b) && Adjacent([e] + es, a, b)
  {
    var i: nat :| AdjacentAt(es, a, b, i);
    assert AdjacentAt(es + [e], a, b, i);
    assert AdjacentAt([e] + es, a, b, i + 1);
  }

  /** A merge that keeps the priority keeps every position. */
  lemma MergeAdjacent(es: seq<Entry>, e: Entry, a: Entry, b: Entry, i: nat)
    requires Sorted(es) && Adjacent(es, a, b) && i == IndexOf(es, e.listener) < |es|
    requires es[i].priority == e.priority && e.listener != a.listener && e.listener != b.listener
    ensures Adjacent(SubscribeList(es, e), a, b)
  {
    StableSortOfSorted(es[i := e]);
    var k: nat :| AdjacentAt(es, a, b, k);
    assert AdjacentAt(es[i := e], a, b, k);
  }

  /** No subscription of another listener lands between two neighbours of one tier. */
  lemma SubscribeAdjacent(es: seq<Entry>, e: Entry, a: Entry, b: Entry)
    requires Sorted(es) && NoDuplicates(es) && Adjacent(es, a, b)
    requires a.priority == b.priority && e.listener != a.listener && e.listener != b.listener
    ensures Adjacent(SubscribeList(es, e), a, b)
  {
    var p, i := a.priority, IndexOf(es, e.listener);
    if e.priority == p && i < |es| && es[i].priority == p {
      MergeAdjacent(es, e, a, b, i);
    } else {
      var r, tier := SubscribeList(es, e), Tier(es, p);
      SubscribePlacement(es, e);
      KeepAdjacent(es, a, b, InTier(p));
      if e.priority == p {
        AdjacentExtended(tier, e, a, b);
        assert Tier(r, p) == tier + [e] || Tier(r, p) == [e] + tier;
      } else {
        KeepAdjacent(tier, a, b, Others(e.listener));
        assert Tier(r, p) == Without(tier, e.listener);
      }
      TierAdjacent(r, a, b, p);
    }
  }

  lemma AbsentAfterKeep(es: seq<Entry>, s: nat, f: Entry -> bool)
    requires Absent(es, s)
    ensures Absent(Keep(es, f), s)
  {
    KeepMembers(es, f);
  }

  /** A sweep by the pair's own publisher takes both, any other publisher's takes neither. */
  lemma SweepPaired(es: seq<Entry>, s: nat, publisher: string)
    requires NoDuplicates(es) && Paired(es, s)
    ensures Paired(Keep(es, NotBy(publisher)), s)
  {
    if Absent(es, s) {
      AbsentAfterKeep(es, s, NotBy(publisher));
    } else if publisher != HOST {
      KeepAdjacent(es, Mounted(s), Fallback(s), NotBy(publisher));
    } else {
      KeepMembers(es, NotBy(publisher));
      var i: nat :| AdjacentAt(es, Mounted(s), Fallback(s), i);
      forall x | x in es && (x.listener == MountedBehavior(s) || x.listener == InteractionFallback(s))
        ensures x.publisherId == HOST
      {
        var k :| 0 <= k < |es| && es[k] == x;
        assert k == i || k == i + 1;
      }
    }
  }

  /** Edits that name neither adapter of `s` keep the pair of `s` together. */
  lemma AvoidingKeepsPaired(es: seq<Entry>, edit: Edit, s: nat)
    requires ValidList(es) && Paired(es, s) && Avoids(edit, s)
    ensures Paired(ApplyList(es, HIT, edit), s)
  {
    match edit
    case Subscribe(c, l, p, publisher) =>
      if c == HIT && Accepted(c, l) {
        var e := Entry(l, p, publisher);
        SubscribePlacement(es, e);
        if !Absent(es, s) {
          SubscribeAdjacent(es, e, Mounted(s), Fallback(s));
        }
      }
    case Unsubscribe(c, l) =>
      if Absent(es, s) {
        AbsentAfterKeep(es, s, Others(l));
      } else if c == HIT {
        KeepAdjacent(es, Mounted(s), Fallback(s), Others(l));
      }
    case Sweep(publisher) => SweepPaired(es, s, publisher);
  }

  // ----- whole groups of edits ---------------------------------------------------------

  lemma {:induction false} AvoidingRun(t: Table, edits: seq<Edit>, s: nat)
    requires ValidTable(t) && Paired(Get(t, HIT), s)
    requires forall i :: 0 <= i < |edits| ==> Avoids(edits[i], s)
    ensures Paired(Get(ApplyAll(t, edits), HIT), s)
  {
    if edits != [] {
      var n := |edits| - 1;
      AvoidingRun(t, edits[..n], s);
      ApplyAllKeepsValid(t, edits[..n]);
      ApplyOnChannel(ApplyAll(t, edits[..n]), edits[n], HIT);
      AvoidingKeepsPaired(Get(ApplyAll(t, edits[..n]), HIT), edits[n], s);
    }
  }

  lemma ApplyTwo(t: Table, a: Edit, b: Edit)
    ensures ApplyAll(t, [a, b]) == Apply(Apply(t, a), b)
  {
    assert [a, b][..1] == [a] && [a][..0] == [];
    assert ApplyAll(t, [a]) == Apply(ApplyAll(t, []), a);
  }

  lemma UnbindRemoves(t: Table, s: nat)
    ensures Absent(Get(ApplyAll(t, UnbindEdits(s)), HIT), s)
  {
    var a, b := Unsubscribe(HIT, MountedBehavior(s)), Unsubscribe(HIT, InteractionFallback(s));
    ApplyTwo(t, a, b);
    ApplyOnChannel(t, a, HIT);
    ApplyOnChannel(Apply(t, a), b, HIT);
    var es := Get(t, HIT);
    var one := Without(es, MountedBehavior(s));
    KeepMembers(es, Others(MountedBehavior(s)));
    KeepMembers(one, Others(InteractionFallback(s)));
    assert Get(Apply(Apply(t, a), b), HIT) == Without(one, InteractionFallback(s));
  }

  lemma HitIsEventId()
    ensures EventId.IsEventId(HIT)
  {
    JoinThree("pet", "instance", "hit", EventId.DOT);
    SplitOfJoin(["pet", "instance", "hit"], EventId.DOT);
    assert "pet" + "." + "instance" + "." + "hit" == HIT;
  }

  lemma SubscribeNew(es: seq<Entry>, e: Entry)
    requires Sorted(es) && NoDuplicates(es) && !Subscribed(es, e.listener)
    ensures var r := SubscribeList(es, e);
            Sorted(r) && NoDuplicates(r) && Tier(r, e.priority) == Tier(es, e.priority) + [e]
  {
    var i := IndexOf(es, e.listener);
    if i < |es| {
      assert es[i] in es && es[i].listener == e.listener;
      assert Subscribed(es, e.listener);
    }
    SubscribePlacement(es, e);
  }

  lemma StillAbsent(es: seq<Entry>, e: Entry, l: Listener)
    requires Sorted(es) && NoDuplicates(es) && !Subscribed(es, l) && e.listener != l
    ensures !Subscribed(SubscribeList(es, e), l)
  {
    SubscribePlacement(es, e);
  }

  lemma TwoAtEnd(tier: seq<Entry>, a: Entry, b: Entry)
    ensures Adjacent(tier + [a] + [b], a, b)
  {
    AdjacentMiddle(tier, a, b, []);
    assert tier + [a] + [b] == tier + [a, b] + [];
  }

  /** Two new listeners subscribed to one tier in a row end up adjacent. */
  lemma SubscribeBoth(es: seq<Entry>, a: Entry, b: Entry)
    requires Sorted(es) && NoDuplicates(es) && a.priority == b.priority && a.listener != b.listener
    requires !Subscribed(es, a.listener) && !Subscribed(es, b.listener)
    ensures Adjacent(SubscribeList(SubscribeList(es, a), b), a, b)
  {
    var p, one := a.priority, SubscribeList(es, a);
    SubscribeNew(es, a);
    StillAbsent(es, a, b.listener);
    SubscribeNew(one, b);
    TwoAtEnd(Tier(es, p), a, b);
    TierAdjacent(SubscribeList(one, b), a, b, p);
  }

  /** Subscribing an entry that is there already changes nothing. */
  lemma SubscribeAgain(es: seq<Entry>, e: Entry, k: nat)
    requires Sorted(es) && NoDuplicates(es) && k < |es| && es[k] == e
    ensures SubscribeList(es, e) == es
  {
    var i := IndexOf(es, e.listener);
    assert i == k;
    assert es[i := e] == es;
    StableSortOfSorted(es);
  }

  lemma SubscribeBothAgain(es: seq<Entry>, a: Entry, b: Entry)
    requires Sorted(es) && NoDuplicates(es) && Adjacent(es, a, b)
    ensures SubscribeList(SubscribeList(es, a), b) == es
  {
    var i: nat :| AdjacentAt(es, a, b, i);
    SubscribeAgain(es, a, i);
    SubscribeAgain(es, b, i + 1);
  }

  /** Binding a session that has no bus puts its two adapters next to each other, also when they were
      on the channel already. */
  lemma AddPairs(t: Table, s: nat)
    requires ValidTable(t) && Paired(Get(t, HIT), s)
    ensures Adjacent(Get(ApplyAll(t, AddEdits(s)), HIT), Mounted(s), Fallback(s))
  {
    HitIsEventId();
    var a, b := AddEdits(s)[0], AddEdits(s)[1];
    ApplyTwo(t, a, b);
    ApplyOnChannel(t, a, HIT);
    ApplyOnChannel(Apply(t, a), b, HIT);
    if Absent(Get(t, HIT), s) {
      SubscribeBoth(Get(t, HIT), Mounted(s), Fallback(s));
    } else {
      SubscribeBothAgain(Get(t, HIT), Mounted(s), Fallback(s));
    }
  }

  /** Rebinding a session puts its two adapters next to each other, whatever was there before. */
  lemma BindPairs(t: Table, s: nat)
    requires ValidTable(t)
    ensures Adjacent(Get(ApplyAll(t, BindEdits(s)), HIT), Mounted(s), Fallback(s))
  {
    ApplyAllConcat(t, UnbindEdits(s), AddEdits(s));
    ApplyAllKeepsValid(t, UnbindEdits(s));
    UnbindRemoves(t, s);
    AddPairs(ApplyAll(t, UnbindEdits(s)), s);
  }

  lemma GroupAvoids(edits: seq<Edit>, r: nat, s: nat)
    requires r != s && (edits == AddEdits(r) || edits == BindEdits(r) || edits == UnbindEdits(r))
    ensures forall i :: 0 <= i < |edits| ==> Avoids(edits[i], s)
  {
    assert forall i :: 0 <= i < |UnbindEdits(r)| ==> Avoids(UnbindEdits(r)[i], s);
    assert forall i :: 0 <= i < |AddEdits(r)| ==> Avoids(AddEdits(r)[i], s);
  }

  lemma GroupPairs(t: Table, edits: seq<Edit>, r: nat)
    requires AllPaired(t) && (edits == AddEdits(r) || edits == BindEdits(r) || edits == UnbindEdits(r))
    ensures Paired(Get(ApplyAll(t, edits), HIT), r)
  {
    if edits == AddEdits(r) {
      AddPairs(t, r);
    } else if edits == BindEdits(r) {
      BindPairs(t, r);
    } else {
      UnbindRemoves(t, r);
    }
  }

  /** Adjacency of every bound session's pair survives every allowed group of edits. */
  lemma AllowedKeepsPaired(t: Table, edits: seq<Edit>)
    requires AllPaired(t) && Allowed(edits)
    ensures AllPaired(ApplyAll(t, edits))
  {
    ApplyAllKeepsValid(t, edits);
    forall s ensures Paired(Get(ApplyAll(t, edits), HIT), s) {
      if forall i :: 0 <= i < |edits| ==> Avoids(edits[i], s) {
        AvoidingRun(t, edits, s);
      } else {
        var r :| edits == AddEdits(r) || edits == BindEdits(r) || edits == UnbindEdits(r);
        if r != s { GroupAvoids(edits, r, s); }
        GroupPairs(t, edits, r);
      }
    }
  }
}
