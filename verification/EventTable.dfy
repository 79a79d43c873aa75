// One channel's listener list, and the table of all lists, as values: stable sorting,
// merging on re-subscription, removal, the sweep by publisher.
module EventTable {
  import opened EventTypes
  import EventId

  // ----- order-preserving selection ---------------------------------------------------

  function Keep(es: seq<Entry>, f: Entry -> bool): seq<Entry> {
    if es == [] then []
    else
      var n := |es| - 1;
      Keep(es[..n], f) + (if f(es[n]) then [es[n]] else [])
  }

  function Others(l: Listener): Entry -> bool { (e: Entry) => e.listener != l }
  function InTier(p: Priority): Entry -> bool { (e: Entry) => e.priority == p }
  function Above(p: Priority): Entry -> bool { (e: Entry) => e.priority < p }
  function Below(p: Priority): Entry -> bool { (e: Entry) => e.priority > p }
  function NotBy(publisher: string): Entry -> bool { (e: Entry) => e.publisherId != publisher }

  /** The entries of priority `p`, in order. */
  function Tier(es: seq<Entry>, p: Priority): seq<Entry> { Keep(es, InTier(p)) }

  /** The list without the entries of `l`, in order. */
  function Without(es: seq<Entry>, l: Listener): seq<Entry> { Keep(es, Others(l)) }

  predicate Sorted(es: seq<Entry>) {
    forall i, j :: 0 <= i < j < |es| ==> es[i].priority <= es[j].priority
  }

  predicate NoDuplicates(es: seq<Entry>) {
    forall i, j :: 0 <= i < j < |es| ==> es[i].listener != es[j].listener
  }

  predicate Subscribed(es: seq<Entry>, l: Listener) {
    exists e :: e in es && e.listener == l
  }

  lemma {:induction false} KeepMembers(es: seq<Entry>, f: Entry -> bool)
    ensures forall e :: e in Keep(es, f) <==> e in es && f(e)
    ensures |Keep(es, f)| <= |es|
  {
    if es != [] {
      var n := |es| - 1;
      KeepMembers(es[..n], f);
      assert es == es[..n] + [es[n]];
    }
  }

  /** `x` stands somewhere before `y`. */
  ghost predicate Before(es: seq<Entry>, x: Entry, y: Entry) {
    exists i, j :: 0 <= i < j < |es| && es[i] == x && es[j] == y
  }

  lemma BeforeSnoc(es: seq<Entry>, e: Entry, x: Entry, y: Entry)
    ensures Before(es + [e], x, y) <==> Before(es, x, y) || (x in es && e == y)
  {
    var all := es + [e];
    if Before(es, x, y) {
      var i, j :| 0 <= i < j < |es| && es[i] == x && es[j] == y;
      assert all[i] == x && all[j] == y;
    }
    if x in es && e == y {
      var i :| 0 <= i < |es| && es[i] == x;
      assert all[i] == x && all[|es|] == y;
    }
  }

  /** What is kept stays in order. */
  lemma {:induction false} KeepOrder(es: seq<Entry>, f: Entry -> bool, x: Entry, y: Entry)
    ensures Before(Keep(es, f), x, y) <==> f(x) && f(y) && Before(es, x, y)
  {
    if es != [] {
      var n := |es| - 1;
      KeepOrder(es[..n], f, x, y);
      KeepMembers(es[..n], f);
      assert es == es[..n] + [es[n]];
      BeforeSnoc(es[..n], es[n], x, y);
      BeforeSnoc(Keep(es[..n], f), es[n], x, y);
      assert Keep(es, f) == if f(es[n]) then Keep(es[..n], f) + [es[n]] else Keep(es[..n], f);
    }
  }

  lemma KeepSnoc(es: seq<Entry>, e: Entry, f: Entry -> bool)
    ensures f(e) ==> Keep(es + [e], f) == Keep(es, f) + [e]
    ensures !f(e) ==> Keep(es + [e], f) == Keep(es, f)
  {
    assert (es + [e])[..|es|] == es;
  }

  lemma {:induction false} KeepConcat(a: seq<Entry>, b: seq<Entry>, f: Entry -> bool)
    ensures Keep(a + b, f) == Keep(a, f) + Keep(b, f)
  {
    if b == [] {
      assert a + b == a;
    } else {
      var n := |b| - 1;
      KeepConcat(a, b[..n], f);
      assert (a + b)[..|a + b| - 1] == a + b[..n];
    }
  }

  lemma {:induction false} KeepAll(es: seq<Entry>, f: Entry -> bool)
    requires forall e :: e in es ==> f(e)
    ensures Keep(es, f) == es
  {
    if es != [] {
      var n := |es| - 1;
      KeepAll(es[..n], f);
      assert es == es[..n] + [es[n]];
    }
  }

  lemma {:induction false} KeepNone(es: seq<Entry>, f: Entry -> bool)
    requires forall e :: e in es ==> !f(e)
    ensures Keep(es, f) == []
  {
    if es != [] { KeepNone(es[..|es| - 1], f); }
  }

  lemma {:induction false} KeepCommutes(es: seq<Entry>, f: Entry -> bool, g: Entry -> bool)
    ensures Keep(Keep(es, f), g) == Keep(Keep(es, g), f)
  {
    if es != [] {
      var n := |es| - 1;
      KeepCommutes(es[..n], f, g);
      var last := [es[n]];
      KeepConcat(Keep(es[..n], f), if f(es[n]) then last else [], g);
      KeepConcat(Keep(es[..n], g), if g(es[n]) then last else [], f);
      assert Keep(last, f) == Keep([], f) + (if f(es[n]) then last else []);
      assert Keep(last, g) == Keep([], g) + (if g(es[n]) then last else []);
    }
  }

  lemma {:induction false} KeepSorted(es: seq<Entry>, f: Entry -> bool)
    requires Sorted(es)
    ensures Sorted(Keep(es, f))
  {
    if es != [] {
      var n := |es| - 1;
      KeepSorted(es[..n], f);
      KeepMembers(es[..n], f);
      var front := Keep(es[..n], f);
      forall k | 0 <= k < |front| ensures front[k].priority <= es[n].priority {
        assert front[k] in es[..n];
      }
    }
  }

  lemma {:induction false} KeepNoDuplicates(es: seq<Entry>, f: Entry -> bool)
    requires NoDuplicates(es)
    ensures NoDuplicates(Keep(es, f))
  {
    if es != [] {
      var n := |es| - 1;
      KeepNoDuplicates(es[..n], f);
      KeepMembers(es[..n], f);
      var front := Keep(es[..n], f);
      forall k | 0 <= k < |front| ensures front[k].listener != es[n].listener {
        assert front[k] in es[..n];
      }
    }
  }

  // ----- the stable sort --------------------------------------------------------------

  /** `e` placed behind every entry that does not sort after it. */
  function InsertStable(es: seq<Entry>, e: Entry): seq<Entry> {
    if es == [] then [e]
    else
      var n := |es| - 1;
      if es[n].priority <= e.priority then es + [e] else InsertStable(es[..n], e) + [es[n]]
  }

  /** The result of std::stable_sort by ascending priority value. */
  function StableSort(es: seq<Entry>): seq<Entry> {
    if es == [] then [] else InsertStable(StableSort(es[..|es| - 1]), es[|es| - 1])
  }

  lemma {:induction false} InsertStableSorted(es: seq<Entry>, e: Entry)
    requires Sorted(es)
    ensures Sorted(InsertStable(es, e))
    ensures forall x :: x in InsertStable(es, e) <==> x in es || x == e
  {
    if es != [] && es[|es| - 1].priority > e.priority {
      var n := |es| - 1;
      InsertStableSorted(es[..n], e);
      assert es == es[..n] + [es[n]];
      var front := InsertStable(es[..n], e);
      forall k | 0 <= k < |front| ensures front[k].priority <= es[n].priority {
        assert front[k] in front;
      }
    }
  }

  lemma {:induction false} InsertStableTier(es: seq<Entry>, e: Entry, p: Priority)
    requires Sorted(es)
    ensures p == e.priority ==> Tier(InsertStable(es, e), p) == Tier(es, p) + [e]
    ensures p != e.priority ==> Tier(InsertStable(es, e), p) == Tier(es, p)
  {
    if es != [] && es[|es| - 1].priority > e.priority {
      var n := |es| - 1;
      InsertStableTier(es[..n], e, p);
      KeepSnoc(InsertStable(es[..n], e), es[n], InTier(p));
    } else {
      KeepSnoc(es, e, InTier(p));
    }
  }

  /** Stable sorting sorts, and keeps the order inside every tier. */
  lemma {:induction false} StableSortEffect(es: seq<Entry>)
    ensures Sorted(StableSort(es))
    ensures forall p :: Tier(StableSort(es), p) == Tier(es, p)
    ensures forall x :: x in StableSort(es) <==> x in es
  {
    if es != [] {
      var n := |es| - 1;
      StableSortEffect(es[..n]);
      InsertStableSorted(StableSort(es[..n]), es[n]);
      assert es == es[..n] + [es[n]];
      forall p ensures Tier(StableSort(es), p) == Tier(es, p) {
        InsertStableTier(StableSort(es[..n]), es[n], p);
        assert Tier(StableSort(es[..n]), p) == Tier(es[..n], p);
      }
    }
  }

  lemma SnocInjective(a: seq<Entry>, x: Entry, b: seq<Entry>, y: Entry)
    requires a + [x] == b + [y]
    ensures a == b && x == y
  {
    assert (a + [x])[..|a|] == a && (b + [y])[..|b|] == b;
    assert (a + [x])[|a|] == x && (b + [y])[|b|] == y;
  }

  lemma LastTier(es: seq<Entry>)
    requires es != []
    ensures var x := es[|es| - 1];
            && Tier(es, x.priority) == Tier(es[..|es| - 1], x.priority) + [x]
            && (forall p :: p != x.priority ==> Tier(es, p) == Tier(es[..|es| - 1], p))
  {
  }

  lemma TierInhabited(a: seq<Entry>, b: seq<Entry>, x: Entry)
    requires x in a && Tier(a, x.priority) == Tier(b, x.priority)
    ensures x in b
  {
    KeepMembers(a, InTier(x.priority));
    KeepMembers(b, InTier(x.priority));
  }

  /** A sorted list is determined by its tiers: the stable sort is unique. */
  lemma {:induction false} TiersDetermine(a: seq<Entry>, b: seq<Entry>)
    requires Sorted(a) && Sorted(b)
    requires forall p :: Tier(a, p) == Tier(b, p)
    ensures a == b
    decreases |a|
  {
    if a == [] || b == [] {
      if b != [] { TierInhabited(b, a, b[0]); }
      if a != [] { TierInhabited(a, b, a[0]); }
    } else {
      var m, n := |a| - 1, |b| - 1;
      LastEntries(a, b);
      TiersDetermine(a[..m], b[..n]);
      assert a == a[..m] + [a[m]] && b == b[..n] + [b[n]];
    }
  }

  ghost predicate SameTiers(a: seq<Entry>, b: seq<Entry>) {
    forall p :: Tier(a, p) == Tier(b, p)
  }

  lemma LastEntries(a: seq<Entry>, b: seq<Entry>)
    requires Sorted(a) && Sorted(b) && a != [] && b != []
    requires SameTiers(a, b)
    ensures a[|a| - 1] == b[|b| - 1]
    ensures SameTiers(a[..|a| - 1], b[..|b| - 1])
  {
    var m, n := |a| - 1, |b| - 1;
    var x, y := a[m], b[n];
    TierInhabited(a, b, x);
    TierInhabited(b, a, y);
    assert x.priority == y.priority;
    LastTier(a);
    LastTier(b);
    SnocInjective(Tier(a[..m], x.priority), x, Tier(b[..n], x.priority), y);
    forall p ensures Tier(a[..m], p) == Tier(b[..n], p) {
      assert Tier(a, p) == Tier(b, p);
    }
  }

  lemma StableSortOfSorted(es: seq<Entry>)
    requires Sorted(es)
    ensures StableSort(es) == es
  {
    StableSortEffect(es);
    TiersDetermine(StableSort(es), es);
  }

  // ----- subscribing ------------------------------------------------------------------

  /** Index of the entry of `l`, or the length when there is none. */
  function IndexOf(es: seq<Entry>, l: Listener): (i: nat)
    ensures i <= |es|
    ensures i < |es| ==> es[i].listener == l
    ensures forall k :: 0 <= k < i ==> es[k].listener != l
  {
    if es == [] then 0
    else if es[0].listener == l then 0
    else 1 + IndexOf(es[1..], l)
  }

  /** Merge or append, then sort. */
  function SubscribeList(es: seq<Entry>, e: Entry): seq<Entry> {
    var i := IndexOf(es, e.listener);
    StableSort(if i < |es| then es[i := e] else es + [e])
  }

  lemma KeepAround(a: seq<Entry>, x: Entry, b: seq<Entry>, f: Entry -> bool)
    ensures f(x) ==> Keep(a + [x] + b, f) == Keep(a, f) + [x] + Keep(b, f)
    ensures !f(x) ==> Keep(a + [x] + b, f) == Keep(a, f) + Keep(b, f)
  {
    KeepConcat(a + [x], b, f);
    KeepSnoc(a, x, f);
  }

  /** The tier a (re)subscription leaves behind: a new or promoted listener stands last, a
      demoted one first, and an unchanged priority keeps its place. */
  ghost function TierAfterSubscribe(es: seq<Entry>, e: Entry): seq<Entry> {
    var p := e.priority;
    var i := IndexOf(es, e.listener);
    if i == |es| || p < es[i].priority then Tier(es, p) + [e]
    else if es[i].priority < p then [e] + Tier(es, p)
    else Tier(es[..i], p) + [e] + Tier(es[i + 1..], p)
  }

  /** Where a subscription lands, and that nothing else moves. */
  lemma SubscribePlacement(es: seq<Entry>, e: Entry)
    requires Sorted(es) && NoDuplicates(es)
    ensures var r := SubscribeList(es, e);
            && Sorted(r) && NoDuplicates(r)
            && (forall x :: x in r <==> x == e || (x in es && x.listener != e.listener))
            && Without(r, e.listener) == Without(es, e.listener)
            && Tier(r, e.priority) == TierAfterSubscribe(es, e)
            && (forall p :: p != e.priority ==> Tier(r, p) == Without(Tier(es, p), e.listener))
  {
    var i := IndexOf(es, e.listener);
    var edited := if i < |es| then es[i := e] else es + [e];
    EditedMembers(es, e, edited);
    EditedTiers(es, e, edited);
    StableSortEffect(edited);
    OthersStay(es, edited, e.listener);
    SortedNoDuplicates(edited);
  }

  /** `edited` is `es` with the entry of `e.listener` overwritten by, or extended with, `e`. */
  ghost predicate Edited(es: seq<Entry>, e: Entry, edited: seq<Entry>) {
    var i := IndexOf(es, e.listener);
    edited == if i < |es| then es[i := e] else es + [e]
  }

  lemma EditedMembers(es: seq<Entry>, e: Entry, edited: seq<Entry>)
    requires NoDuplicates(es) && Edited(es, e, edited)
    ensures NoDuplicates(edited)
    ensures forall x :: x in edited <==> x == e || (x in es && x.listener != e.listener)
  {
    var i := IndexOf(es, e.listener);
    if i < |es| {
      forall x | x in es && x.listener != e.listener ensures x in edited {
        var k :| 0 <= k < |es| && es[k] == x;
        assert edited[k] == x;
      }
      assert edited[i] == e;
    }
  }

  lemma EditedTiers(es: seq<Entry>, e: Entry, edited: seq<Entry>)
    requires Sorted(es) && NoDuplicates(es) && Edited(es, e, edited)
    ensures Without(edited, e.listener) == Without(es, e.listener)
    ensures Tier(edited, e.priority) == TierAfterSubscribe(es, e)
    ensures forall p :: p != e.priority ==> Tier(edited, p) == Without(Tier(es, p), e.listener)
  {
    var i := IndexOf(es, e.listener);
    if i < |es| {
      UpdateTiers(es[..i], es[i], es[i + 1..], e, es, edited);
    } else {
      AppendTiers(es, e);
    }
  }

  lemma UpdateTiers(a: seq<Entry>, o: Entry, b: seq<Entry>, e: Entry, es: seq<Entry>, edited: seq<Entry>)
    requires es == a + [o] + b && edited == a + [e] + b && o.listener == e.listener
    requires Sorted(es) && NoDuplicates(es)
    ensures Without(edited, e.listener) == Without(es, e.listener)
    ensures forall p :: p != e.priority ==> Tier(edited, p) == Without(Tier(es, p), e.listener)
    ensures Tier(edited, e.priority) ==
            if e.priority < o.priority then Tier(es, e.priority) + [e]
            else if o.priority < e.priority then [e] + Tier(es, e.priority)
            else Tier(a, e.priority) + [e] + Tier(b, e.priority)
  {
    OthersAround(a, o, b);
    OwnTier(a, o, b, e);
    UpdateOthers(a, o, b, e);
  }

  lemma AppendTiers(es: seq<Entry>, e: Entry)
    requires forall x :: x in es ==> x.listener != e.listener
    ensures Without(es + [e], e.listener) == Without(es, e.listener)
    ensures Tier(es + [e], e.priority) == Tier(es, e.priority) + [e]
    ensures forall p :: p != e.priority ==> Tier(es + [e], p) == Without(Tier(es, p), e.listener)
  {
    KeepSnoc(es, e, Others(e.listener));
    KeepSnoc(es, e, InTier(e.priority));
    forall p | p != e.priority ensures Tier(es + [e], p) == Without(Tier(es, p), e.listener) {
      KeepSnoc(es, e, InTier(p));
      KeepMembers(es, InTier(p));
      KeepAll(Tier(es, p), Others(e.listener));
    }
  }

  lemma OthersAround(a: seq<Entry>, o: Entry, b: seq<Entry>)
    requires NoDuplicates(a + [o] + b)
    ensures forall x :: x in a || x in b ==> x.listener != o.listener
  {
    var es := a + [o] + b;
    assert es[|a|] == o;
    forall x | x in a ensures x.listener != o.listener {
      var k :| 0 <= k < |a| && a[k] == x;
      assert es[k] == x;
    }
    forall x | x in b ensures x.listener != o.listener {
      var k :| 0 <= k < |b| && b[k] == x;
      assert es[|a| + 1 + k] == x;
    }
  }

  lemma UpdateOthers(a: seq<Entry>, o: Entry, b: seq<Entry>, e: Entry)
    requires o.listener == e.listener
    requires forall x :: x in a || x in b ==> x.listener != o.listener
    ensures Without(a + [e] + b, e.listener) == Without(a + [o] + b, e.listener)
    ensures forall p :: p != e.priority ==> Tier(a + [e] + b, p) == Without(Tier(a + [o] + b, p), e.listener)
  {
    WithoutMiddle(a, e, b);
    WithoutMiddle(a, o, b);
    forall p | p != e.priority ensures Tier(a + [e] + b, p) == Without(Tier(a + [o] + b, p), e.listener) {
      KeepCommutes(a + [o] + b, InTier(p), Others(e.listener));
      KeepConcat(a, b, InTier(p));
      KeepAround(a, e, b, InTier(p));
      assert Tier(a, p) + [] + Tier(b, p) == Tier(a, p) + Tier(b, p);
    }
  }

  lemma WithoutMiddle(a: seq<Entry>, o: Entry, b: seq<Entry>)
    requires forall x :: x in a || x in b ==> x.listener != o.listener
    ensures Without(a + [o] + b, o.listener) == a + b
  {
    KeepAround(a, o, b, Others(o.listener));
    KeepAll(a, Others(o.listener));
    KeepAll(b, Others(o.listener));
  }

  lemma OwnTier(a: seq<Entry>, o: Entry, b: seq<Entry>, e: Entry)
    requires Sorted(a + [o] + b)
    ensures Tier(a + [e] + b, e.priority) ==
            if e.priority < o.priority then Tier(a + [o] + b, e.priority) + [e]
            else if o.priority < e.priority then [e] + Tier(a + [o] + b, e.priority)
            else Tier(a, e.priority) + [e] + Tier(b, e.priority)
  {
    var es := a + [o] + b;
    KeepAround(a, e, b, InTier(e.priority));
    KeepAround(a, o, b, InTier(e.priority));
    assert es[|a|] == o;
    if e.priority < o.priority {
      forall x | x in b ensures x.priority >= o.priority {
        var k :| 0 <= k < |b| && b[k] == x;
        assert es[|a| + 1 + k] == x;
      }
      KeepNone(b, InTier(e.priority));
    } else if o.priority < e.priority {
      forall x | x in a ensures x.priority <= o.priority {
        var k :| 0 <= k < |a| && a[k] == x;
        assert es[k] == x;
      }
      KeepNone(a, InTier(e.priority));
    }
  }

  lemma OthersStay(es: seq<Entry>, edited: seq<Entry>, l: Listener)
    requires Sorted(es) && Without(edited, l) == Without(es, l)
    ensures Without(StableSort(edited), l) == Without(es, l)
  {
    var sorted := StableSort(edited);
    StableSortEffect(edited);
    KeepSorted(es, Others(l));
    KeepSorted(sorted, Others(l));
    forall p ensures Tier(Without(sorted, l), p) == Tier(Without(es, l), p) {
      KeepCommutes(sorted, Others(l), InTier(p));
      KeepCommutes(edited, Others(l), InTier(p));
      assert Tier(sorted, p) == Tier(edited, p);
      assert Tier(Without(es, l), p) == Tier(Without(edited, l), p);
    }
    TiersDetermine(Without(sorted, l), Without(es, l));
  }

  lemma {:induction false} InsertNoDuplicates(es: seq<Entry>, e: Entry)
    requires Sorted(es) && NoDuplicates(es) && !Subscribed(es, e.listener)
    ensures NoDuplicates(InsertStable(es, e))
  {
    if es != [] && es[|es| - 1].priority > e.priority {
      var n := |es| - 1;
      InsertNoDuplicates(es[..n], e);
      InsertStableSorted(es[..n], e);
      var front := InsertStable(es[..n], e);
      forall k | 0 <= k < |front| ensures front[k].listener != es[n].listener {
        assert front[k] in front;
      }
    }
  }

  lemma {:induction false} SortedNoDuplicates(es: seq<Entry>)
    requires NoDuplicates(es)
    ensures NoDuplicates(StableSort(es))
  {
    if es != [] {
      var n := |es| - 1;
      SortedNoDuplicates(es[..n]);
      StableSortEffect(es[..n]);
      InsertNoDuplicates(StableSort(es[..n]), es[n]);
    }
  }

  // ----- the table --------------------------------------------------------------------

  type Table = map<string, seq<Entry>>

  /** The list of a channel; an absent channel has no listeners. */
  function Get(t: Table, channel: string): seq<Entry> {
    if channel in t then t[channel] else []
  }

  /** A list stored back; an empty list erases its channel. */
  function Put(t: Table, channel: string, es: seq<Entry>): Table {
    if es == [] then t - {channel} else t[channel := es]
  }

  predicate Accepted(channel: string, l: Listener) {
    l != NoListener && EventId.IsEventId(channel)
  }

  function SubscribeTable(t: Table, channel: string, e: Entry): Table {
    if Accepted(channel, e.listener) then t[channel := SubscribeList(Get(t, channel), e)] else t
  }

  function UnsubscribeTable(t: Table, channel: string, l: Listener): Table {
    if channel in t then Put(t, channel, Without(t[channel], l)) else t
  }

  function SweepTable(t: Table, publisher: string): Table {
    map c | c in t && Keep(t[c], NotBy(publisher)) != [] :: Keep(t[c], NotBy(publisher))
  }

  function Apply(t: Table, edit: Edit): Table {
    match edit
    case Subscribe(c, l, p, publisher) => SubscribeTable(t, c, Entry(l, p, publisher))
    case Unsubscribe(c, l) => UnsubscribeTable(t, c, l)
    case Sweep(publisher) => SweepTable(t, publisher)
  }

  function ApplyAll(t: Table, edits: seq<Edit>): Table {
    if edits == [] then t else Apply(ApplyAll(t, edits[..|edits| - 1]), edits[|edits| - 1])
  }

  lemma {:induction false} ApplyAllConcat(t: Table, x: seq<Edit>, y: seq<Edit>)
    ensures ApplyAll(t, x + y) == ApplyAll(ApplyAll(t, x), y)
  {
    if y == [] {
      assert x + y == x;
    } else {
      var n := |y| - 1;
      ApplyAllConcat(t, x, y[..n]);
      assert (x + y)[..|x + y| - 1] == x + y[..n];
    }
  }

  predicate ValidList(es: seq<Entry>) {
    Sorted(es) && NoDuplicates(es) && forall e :: e in es ==> e.listener != NoListener
  }

  /** Every list is non-empty, sorted by priority and free of duplicate and null listeners. */
  predicate ValidTable(t: Table) {
    forall c :: c in t ==> EventId.IsEventId(c) && t[c] != [] && ValidList(t[c])
  }

  lemma KeepValid(es: seq<Entry>, f: Entry -> bool)
    requires ValidList(es)
    ensures ValidList(Keep(es, f))
  {
    KeepSorted(es, f);
    KeepNoDuplicates(es, f);
    KeepMembers(es, f);
  }

  lemma SubscribeListValid(es: seq<Entry>, e: Entry)
    requires ValidList(es) && e.listener != NoListener
    ensures ValidList(SubscribeList(es, e)) && SubscribeList(es, e) != []
  {
    SubscribePlacement(es, e);
    assert e in SubscribeList(es, e);
  }

  lemma SubscribeKeepsValid(t: Table, c: string, e: Entry)
    requires ValidTable(t)
    ensures ValidTable(SubscribeTable(t, c, e))
  {
    if Accepted(c, e.listener) {
      SubscribeListValid(Get(t, c), e);
    }
  }

  lemma UnsubscribeKeepsValid(t: Table, c: string, l: Listener)
    requires ValidTable(t)
    ensures ValidTable(UnsubscribeTable(t, c, l))
  {
    if c in t { KeepValid(t[c], Others(l)); }
  }

  lemma SweepKeepsValid(t: Table, publisher: string)
    requires ValidTable(t)
    ensures ValidTable(SweepTable(t, publisher))
  {
    forall c | c in t ensures ValidList(Keep(t[c], NotBy(publisher))) {
      KeepValid(t[c], NotBy(publisher));
    }
  }

  lemma ApplyKeepsValid(t: Table, edit: Edit)
    requires ValidTable(t)
    ensures ValidTable(Apply(t, edit))
  {
    match edit
    case Subscribe(c, l, p, publisher) => SubscribeKeepsValid(t, c, Entry(l, p, publisher));
    case Unsubscribe(c, l) => UnsubscribeKeepsValid(t, c, l);
    case Sweep(publisher) => SweepKeepsValid(t, publisher);
  }

  lemma {:induction false} ApplyAllKeepsValid(t: Table, edits: seq<Edit>)
    requires ValidTable(t)
    ensures ValidTable(ApplyAll(t, edits))
  {
    if edits != [] {
      ApplyAllKeepsValid(t, edits[..|edits| - 1]);
      ApplyKeepsValid(ApplyAll(t, edits[..|edits| - 1]), edits[|edits| - 1]);
    }
  }

  /** The effect of one edit on the list of one channel. */
  function ApplyList(es: seq<Entry>, channel: string, edit: Edit): seq<Entry> {
    match edit
    case Subscribe(c, l, p, publisher) =>
      if c == channel && Accepted(c, l) then SubscribeList(es, Entry(l, p, publisher)) else es
    case Unsubscribe(c, l) => if c == channel then Without(es, l) else es
    case Sweep(publisher) => Keep(es, NotBy(publisher))
  }

  lemma ApplyOnChannel(t: Table, edit: Edit, channel: string)
    ensures Get(Apply(t, edit), channel) == ApplyList(Get(t, channel), channel, edit)
  {
  }

  /** Off a channel goes exactly that listener; the others stay in order, and other channels as they are. */
  lemma UnsubscribeEffect(t: Table, channel: string, l: Listener, c: string)
    ensures var r := UnsubscribeTable(t, channel, l);
            && (c != channel ==> Get(r, c) == Get(t, c))
            && (forall e :: e in Get(r, channel) <==> e in Get(t, channel) && e.listener != l)
            && forall x, y :: Before(Get(r, channel), x, y) <==>
                              x.listener != l && y.listener != l && Before(Get(t, channel), x, y)
  {
    var es := Get(t, channel);
    KeepMembers(es, Others(l));
    forall x, y
      ensures Before(Without(es, l), x, y) <==> x.listener != l && y.listener != l && Before(es, x, y)
    {
      KeepOrder(es, Others(l), x, y);
    }
  }

  /** The entry of the subscription beside those of all other listeners. */
  ghost predicate JoinedBy(es: seq<Entry>, joined: seq<Entry>, e: Entry) {
    forall x :: x in joined <==> x == e || (x in es && x.listener != e.listener)
  }

  /** A subscription puts the listener on its channel once, with this priority and publisher, beside the
      others; a refused one changes nothing, and other channels stay as they are. */
  lemma SubscribeEffect(t: Table, channel: string, l: Listener, p: Priority, publisher: string, c: string)
    requires ValidTable(t)
    ensures var r := Apply(t, Subscribe(channel, l, p, publisher));
            if c != channel || l == NoListener || !EventId.IsEventId(channel) then Get(r, c) == Get(t, c)
            else JoinedBy(Get(t, c), Get(r, c), Entry(l, p, publisher))
  {
    JoinsList(Get(t, channel), Entry(l, p, publisher));
  }

  lemma JoinsList(es: seq<Entry>, e: Entry)
    requires Sorted(es) && NoDuplicates(es)
    ensures JoinedBy(es, SubscribeList(es, e), e)
  {
    SubscribePlacement(es, e);
  }

  /** Exactly the entries that are not of this publisher, in their old order. */
  ghost predicate OthersOf(es: seq<Entry>, left: seq<Entry>, publisher: string) {
    && (forall e :: e in left <==> e in es && e.publisherId != publisher)
    && (forall x, y :: Before(left, x, y) <==>
                       x.publisherId != publisher && y.publisherId != publisher && Before(es, x, y))
  }

  /** The sweep takes exactly the publisher's entries off every channel; the others stay in order. */
  lemma SweepEffect(t: Table, publisher: string, c: string)
    ensures OthersOf(Get(t, c), Get(SweepTable(t, publisher), c), publisher)
  {
    var es, left := Get(t, c), Keep(Get(t, c), NotBy(publisher));
    KeepMembers(es, NotBy(publisher));
    forall x, y
      ensures Before(left, x, y) <==> x.publisherId != publisher && y.publisherId != publisher && Before(es, x, y)
    {
      KeepOrder(es, NotBy(publisher), x, y);
    }
    assert Get(SweepTable(t, publisher), c) == left;
  }

  // ----- counting ---------------------------------------------------------------------

  /** The number of entries over all channels. */
  ghost function Total(t: Table): nat {
    if t == map[] then 0
    else var c :| c in t; |t[c]| + Total(t - {c})
  }

  /** The count does not depend on the order in which channels are visited. */
  lemma {:induction false} TotalSplit(t: Table, c: string)
    requires c in t
    ensures Total(t) == |t[c]| + Total(t - {c})
  {
    var d :| d in t && Total(t) == |t[d]| + Total(t - {d});
    if d != c {
      TotalSplit(t - {d}, c);
      TotalSplit(t - {c}, d);
      assert t - {d} - {c} == t - {c} - {d};
    }
  }

  lemma TotalPut(t: Table, c: string, es: seq<Entry>)
    ensures Total(Put(t, c, es)) + |Get(t, c)| == Total(t) + |es|
  {
    if c in t { TotalSplit(t, c); } else { assert t - {c} == t; }
    if es != [] {
      TotalSplit(t[c := es], c);
      assert t[c := es] - {c} == t - {c};
    }
  }

  /** Nothing is counted exactly when there is nothing. */
  lemma {:induction false} TotalZeroIff(t: Table)
    ensures Total(t) == 0 <==> forall c :: c in t ==> t[c] == []
    decreases |t|
  {
    if t != map[] {
      var c :| c in t;
      TotalSplit(t, c);
      TotalZeroIff(t - {c});
      assert forall d :: d in t ==> d == c || (d in t - {c} && (t - {c})[d] == t[d]);
    }
  }

  /** Where the entries of a publisher stand, by channel and row. */
  ghost function Places(t: Table, publisher: string, channels: set<string>): set<(string, nat)> {
    set c, i: nat | c in channels && c in t && i < |t[c]| && t[c][i].publisherId == publisher :: (c, i)
  }

  ghost function Rows(c: string, es: seq<Entry>, publisher: string): set<(string, nat)> {
    set i: nat | i < |es| && es[i].publisherId == publisher :: (c, i)
  }

  lemma {:induction false} RowsCount(c: string, es: seq<Entry>, publisher: string)
    ensures |Rows(c, es, publisher)| + |Keep(es, NotBy(publisher))| == |es|
  {
    if es != [] {
      var n := |es| - 1;
      RowsCount(c, es[..n], publisher);
      var front := Rows(c, es[..n], publisher);
      assert Rows(c, es, publisher) == front + if es[n].publisherId == publisher then {(c, n)} else {};
    }
  }

  lemma PlacesMore(t: Table, publisher: string, channels: set<string>, c: string)
    requires c in t && c !in channels
    ensures |Places(t, publisher, channels + {c})| == |Places(t, publisher, channels)| + |Rows(c, t[c], publisher)|
  {
    var before, rows := Places(t, publisher, channels), Rows(c, t[c], publisher);
    assert Places(t, publisher, channels + {c}) == before + rows;
    assert before !! rows;
  }
}
