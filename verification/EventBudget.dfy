// Feedback is bounded: a finite set of listeners that each publish a bounded number of events
// per call makes a bounded number of calls, however they subscribe each other meanwhile.
module EventBudget {
  import opened EventTypes
  import opened EventTable
  import opened EventDispatch

  /** With `n` listeners and `p` nested publishes per call, the most calls one publish entered at
      depth `d` can cause. */
  function Bound(n: nat, p: nat, d: nat): nat
    decreases MAX_PUBLISH_DEPTH - d
  {
    if d >= MAX_PUBLISH_DEPTH then 0 else n * (1 + p * Bound(n, p, d + 1))
  }

  /** The most calls one listener call at depth `d` accounts for, itself included. */
  function PerCall(n: nat, p: nat, d: nat): nat {
    1 + p * Bound(n, p, d)
  }

  /** At most `p` publishes on every path of the script. */
  predicate AtMost(script: Script, p: nat) {
    match script
    case Return => true
    case Throw => true
    case SetCancelled(_, rest) => AtMost(rest, p)
    case Edits(_, rest) => AtMost(rest, p)
    case Act(_, rest) => AtMost(rest, p)
    case Publish(_, a, c, r) => p > 0 && AtMost(a, p - 1) && AtMost(c, p - 1) && AtMost(r, p - 1)
  }

  predicate Among(edits: seq<Edit>, listeners: set<Listener>) {
    forall i :: 0 <= i < |edits| && edits[i].Subscribe? ==> edits[i].listener in listeners
  }

  /** Only `listeners` are ever subscribed, and each call publishes at most `p` events. */
  ghost predicate Tame(on: Listeners, listeners: set<Listener>, p: nat) {
    && (forall notes, l, ev :: AtMost(on(notes, l, ev), p))
    && AllOnlyEdits(on, (edits: seq<Edit>) => Among(edits, listeners))
  }

  predicate ListAmong(es: seq<Entry>, listeners: set<Listener>) {
    forall i :: 0 <= i < |es| ==> es[i].listener in listeners
  }

  predicate TableAmong(t: Table, listeners: set<Listener>) {
    ValidTable(t) && forall c :: c in t ==> ListAmong(t[c], listeners)
  }

  function Calls(notes: seq<Note>): nat {
    if notes == [] then 0
    else Calls(notes[..|notes| - 1]) + (if notes[|notes| - 1].Called? then 1 else 0)
  }

  lemma {:induction false} CallsConcat(a: seq<Note>, b: seq<Note>)
    ensures Calls(a + b) == Calls(a) + Calls(b)
  {
    if b == [] {
      assert a + b == a;
    } else {
      CallsConcat(a, b[..|b| - 1]);
      assert (a + b)[..|a + b| - 1] == a + b[..|b| - 1];
    }
  }

  lemma CallsSince(a: seq<Note>, b: seq<Note>, c: seq<Note>)
    requires a <= b <= c
    ensures Calls(Since(a, c)) == Calls(Since(a, b)) + Calls(Since(b, c))
  {
    assert Since(a, c) == Since(a, b) + Since(b, c);
    CallsConcat(Since(a, b), Since(b, c));
  }

  lemma CallsNoted(before: seq<Note>, note: Note, after: seq<Note>)
    requires before + [note] <= after
    ensures Calls(Since(before, after)) ==
            (if note.Called? then 1 else 0) + Calls(Since(before + [note], after))
  {
    CallsSince(before, before + [note], after);
    assert Since(before, before + [note]) == [note];
    assert [note][..0] == [];
  }

  /** Without duplicates, a list is no longer than the set its listeners come from. */
  lemma {:induction false} ListFits(es: seq<Entry>, listeners: set<Listener>)
    requires NoDuplicates(es) && ListAmong(es, listeners)
    ensures |es| <= |listeners|
  {
    if es != [] {
      var n := |es| - 1;
      ListFits(es[..n], listeners - {es[n].listener});
    }
  }

  lemma ApplyAmong(t: Table, edit: Edit, listeners: set<Listener>)
    requires TableAmong(t, listeners) && (edit.Subscribe? ==> edit.listener in listeners)
    ensures TableAmong(Apply(t, edit), listeners)
  {
    ApplyKeepsValid(t, edit);
    forall c | c in Apply(t, edit) ensures ListAmong(Apply(t, edit)[c], listeners) {
      ApplyOnChannel(t, edit, c);
      ApplyListAmong(Get(t, c), c, edit, listeners);
    }
  }

  lemma ApplyListAmong(es: seq<Entry>, channel: string, edit: Edit, listeners: set<Listener>)
    requires ValidList(es) && ListAmong(es, listeners) && (edit.Subscribe? ==> edit.listener in listeners)
    ensures ListAmong(ApplyList(es, channel, edit), listeners)
  {
    var r := ApplyList(es, channel, edit);
    match edit {
      case Subscribe(c, l, p, publisher) => SubscribePlacement(es, Entry(l, p, publisher));
      case Unsubscribe(c, l) => KeepMembers(es, Others(l));
      case Sweep(publisher) => KeepMembers(es, NotBy(publisher));
    }
    forall i | 0 <= i < |r| ensures r[i].listener in listeners {
      assert r[i] in r;
    }
  }

  lemma {:induction false} ApplyAllAmong(t: Table, edits: seq<Edit>, listeners: set<Listener>)
    requires TableAmong(t, listeners) && Among(edits, listeners)
    ensures TableAmong(ApplyAll(t, edits), listeners)
  {
    if edits != [] {
      var n := |edits| - 1;
      ApplyAllAmong(t, edits[..n], listeners);
      ApplyAmong(ApplyAll(t, edits[..n]), edits[n], listeners);
    }
  }

  lemma AmongIsClosed(listeners: set<Listener>)
    ensures Closed((t: Table) => TableAmong(t, listeners), (edits: seq<Edit>) => Among(edits, listeners))
  {
    forall t, edits | TableAmong(t, listeners) && Among(edits, listeners)
      ensures TableAmong(ApplyAll(t, edits), listeners)
    {
      ApplyAllAmong(t, edits, listeners);
    }
  }

  lemma DispatchAmong(on: Listeners, b: Bus, ev: Event, listeners: set<Listener>, p: nat)
    requires Tame(on, listeners, p) && TableAmong(b.table, listeners)
    ensures TableAmong(Dispatch(on, b, ev).bus.table, listeners)
  {
    AmongIsClosed(listeners);
    DispatchKeeps(on, b, ev, (t: Table) => TableAmong(t, listeners), (edits: seq<Edit>) => Among(edits, listeners));
  }

  lemma DeliverOneAmong(on: Listeners, b: Bus, ev: Event, l: Listener, listeners: set<Listener>, p: nat)
    requires Tame(on, listeners, p) && TableAmong(b.table, listeners)
    ensures TableAmong(DeliverOne(on, b, ev, l).bus.table, listeners)
  {
    AmongIsClosed(listeners);
    DeliverOneKeeps(on, b, ev, l, (t: Table) => TableAmong(t, listeners), (edits: seq<Edit>) => Among(edits, listeners));
  }

  lemma BoundStep(n: nat, p: nat, d: nat, k: nat, calls: nat)
    requires d < MAX_PUBLISH_DEPTH && k <= n && calls <= k * PerCall(n, p, d + 1)
    ensures calls <= Bound(n, p, d)
  {
    var each := PerCall(n, p, d + 1);
    assert k * each <= n * each;
  }

  lemma OneMore(k: nat, each: nat, first: nat, others: nat)
    requires k > 0 && first <= each && others <= (k - 1) * each
    ensures first + others <= k * each
  {
    assert k * each == each + (k - 1) * each;
  }

  /** One publish. */
  lemma {:induction false} FeedbackBounded(on: Listeners, b: Bus, ev: Event, listeners: set<Listener>, p: nat)
    requires Tame(on, listeners, p) && TableAmong(b.table, listeners) && b.depth <= MAX_PUBLISH_DEPTH
    ensures Calls(Since(b.notes, Dispatch(on, b, ev).bus.notes)) <= Bound(|listeners|, p, b.depth)
    decreases Room(b.depth), 0
  {
    if GoesOut(b, ev) {
      var snapshot := Get(b.table, ev.eventId);
      DeliverBounded(on, Entered(b), ev, snapshot, listeners, p);
      ListFits(snapshot, listeners);
      BoundStep(|listeners|, p, b.depth, |snapshot|,
                Calls(Since(b.notes, Deliver(on, Entered(b), ev, snapshot).bus.notes)));
    } else {
      assert Since(b.notes, Dispatch(on, b, ev).bus.notes) == [];
    }
  }

  lemma {:induction false} DeliverBounded(on: Listeners, b: Bus, ev: Event, snapshot: seq<Entry>,
                                          listeners: set<Listener>, p: nat)
    requires Tame(on, listeners, p) && TableAmong(b.table, listeners) && b.depth <= MAX_PUBLISH_DEPTH
    ensures Calls(Since(b.notes, Deliver(on, b, ev, snapshot).bus.notes))
            <= |snapshot| * PerCall(|listeners|, p, b.depth)
    decreases Room(b.depth), 3, |snapshot|
  {
    if snapshot == [] {
      assert Since(b.notes, b.notes) == [];
      assert |snapshot| * PerCall(|listeners|, p, b.depth) == 0;
    } else {
      var d := DeliverOne(on, b, ev, snapshot[0].listener);
      DeliverOneBounded(on, b, ev, snapshot[0].listener, listeners, p);
      DeliverOneAmong(on, b, ev, snapshot[0].listener, listeners, p);
      DeliverBounded(on, d.bus, d.event, snapshot[1..], listeners, p);
      var end := Deliver(on, d.bus, d.event, snapshot[1..]).bus.notes;
      CallsSince(b.notes, d.bus.notes, end);
      OneMore(|snapshot|, PerCall(|listeners|, p, b.depth),
              Calls(Since(b.notes, d.bus.notes)), Calls(Since(d.bus.notes, end)));
    }
  }

  lemma {:induction false} DeliverOneBounded(on: Listeners, b: Bus, ev: Event, l: Listener,
                                             listeners: set<Listener>, p: nat)
    requires Tame(on, listeners, p) && TableAmong(b.table, listeners) && b.depth <= MAX_PUBLISH_DEPTH
    ensures Calls(Since(b.notes, DeliverOne(on, b, ev, l).bus.notes)) <= PerCall(|listeners|, p, b.depth)
    decreases Room(b.depth), 2
  {
    if l == NoListener {
      assert Since(b.notes, b.notes) == [];
    } else {
      var note := Called(b.depth, ev.eventId, l, ev.cancelled);
      var called := Noted(b, note);
      var script := on(called.notes, l, ev);
      assert OnlyEdits(script, (edits: seq<Edit>) => Among(edits, listeners));
      RunBounded(on, called, ev, script, listeners, p, p);
      CallsNoted(b.notes, note, Run(on, called, ev, script).bus.notes);
    }
  }

  lemma {:induction false} RunBounded(on: Listeners, b: Bus, ev: Event, script: Script,
                                      listeners: set<Listener>, p: nat, left: nat)
    requires Tame(on, listeners, p) && TableAmong(b.table, listeners) && b.depth <= MAX_PUBLISH_DEPTH
    requires AtMost(script, left) && OnlyEdits(script, (edits: seq<Edit>) => Among(edits, listeners))
    ensures Calls(Since(b.notes, Run(on, b, ev, script).bus.notes)) <= left * Bound(|listeners|, p, b.depth)
    decreases Room(b.depth), 1, script
  {
    match script
    case Return => assert Since(b.notes, b.notes) == [];
    case Throw => assert Since(b.notes, b.notes) == [];
    case SetCancelled(value, rest) =>
      RunBounded(on, b, ev.(cancelled := value), rest, listeners, p, left);
    case Edits(edits, rest) =>
      ApplyAllAmong(b.table, edits, listeners);
      RunBounded(on, b.(table := ApplyAll(b.table, edits)), ev, rest, listeners, p, left);
    case Act(reaction, rest) =>
      var b1 := Noted(b, Acted(b.depth, reaction));
      RunBounded(on, b1, ev, rest, listeners, p, left);
      CallsNoted(b.notes, Acted(b.depth, reaction), Run(on, b1, ev, rest).bus.notes);
    case Publish(nested, ifClear, ifCancelled, ifRefused) =>
      var o := Dispatch(on, b, nested);
      var rest := Continuation(o, ifClear, ifCancelled, ifRefused);
      FeedbackBounded(on, b, nested, listeners, p);
      DispatchAmong(on, b, nested, listeners, p);
      RunBounded(on, o.bus, ev, rest, listeners, p, left - 1);
      var end := Run(on, o.bus, ev, rest).bus.notes;
      CallsSince(b.notes, o.bus.notes, end);
      OneMore(left, Bound(|listeners|, p, b.depth),
              Calls(Since(b.notes, o.bus.notes)), Calls(Since(o.bus.notes, end)));
  }
}
