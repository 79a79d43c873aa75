// What a dispatch leaves: the cancelled flag of a cancellable event, passed on from call to call and to
// the poster, and the table as the listeners edited it.
module EventEffects {
  import opened EventTypes
  import opened EventTable
  import opened EventDispatch

  /** On every path the script, started with the flag at `now`, ends with the flag at `v`. */
  predicate Leaves(script: Script, now: bool, v: bool) {
    match script
    case Return => now == v
    case Throw => now == v
    case SetCancelled(value, rest) => Leaves(rest, value, v)
    case Edits(_, rest) => Leaves(rest, now, v)
    case Act(_, rest) => Leaves(rest, now, v)
    case Publish(_, a, c, r) => Leaves(a, now, v) && Leaves(c, now, v) && Leaves(r, now, v)
  }

  lemma {:induction false} LeavesRun(on: Listeners, b: Bus, ev: Event, script: Script, v: bool)
    requires Leaves(script, ev.cancelled, v)
    ensures Run(on, b, ev, script).event.cancelled == v
    decreases script
  {
    match script
    case Return =>
    case Throw =>
    case SetCancelled(value, rest) => LeavesRun(on, b, ev.(cancelled := value), rest, v);
    case Edits(edits, rest) => LeavesRun(on, b.(table := ApplyAll(b.table, edits)), ev, rest, v);
    case Act(reaction, rest) => LeavesRun(on, Noted(b, Acted(b.depth, reaction)), ev, rest, v);
    case Publish(nested, ifClear, ifCancelled, ifRefused) =>
      var o := Dispatch(on, b, nested);
      LeavesRun(on, o.bus, ev, Continuation(o, ifClear, ifCancelled, ifRefused), v);
  }

  /** `seen` is everything noted up to and including a call at this depth. */
  predicate CallAt(before: seq<Note>, after: seq<Note>, depth: nat, seen: seq<Note>) {
    before < seen <= after && seen[|seen| - 1].Called? && seen[|seen| - 1].depth == depth
  }

  /** Who first finds the flag after a point of the dispatch: the next listener called, or the poster. */
  function Finds(calls: seq<Note>, returned: bool): bool {
    if calls != [] && calls[0].Called? then calls[0].cancelled else returned
  }

  /** The flag as found after `seen`. */
  function FoundAfter(seen: seq<Note>, after: seq<Note>, depth: nat, returned: bool): bool
    requires seen <= after
  {
    Finds(CallsAt(Since(seen, after), depth), returned)
  }

  lemma FoundComposes(a: seq<Note>, b: seq<Note>, c: seq<Note>, depth: nat, returned: bool)
    requires a <= b <= c
    ensures CallsAt(Since(a, b), depth) == [] ==> FoundAfter(a, c, depth, returned) == FoundAfter(b, c, depth, returned)
    ensures CallsAt(Since(a, b), depth) != [] ==>
              FoundAfter(a, c, depth, returned) == Finds(CallsAt(Since(a, b), depth), returned)
  {
    SinceComposes(a, b, c, depth);
  }

  /** The last note of a stretch. */
  lemma LastNote(a: seq<Note>, c: seq<Note>, depth: nat)
    requires a < c
    ensures var n := |c| - 1;
            && a <= c[..n]
            && CallsAt(Since(a, c), depth) ==
               CallsAt(Since(a, c[..n]), depth) + if c[n].Called? && c[n].depth == depth then [c[n]] else []
  {
    var news, n := Since(a, c), |c| - 1;
    assert news[..|news| - 1] == Since(a, c[..n]);
    assert news[|news| - 1] == c[n];
  }

  /** A call within a stretch is among the calls of the stretch. */
  lemma CallIsListed(a: seq<Note>, x: seq<Note>, c: seq<Note>, depth: nat)
    requires CallAt(a, c, depth, x)
    ensures CallsAt(Since(a, c), depth) != []
  {
    LastNote(a, x, depth);
    SinceComposes(a, x, c, depth);
  }

  // ----- one call after the other -------------------------------------------------------------

  /** The first to find the flag finds it as posted. */
  lemma {:induction false} DeliverStarts(on: Listeners, b: Bus, ev: Event, snapshot: seq<Entry>)
    requires b.depth <= MAX_PUBLISH_DEPTH
    ensures var d := Deliver(on, b, ev, snapshot);
            FoundAfter(b.notes, d.bus.notes, b.depth, d.event.cancelled) == ev.cancelled
    decreases |snapshot|
  {
    if snapshot == [] {
      assert Since(b.notes, b.notes) == [];
    } else {
      var l := snapshot[0].listener;
      var one := DeliverOne(on, b, ev, l);
      var d := Deliver(on, one.bus, one.event, snapshot[1..]);
      DeliverOneCalls(on, b, ev, l);
      FoundComposes(b.notes, one.bus.notes, d.bus.notes, b.depth, d.event.cancelled);
      if l == NoListener { DeliverStarts(on, one.bus, one.event, snapshot[1..]); }
    }
  }

  /** The next to find the flag after a call finds it as that listener left it. */
  lemma {:induction false} DeliverPasses(on: Listeners, b: Bus, ev: Event, snapshot: seq<Entry>, seen: seq<Note>, v: bool)
    requires b.depth <= MAX_PUBLISH_DEPTH && ev.cancellable
    requires CallAt(b.notes, Deliver(on, b, ev, snapshot).bus.notes, b.depth, seen)
    requires var call := seen[|seen| - 1];
             Leaves(on(seen, call.listener, ev.(cancelled := call.cancelled)), call.cancelled, v)
    ensures var d := Deliver(on, b, ev, snapshot);
            FoundAfter(seen, d.bus.notes, b.depth, d.event.cancelled) == v
    decreases |snapshot|
  {
    var l := snapshot[0].listener;
    var one := DeliverOne(on, b, ev, l);
    var d := Deliver(on, one.bus, one.event, snapshot[1..]);
    if |one.bus.notes| < |seen| {
      assert one.bus.notes == d.bus.notes[..|one.bus.notes|] == seen[..|one.bus.notes|];
      assert one.event.(cancelled := seen[|seen| - 1].cancelled) == ev.(cancelled := seen[|seen| - 1].cancelled);
      DeliverPasses(on, one.bus, one.event, snapshot[1..], seen, v);
    } else {
      InFirstCall(on, b, ev, l, d.bus.notes, seen);
      var called := Noted(b, Called(b.depth, ev.eventId, l, ev.cancelled));
      LeavesRun(on, called, ev, on(called.notes, l, ev), v);
      RunWithin(on, called, ev, on(called.notes, l, ev));
      DeliverStarts(on, one.bus, one.event, snapshot[1..]);
      FoundComposes(seen, one.bus.notes, d.bus.notes, b.depth, d.event.cancelled);
    }
  }

  /** Within the first call of a delivery, the call itself is the only one at its depth. */
  lemma InFirstCall(on: Listeners, b: Bus, ev: Event, l: Listener, after: seq<Note>, seen: seq<Note>)
    requires b.depth <= MAX_PUBLISH_DEPTH && CallAt(b.notes, after, b.depth, seen)
    requires DeliverOne(on, b, ev, l).bus.notes <= after && |seen| <= |DeliverOne(on, b, ev, l).bus.notes|
    ensures l != NoListener && seen == b.notes + [Called(b.depth, ev.eventId, l, ev.cancelled)]
  {
    var one := DeliverOne(on, b, ev, l).bus.notes;
    assert seen == after[..|seen|] == one[..|seen|];
    var called := Noted(b, Called(b.depth, ev.eventId, l, ev.cancelled));
    if |b.notes| + 1 < |seen| {
      RunWithin(on, called, ev, on(called.notes, l, ev));
      assert called.notes == one[..|called.notes|];
      CallIsListed(called.notes, seen, one, b.depth);
      assert false;
    }
    assert seen == one[..|b.notes| + 1] == called.notes;
  }

  // ----- the whole dispatch ---------------------------------------------------------------------

  /** The returned flag of a dispatch, told step by step without its body: the first listener finds the
      posted flag, each later one what the one before it left, and the poster what the last one left. */
  lemma DispatchPasses(on: Listeners, b: Bus, ev: Event, seen: seq<Note>, v: bool)
    requires b.depth <= MAX_PUBLISH_DEPTH && ev.cancellable
    requires CallAt(b.notes, Dispatch(on, b, ev).bus.notes, b.depth + 1, seen)
    requires var call := seen[|seen| - 1];
             Leaves(on(seen, call.listener, ev.(cancelled := call.cancelled)), call.cancelled, v)
    ensures var r := Dispatch(on, b, ev);
            FoundAfter(seen, r.bus.notes, b.depth + 1, r.event.cancelled) == v
  {
    assert GoesOut(b, ev);
    DeliverPasses(on, Entered(b), ev, Get(b.table, ev.eventId), seen, v);
  }

  lemma DispatchStarts(on: Listeners, b: Bus, ev: Event)
    requires b.depth <= MAX_PUBLISH_DEPTH
    ensures var r := Dispatch(on, b, ev);
            FoundAfter(b.notes, r.bus.notes, b.depth + 1, r.event.cancelled) == ev.cancelled
  {
    if GoesOut(b, ev) {
      DeliverStarts(on, Entered(b), ev, Get(b.table, ev.eventId));
    } else {
      assert Since(b.notes, b.notes) == [];
    }
  }

  /** Every listener called after `from` leaves the flag at `v` when it finds it there. */
  ghost predicate Kept(on: Listeners, from: seq<Note>, after: seq<Note>, depth: nat, ev: Event, v: bool) {
    forall x: seq<Note> :: CallAt(from, after, depth, x) ==>
      Leaves(on(x, x[|x| - 1].listener, ev.(cancelled := v)), v, v)
  }

  /** A value that the later listeners keep is what the poster gets back. */
  lemma {:induction false} KeptReturns(on: Listeners, b: Bus, ev: Event, from: seq<Note>, v: bool)
    requires b.depth <= MAX_PUBLISH_DEPTH && ev.cancellable && b.notes <= from <= Dispatch(on, b, ev).bus.notes
    requires var r := Dispatch(on, b, ev);
             && FoundAfter(from, r.bus.notes, b.depth + 1, r.event.cancelled) == v
             && Kept(on, from, r.bus.notes, b.depth + 1, ev, v)
    ensures Dispatch(on, b, ev).event.cancelled == v
    decreases |Dispatch(on, b, ev).bus.notes| - |from|
  {
    var r := Dispatch(on, b, ev);
    if CallsAt(Since(from, r.bus.notes), b.depth + 1) != [] {
      var x := NextCall(from, r.bus.notes, b.depth + 1);
      FoundComposes(from, x, r.bus.notes, b.depth + 1, r.event.cancelled);
      DispatchPasses(on, b, ev, x, v);
      KeptReturns(on, b, ev, x, v);
    }
  }

  lemma {:induction false} NextCall(from: seq<Note>, after: seq<Note>, depth: nat) returns (x: seq<Note>)
    requires from <= after && CallsAt(Since(from, after), depth) != []
    ensures CallAt(from, after, depth, x) && CallsAt(Since(from, x), depth) == [x[|x| - 1]]
    decreases |after|
  {
    LastNote(from, after, depth);
    var front := after[..|after| - 1];
    if CallsAt(Since(from, front), depth) != [] {
      x := NextCall(from, front, depth);
    } else {
      x := after;
    }
  }

  /** When the last listener called leaves the flag at `v` on every path, `v` is returned. */
  lemma LastListenerDecides(on: Listeners, b: Bus, ev: Event, seen: seq<Note>, v: bool)
    requires b.depth <= MAX_PUBLISH_DEPTH && ev.cancellable
    requires var after := Dispatch(on, b, ev).bus.notes;
             CallAt(b.notes, after, b.depth + 1, seen) && CallsAt(Since(seen, after), b.depth + 1) == []
    requires var call := seen[|seen| - 1];
             Leaves(on(seen, call.listener, ev.(cancelled := call.cancelled)), call.cancelled, v)
    ensures Dispatch(on, b, ev).event.cancelled == v
  {
    DispatchPasses(on, b, ev, seen, v);
  }

  /** When no listener that is called writes the flag, the posted one is returned. */
  lemma NobodyWrites(on: Listeners, b: Bus, ev: Event)
    requires b.depth <= MAX_PUBLISH_DEPTH && ev.cancellable
    requires Kept(on, b.notes, Dispatch(on, b, ev).bus.notes, b.depth + 1, ev, ev.cancelled)
    ensures Dispatch(on, b, ev).event.cancelled == ev.cancelled
  {
    DispatchStarts(on, b, ev);
    KeptReturns(on, b, ev, b.notes, ev.cancelled);
  }

  // ----- what a poster inside a listener makes of it ---------------------------------------------

  /** A listener that publishes goes on by what became of its event: refused, claimed or clear. */
  lemma NestedPublishLearns(on: Listeners, b: Bus, ev: Event, nested: Event, clear: Script, claimed: Script,
                            refused: Script)
    ensures var o := Dispatch(on, b, nested);
            Run(on, b, ev, Publish(nested, clear, claimed, refused)) ==
            Run(on, o.bus, ev, if o.error != Ok then refused else if o.event.cancelled then claimed else clear)
  {
  }

  // ----- the table after a dispatch --------------------------------------------------------------

  /** The script publishes nothing. */
  predicate Straight(script: Script) {
    match script
    case Return => true
    case Throw => true
    case SetCancelled(_, rest) => Straight(rest)
    case Edits(_, rest) => Straight(rest)
    case Act(_, rest) => Straight(rest)
    case Publish(_, _, _, _) => false
  }

  function EditsOf(script: Script): seq<Edit> {
    match script
    case Return => []
    case Throw => []
    case SetCancelled(_, rest) => EditsOf(rest)
    case Edits(edits, rest) => edits + EditsOf(rest)
    case Act(_, rest) => EditsOf(rest)
    case Publish(_, _, _, _) => []
  }

  lemma {:induction false} StraightEdits(on: Listeners, b: Bus, ev: Event, script: Script)
    requires Straight(script)
    ensures Run(on, b, ev, script).bus.table == ApplyAll(b.table, EditsOf(script))
    decreases script
  {
    match script
    case Return =>
    case Throw =>
    case SetCancelled(value, rest) => StraightEdits(on, b, ev.(cancelled := value), rest);
    case Edits(edits, rest) =>
      StraightEdits(on, b.(table := ApplyAll(b.table, edits)), ev, rest);
      ApplyAllConcat(b.table, edits, EditsOf(rest));
    case Act(reaction, rest) => StraightEdits(on, Noted(b, Acted(b.depth, reaction)), ev, rest);
  }

  /** The edits of the listeners one after the other. */
  function EditsBy(targets: seq<Listener>, edits: Listener -> seq<Edit>): seq<Edit> {
    if targets == [] then [] else edits(targets[0]) + EditsBy(targets[1..], edits)
  }

  /** The listener publishes nothing and makes the same edits whenever it is called. */
  ghost predicate Makes(on: Listeners, l: Listener, edits: seq<Edit>) {
    forall notes, ev :: Straight(on(notes, l, ev)) && EditsOf(on(notes, l, ev)) == edits
  }

  lemma {:induction false} DeliverEdits(on: Listeners, b: Bus, ev: Event, snapshot: seq<Entry>,
                                        edits: Listener -> seq<Edit>)
    requires forall l :: l in Targets(snapshot) ==> Makes(on, l, edits(l))
    ensures Deliver(on, b, ev, snapshot).bus.table == ApplyAll(b.table, EditsBy(Targets(snapshot), edits))
    decreases |snapshot|
  {
    if snapshot != [] {
      var l, rest := snapshot[0].listener, Targets(snapshot[1..]);
      var one := DeliverOne(on, b, ev, l);
      assert Targets(snapshot) == if l == NoListener then rest else [l] + rest;
      DeliverEdits(on, one.bus, one.event, snapshot[1..], edits);
      if l != NoListener {
        assert l in Targets(snapshot) && Targets(snapshot)[1..] == rest;
        OneEdits(on, b, ev, l, edits(l));
        ApplyAllConcat(b.table, edits(l), EditsBy(rest, edits));
      }
    }
  }

  lemma OneEdits(on: Listeners, b: Bus, ev: Event, l: Listener, edits: seq<Edit>)
    requires l != NoListener && Makes(on, l, edits)
    ensures DeliverOne(on, b, ev, l).bus.table == ApplyAll(b.table, edits)
  {
    var called := Noted(b, Called(b.depth, ev.eventId, l, ev.cancelled));
    StraightEdits(on, called, ev, on(called.notes, l, ev));
  }

  /** Listeners that publish nothing leave the table with all their edits, made in the order of the calls. */
  lemma DispatchEdits(on: Listeners, b: Bus, ev: Event, edits: Listener -> seq<Edit>)
    requires GoesOut(b, ev) && forall l :: l in Targets(Get(b.table, ev.eventId)) ==> Makes(on, l, edits(l))
    ensures Dispatch(on, b, ev).bus.table == ApplyAll(b.table, EditsBy(Targets(Get(b.table, ev.eventId)), edits))
  {
    DeliverEdits(on, Entered(b), ev, Get(b.table, ev.eventId), edits);
  }
}
