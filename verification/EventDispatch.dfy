// Synchronous dispatch over a snapshot, with listeners free to edit the table, throw, write the
// cancelled flag and publish again from inside onEvent.
module EventDispatch {
  import opened EventTypes
  import opened EventTable
  import EventId

  const MAX_PUBLISH_DEPTH: nat := 8

  /** One observable step; `depth` is the value of the publish-depth counter at that time. */
  datatype Note =
    | Called(depth: nat, channel: string, listener: Listener, cancelled: bool)
    | Acted(depth: nat, reaction: Reaction)

  /** What one onEvent call does. A nested publish continues by its outcome: delivered with the
      flag clear, delivered with the flag set, or refused. `edits` is a group of table calls
      with nothing in between. */
  datatype Script =
    | Return
    | Throw
    | SetCancelled(value: bool, rest: Script)
    | Edits(edits: seq<Edit>, rest: Script)
    | Act(reaction: Reaction, rest: Script)
    | Publish(event: Event, ifClear: Script, ifCancelled: Script, ifRefused: Script)

  /** All listeners together: what each does may depend on everything that happened so far. */
  type Listeners = (seq<Note>, Listener, Event) -> Script

  datatype Bus = Bus(table: Table, depth: nat, notes: seq<Note>)
  datatype Delivery = Delivery(bus: Bus, event: Event)
  datatype Outcome = Outcome(bus: Bus, event: Event, error: PluginError)

  /** How many nested publishes the cap still admits. */
  function Room(depth: nat): nat {
    if depth < MAX_PUBLISH_DEPTH then MAX_PUBLISH_DEPTH - depth else 0
  }

  /** Nothing is forgotten, the depth is back, and only the cancelled flag was written. */
  predicate Framed(b: Bus, ev: Event, b': Bus, ev': Event) {
    b'.depth == b.depth && b.notes <= b'.notes && ev' == ev.(cancelled := ev'.cancelled)
  }

  function Dispatch(on: Listeners, b: Bus, ev: Event): (r: Outcome)
    ensures Framed(b, ev, r.bus, r.event)
    decreases Room(b.depth), 0
  {
    if !EventId.IsEventId(ev.eventId) then Outcome(b, ev, InvalidArgument)
    else if Get(b.table, ev.eventId) == [] then Outcome(b, ev, Ok)
    else if b.depth >= MAX_PUBLISH_DEPTH then Outcome(b, ev, Busy)
    else
      var d := Deliver(on, Entered(b), ev, Get(b.table, ev.eventId));
      Outcome(d.bus.(depth := d.bus.depth - 1), d.event, Ok)
  }

  function Entered(b: Bus): Bus { b.(depth := b.depth + 1) }

  predicate GoesOut(b: Bus, ev: Event) {
    EventId.IsEventId(ev.eventId) && Get(b.table, ev.eventId) != [] && b.depth < MAX_PUBLISH_DEPTH
  }

  /** The listeners of `snapshot`, one call each. */
  function Deliver(on: Listeners, b: Bus, ev: Event, snapshot: seq<Entry>): (r: Delivery)
    ensures Framed(b, ev, r.bus, r.event)
    decreases Room(b.depth), 3, |snapshot|
  {
    if snapshot == [] then Delivery(b, ev)
    else
      var d := DeliverOne(on, b, ev, snapshot[0].listener);
      Deliver(on, d.bus, d.event, snapshot[1..])
  }

  function Noted(b: Bus, note: Note): Bus { b.(notes := b.notes + [note]) }

  /** One call; the flag of a non-cancellable event is reset afterwards. */
  function DeliverOne(on: Listeners, b: Bus, ev: Event, l: Listener): (r: Delivery)
    ensures Framed(b, ev, r.bus, r.event)
    decreases Room(b.depth), 2
  {
    if l == NoListener then Delivery(b, ev)
    else
      var called := Noted(b, Called(b.depth, ev.eventId, l, ev.cancelled));
      var d := Run(on, called, ev, on(called.notes, l, ev));
      if ev.cancellable then d else d.(event := d.event.(cancelled := false))
  }

  function Run(on: Listeners, b: Bus, ev: Event, script: Script): (r: Delivery)
    ensures Framed(b, ev, r.bus, r.event)
    decreases Room(b.depth), 1, script
  {
    match script
    case Return => Delivery(b, ev)
    case Throw => Delivery(b, ev)
    case SetCancelled(value, rest) => Run(on, b, ev.(cancelled := value), rest)
    case Edits(edits, rest) => Run(on, b.(table := ApplyAll(b.table, edits)), ev, rest)
    case Act(reaction, rest) => Run(on, Noted(b, Acted(b.depth, reaction)), ev, rest)
    case Publish(nested, ifClear, ifCancelled, ifRefused) =>
      var o := Dispatch(on, b, nested);
      Run(on, o.bus, ev, Continuation(o, ifClear, ifCancelled, ifRefused))
  }

  function Continuation(o: Outcome, ifClear: Script, ifCancelled: Script, ifRefused: Script): Script {
    if o.error != Ok then ifRefused else if o.event.cancelled then ifCancelled else ifClear
  }

  // ----- reading the notes ------------------------------------------------------------

  /** The notes added between two states. */
  function Since(before: seq<Note>, after: seq<Note>): seq<Note>
    requires before <= after
  {
    after[|before|..]
  }

  /** The calls made at exactly this depth, in order. */
  function CallsAt(notes: seq<Note>, depth: nat): seq<Note> {
    if notes == [] then []
    else
      var n := |notes| - 1;
      CallsAt(notes[..n], depth)
      + (if notes[n].Called? && notes[n].depth == depth then [notes[n]] else [])
  }

  predicate Within(notes: seq<Note>, lo: nat) {
    forall i :: 0 <= i < |notes| ==> lo <= notes[i].depth <= MAX_PUBLISH_DEPTH
  }

  /** The listeners a snapshot reaches: all but null pointers. */
  function Targets(snapshot: seq<Entry>): seq<Listener> {
    if snapshot == [] then []
    else (if snapshot[0].listener == NoListener then [] else [snapshot[0].listener]) + Targets(snapshot[1..])
  }

  lemma {:induction false} CallsAtConcat(a: seq<Note>, b: seq<Note>, depth: nat)
    ensures CallsAt(a + b, depth) == CallsAt(a, depth) + CallsAt(b, depth)
  {
    if b == [] {
      assert a + b == a;
    } else {
      var n := |b| - 1;
      CallsAtConcat(a, b[..n], depth);
      assert (a + b)[..|a + b| - 1] == a + b[..n];
    }
  }

  /** Notes of two consecutive stretches. */
  lemma SinceComposes(a: seq<Note>, b: seq<Note>, c: seq<Note>, depth: nat)
    requires a <= b <= c
    ensures Since(a, c) == Since(a, b) + Since(b, c)
    ensures CallsAt(Since(a, c), depth) == CallsAt(Since(a, b), depth) + CallsAt(Since(b, c), depth)
    ensures Within(Since(a, b), depth) && Within(Since(b, c), depth) ==> Within(Since(a, c), depth)
  {
    assert Since(a, c) == Since(a, b) + Since(b, c);
    CallsAtConcat(Since(a, b), Since(b, c), depth);
  }

  /** One note followed by a stretch. */
  lemma NoteComposes(before: seq<Note>, note: Note, after: seq<Note>, depth: nat)
    requires before + [note] <= after
    ensures CallsAt(Since(before, after), depth) ==
            (if note.Called? && note.depth == depth then [note] else []) + CallsAt(Since(before + [note], after), depth)
    ensures depth <= note.depth <= MAX_PUBLISH_DEPTH && Within(Since(before + [note], after), depth)
            ==> Within(Since(before, after), depth)
  {
    SinceComposes(before, before + [note], after, depth);
    OneNote(before, note, depth);
  }

  lemma OneNote(before: seq<Note>, note: Note, depth: nat)
    ensures Since(before, before + [note]) == [note]
    ensures CallsAt([note], depth) == if note.Called? && note.depth == depth then [note] else []
  {
    assert [note][..0] == [];
  }

  lemma {:induction false} CallsAtElsewhere(notes: seq<Note>, lo: nat, depth: nat)
    requires Within(notes, lo) && depth < lo
    ensures CallsAt(notes, depth) == []
  {
    if notes != [] { CallsAtElsewhere(notes[..|notes| - 1], lo, depth); }
  }

  // ----- the depth cap ----------------------------------------------------------------

  /** Nothing above this depth, and no call at it. */
  predicate Quiet(news: seq<Note>, depth: nat) {
    Within(news, depth) && CallsAt(news, depth) == []
  }

  lemma QuietComposes(a: seq<Note>, b: seq<Note>, c: seq<Note>, depth: nat)
    requires a <= b <= c && Quiet(Since(a, b), depth) && Quiet(Since(b, c), depth)
    ensures Quiet(Since(a, c), depth)
  {
    SinceComposes(a, b, c, depth);
  }

  lemma QuietNote(before: seq<Note>, reaction: Reaction, depth: nat, after: seq<Note>)
    requires depth <= MAX_PUBLISH_DEPTH && before + [Acted(depth, reaction)] <= after
    requires Quiet(Since(before + [Acted(depth, reaction)], after), depth)
    ensures Quiet(Since(before, after), depth)
  {
    NoteComposes(before, Acted(depth, reaction), after, depth);
  }

  lemma DeeperIsQuiet(news: seq<Note>, depth: nat)
    requires Within(news, depth + 1)
    ensures Quiet(news, depth)
  {
    CallsAtElsewhere(news, depth + 1, depth);
  }

  /** Everything noted while a listener runs at depth D is at D or deeper, calls deeper. */
  lemma {:induction false} RunWithin(on: Listeners, b: Bus, ev: Event, script: Script)
    requires b.depth <= MAX_PUBLISH_DEPTH
    ensures Quiet(Since(b.notes, Run(on, b, ev, script).bus.notes), b.depth)
    decreases Room(b.depth), 1, script
  {
    match script
    case Return =>
    case Throw =>
    case SetCancelled(value, rest) => RunWithin(on, b, ev.(cancelled := value), rest);
    case Edits(edits, rest) => RunWithin(on, b.(table := ApplyAll(b.table, edits)), ev, rest);
    case Act(reaction, rest) =>
      var b1 := Noted(b, Acted(b.depth, reaction));
      RunWithin(on, b1, ev, rest);
      QuietNote(b.notes, reaction, b.depth, Run(on, b1, ev, rest).bus.notes);
    case Publish(nested, ifClear, ifCancelled, ifRefused) =>
      var o := Dispatch(on, b, nested);
      var rest := Continuation(o, ifClear, ifCancelled, ifRefused);
      DispatchWithin(on, b, nested);
      DeeperIsQuiet(Since(b.notes, o.bus.notes), b.depth);
      RunWithin(on, o.bus, ev, rest);
      QuietComposes(b.notes, o.bus.notes, Run(on, o.bus, ev, rest).bus.notes, b.depth);
  }

  lemma {:induction false} DispatchWithin(on: Listeners, b: Bus, ev: Event)
    requires b.depth <= MAX_PUBLISH_DEPTH
    ensures Within(Since(b.notes, Dispatch(on, b, ev).bus.notes), b.depth + 1)
    decreases Room(b.depth), 0
  {
    if GoesOut(b, ev) {
      DeliverCalls(on, Entered(b), ev, Get(b.table, ev.eventId));
    }
  }

  /** The calls a dispatch makes itself, as (channel, listener) pairs in order. */
  ghost predicate CallsTo(calls: seq<Note>, channel: string, targets: seq<Listener>) {
    && |calls| == |targets|
    && forall i :: 0 <= i < |calls| ==>
         calls[i].Called? && calls[i].channel == channel && calls[i].listener == targets[i]
  }

  /** News at this depth or deeper, with exactly these calls at it. */
  ghost predicate Reaches(news: seq<Note>, depth: nat, channel: string, targets: seq<Listener>) {
    Within(news, depth) && CallsTo(CallsAt(news, depth), channel, targets)
  }

  lemma ReachesBoth(a: seq<Note>, b: seq<Note>, c: seq<Note>, depth: nat, channel: string,
                    x: seq<Listener>, y: seq<Listener>)
    requires a <= b <= c && Reaches(Since(a, b), depth, channel, x) && Reaches(Since(b, c), depth, channel, y)
    ensures Reaches(Since(a, c), depth, channel, x + y)
  {
    SinceComposes(a, b, c, depth);
  }

  function Target(l: Listener): seq<Listener> { if l == NoListener then [] else [l] }

  lemma {:induction false} DeliverCalls(on: Listeners, b: Bus, ev: Event, snapshot: seq<Entry>)
    requires b.depth <= MAX_PUBLISH_DEPTH
    ensures Reaches(Since(b.notes, Deliver(on, b, ev, snapshot).bus.notes), b.depth, ev.eventId, Targets(snapshot))
    decreases Room(b.depth), 3, |snapshot|
  {
    if snapshot != [] {
      var l := snapshot[0].listener;
      var d := DeliverOne(on, b, ev, l);
      DeliverOneCalls(on, b, ev, l);
      DeliverCalls(on, d.bus, d.event, snapshot[1..]);
      ReachesBoth(b.notes, d.bus.notes, Deliver(on, d.bus, d.event, snapshot[1..]).bus.notes,
                  b.depth, ev.eventId, Target(l), Targets(snapshot[1..]));
    }
  }

  lemma {:induction false} DeliverOneCalls(on: Listeners, b: Bus, ev: Event, l: Listener)
    requires b.depth <= MAX_PUBLISH_DEPTH
    ensures var news := Since(b.notes, DeliverOne(on, b, ev, l).bus.notes);
            && Within(news, b.depth)
            && CallsAt(news, b.depth) ==
               if l == NoListener then [] else [Called(b.depth, ev.eventId, l, ev.cancelled)]
    decreases Room(b.depth), 2
  {
    if l != NoListener {
      var note := Called(b.depth, ev.eventId, l, ev.cancelled);
      var called := Noted(b, note);
      var script := on(called.notes, l, ev);
      RunWithin(on, called, ev, script);
      var end := Run(on, called, ev, script).bus.notes;
      NoteComposes(b.notes, note, end, b.depth);
    }
  }

  /** A dispatch that goes out calls every listener of its snapshot exactly once, in order, on
      its channel, whatever those listeners do meanwhile; a refused one does nothing. Every call
      happens above the depth of the publisher and never above the cap. */
  lemma DispatchCallsEachOnce(on: Listeners, b: Bus, ev: Event)
    requires b.depth <= MAX_PUBLISH_DEPTH
    ensures var r := Dispatch(on, b, ev);
            var news := Since(b.notes, r.bus.notes);
            && r.bus.depth == b.depth
            && Within(news, b.depth + 1)
            && (r.error == Ok ==> CallsTo(CallsAt(news, b.depth + 1), ev.eventId, Targets(Get(b.table, ev.eventId))))
            && (r.error != Ok ==> r.bus == b && r.event == ev)
            && (r.error == InvalidArgument <==> !EventId.IsEventId(ev.eventId))
            && (r.error == Busy <==>
                EventId.IsEventId(ev.eventId) && Get(b.table, ev.eventId) != [] && b.depth == 8)
  {
    DispatchWithin(on, b, ev);
    if GoesOut(b, ev) {
      DeliverCalls(on, Entered(b), ev, Get(b.table, ev.eventId));
    }
  }

  // ----- the cancelled flag -----------------------------------------------------------

  /** Only the first call can have seen the flag set, and only when it was posted set. */
  predicate FlagSeen(calls: seq<Note>, posted: bool) {
    forall i :: 0 <= i < |calls| ==> calls[i].Called? && calls[i].cancelled == (i == 0 && posted)
  }

  lemma FlagSeenPrepend(first: Note, calls: seq<Note>)
    requires first.Called? && FlagSeen(calls, false)
    ensures FlagSeen([first] + calls, first.cancelled)
  {
  }

  /** The final value is the posted one only when nobody was called. */
  lemma {:induction false} NonCancellableDeliver(on: Listeners, b: Bus, ev: Event, snapshot: seq<Entry>)
    requires b.depth <= MAX_PUBLISH_DEPTH && !ev.cancellable
    ensures var r := Deliver(on, b, ev, snapshot);
            var calls := CallsAt(Since(b.notes, r.bus.notes), b.depth);
            && r.event.cancelled == (ev.cancelled && Targets(snapshot) == [])
            && |calls| == |Targets(snapshot)|
            && FlagSeen(calls, ev.cancelled)
    decreases |snapshot|
  {
    if snapshot != [] {
      var l := snapshot[0].listener;
      var d := DeliverOne(on, b, ev, l);
      DeliverOneCalls(on, b, ev, l);
      NonCancellableDeliver(on, d.bus, d.event, snapshot[1..]);
      var end := Deliver(on, d.bus, d.event, snapshot[1..]).bus.notes;
      SinceComposes(b.notes, d.bus.notes, end, b.depth);
      if l != NoListener {
        FlagSeenPrepend(Called(b.depth, ev.eventId, l, ev.cancelled), CallsAt(Since(d.bus.notes, end), b.depth));
      }
    }
  }

  /** A non-cancellable event posted clear is seen clear by every listener and returns clear. */
  lemma NonCancellableStaysClear(on: Listeners, b: Bus, ev: Event)
    requires b.depth <= MAX_PUBLISH_DEPTH && !ev.cancellable
    ensures var r := Dispatch(on, b, ev);
            && (r.event.cancelled <==>
                ev.cancelled && (r.error != Ok || Targets(Get(b.table, ev.eventId)) == []))
            && FlagSeen(CallsAt(Since(b.notes, r.bus.notes), b.depth + 1), ev.cancelled)
  {
    var r, snapshot := Dispatch(on, b, ev), Get(b.table, ev.eventId);
    if GoesOut(b, ev) {
      var d := Deliver(on, Entered(b), ev, snapshot);
      NonCancellableDeliver(on, Entered(b), ev, snapshot);
      assert r.event == d.event && r.bus.notes == d.bus.notes;
    } else {
      assert r.bus.notes == b.notes;
    }
  }

  // ----- invariants of the table ------------------------------------------------------

  /** Every group of edits in the script is allowed. */
  predicate OnlyEdits(script: Script, ok: seq<Edit> -> bool) {
    match script
    case Return => true
    case Throw => true
    case SetCancelled(_, rest) => OnlyEdits(rest, ok)
    case Edits(edits, rest) => ok(edits) && OnlyEdits(rest, ok)
    case Act(_, rest) => OnlyEdits(rest, ok)
    case Publish(_, a, c, r) => OnlyEdits(a, ok) && OnlyEdits(c, ok) && OnlyEdits(r, ok)
  }

  ghost predicate AllOnlyEdits(on: Listeners, ok: seq<Edit> -> bool) {
    forall notes, l, ev :: OnlyEdits(on(notes, l, ev), ok)
  }

  ghost predicate Closed(inv: Table -> bool, ok: seq<Edit> -> bool) {
    forall t, edits :: inv(t) && ok(edits) ==> inv(ApplyAll(t, edits))
  }

  /** A table invariant kept by every allowed group of edits is kept by dispatch. */
  lemma {:induction false} DispatchKeeps(on: Listeners, b: Bus, ev: Event,
                                         inv: Table -> bool, ok: seq<Edit> -> bool)
    requires Closed(inv, ok) && AllOnlyEdits(on, ok) && inv(b.table)
    ensures inv(Dispatch(on, b, ev).bus.table)
    decreases Room(b.depth), 0
  {
    if GoesOut(b, ev) {
      DeliverKeeps(on, Entered(b), ev, Get(b.table, ev.eventId), inv, ok);
    }
  }

  lemma {:induction false} DeliverKeeps(on: Listeners, b: Bus, ev: Event, snapshot: seq<Entry>,
                                        inv: Table -> bool, ok: seq<Edit> -> bool)
    requires Closed(inv, ok) && AllOnlyEdits(on, ok) && inv(b.table)
    ensures inv(Deliver(on, b, ev, snapshot).bus.table)
    decreases Room(b.depth), 3, |snapshot|
  {
    if snapshot != [] {
      var l := snapshot[0].listener;
      var d := DeliverOne(on, b, ev, l);
      DeliverOneKeeps(on, b, ev, l, inv, ok);
      DeliverKeeps(on, d.bus, d.event, snapshot[1..], inv, ok);
    }
  }

  lemma {:induction false} DeliverOneKeeps(on: Listeners, b: Bus, ev: Event, l: Listener,
                                           inv: Table -> bool, ok: seq<Edit> -> bool)
    requires Closed(inv, ok) && AllOnlyEdits(on, ok) && inv(b.table)
    ensures inv(DeliverOne(on, b, ev, l).bus.table)
    decreases Room(b.depth), 2
  {
    var called := Noted(b, Called(b.depth, ev.eventId, l, ev.cancelled));
    RunKeeps(on, called, ev, on(called.notes, l, ev), inv, ok);
  }

  lemma {:induction false} RunKeeps(on: Listeners, b: Bus, ev: Event, script: Script,
                                    inv: Table -> bool, ok: seq<Edit> -> bool)
    requires Closed(inv, ok) && AllOnlyEdits(on, ok) && inv(b.table) && OnlyEdits(script, ok)
    ensures inv(Run(on, b, ev, script).bus.table)
    decreases Room(b.depth), 1, script
  {
    match script
    case Return =>
    case Throw =>
    case SetCancelled(value, rest) => RunKeeps(on, b, ev.(cancelled := value), rest, inv, ok);
    case Edits(edits, rest) => RunKeeps(on, b.(table := ApplyAll(b.table, edits)), ev, rest, inv, ok);
    case Act(reaction, rest) => RunKeeps(on, Noted(b, Acted(b.depth, reaction)), ev, rest, inv, ok);
    case Publish(nested, ifClear, ifCancelled, ifRefused) =>
      var o := Dispatch(on, b, nested);
      DispatchKeeps(on, b, nested, inv, ok);
      RunKeeps(on, o.bus, ev, Continuation(o, ifClear, ifCancelled, ifRefused), inv, ok);
  }

  /** Whatever the listeners do, dispatch leaves a valid table. */
  lemma DispatchKeepsValid(on: Listeners, b: Bus, ev: Event)
    requires ValidTable(b.table)
    ensures ValidTable(Dispatch(on, b, ev).bus.table)
  {
    var inv := (t: Table) => ValidTable(t);
    var ok := (edits: seq<Edit>) => true;
    forall t, edits | inv(t) && ok(edits) ensures inv(ApplyAll(t, edits)) {
      ApplyAllKeepsValid(t, edits);
    }
    forall notes, l, ev ensures OnlyEdits(on(notes, l, ev), ok) {
      AnyEdits(on(notes, l, ev), ok);
    }
    DispatchKeeps(on, b, ev, inv, ok);
  }

  lemma AnyEdits(script: Script, ok: seq<Edit> -> bool)
    requires forall edits :: ok(edits)
    ensures OnlyEdits(script, ok)
  {
  }
}
