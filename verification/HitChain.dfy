// The hit decision on the bus: the voice-pack adapter, then the fallback adapter, with the
// cooldown in between. All other listeners, and everything nested, are arbitrary.
module HitChain {
  import opened Options
  import opened EventTypes
  import opened EventTable
  import opened EventDispatch
  import opened HitAdjacency
  import opened EventEffects
  import EventId

  const DIALOGUE: string := "pet.instance.dialogue"
  const HOST_PUBLISHER: string := "host"
  const DEFAULT_WINDOW_MS: int := 4000

  /** A built voice-pack behaviour: estimated audio length (0 when unknown) and spoken text. */
  datatype Behavior = Behavior(audioMs: int, dialogue: string)

  /** What the sessions consult: their ids, the cooldown each brought to this bus, their voice packs,
      and the wall clock. Packs and clock may depend on everything that happened. */
  datatype Env = Env(
    uuid: nat -> string,
    brought: nat -> int,
    hasGroup: (seq<Note>, nat, string) -> bool,
    behavior: (seq<Note>, nat, string) -> Option<Behavior>,
    clock: seq<Note> -> int)

  function Window(b: Behavior): int {
    if b.audioMs > 0 then b.audioMs else DEFAULT_WINDOW_MS
  }

  /** The end of the latest behaviour of a session on this bus, or `from` without any. */
  function Latest(notes: seq<Note>, s: nat, from: int): int {
    if notes == [] then from
    else
      var last := notes[|notes| - 1];
      if last.Acted? && last.reaction.Behaved? && last.reaction.session == s then last.reaction.until
      else Latest(notes[..|notes| - 1], s, from)
  }

  function Later(a: int, b: int): int { if a < b then b else a }

  /** The end of the cooldown of a session: initially 0, then that of its latest behaviour, on this
      bus or on one it was bound to before. */
  function ActiveUntil(env: Env, notes: seq<Note>, s: nat): int {
    Later(env.brought(s), Latest(notes, s, env.brought(s)))
  }

  function DialogueEvent(env: Env, s: nat, text: string): Event {
    Event(DIALOGUE, env.uuid(s), HOST_PUBLISHER, false, false, text)
  }

  /** MountedBehaviorAdapter::onEvent. */
  function MountedScript(env: Env, notes: seq<Note>, s: nat, ev: Event): Script {
    if ev.instanceUuid != env.uuid(s) then Return
    else if ev.cancelled then Return
    else if !env.hasGroup(notes, s, ev.payload) then Return
    else
      var now := env.clock(notes);
      if now < ActiveUntil(env, notes, s) then Act(Swallowed(s), SetCancelled(true, Return))
      else match env.behavior(notes, s, ev.payload)
        case None => Return
        case Some(b) =>
          Act(Behaved(s, now, now + Window(b)), AfterBehavior(env, s, b))
  }

  /** The spoken line, when there is one, goes out before the hit is claimed. */
  function AfterBehavior(env: Env, s: nat, b: Behavior): Script {
    var claim := SetCancelled(true, Return);
    if b.dialogue == "" then claim else Publish(DialogueEvent(env, s, b.dialogue), claim, claim, claim)
  }

  /** InteractionFallbackAdapter::onEvent. */
  function FallbackScript(env: Env, s: nat, ev: Event): Script {
    if ev.instanceUuid != env.uuid(s) then Return
    else if ev.cancelled then Return
    else Act(FellBack(s), Return)
  }

  /** The direct decision for a hit nobody claimed, before there was a bus: voice pack first,
      cooldown swallows, InteractionHandler otherwise. */
  function Decide(env: Env, notes: seq<Note>, s: nat, area: string): Reaction {
    if !env.hasGroup(notes, s, area) then FellBack(s)
    else if env.clock(notes) < ActiveUntil(env, notes, s) then Swallowed(s)
    else match env.behavior(notes, s, area)
      case None => FellBack(s)
      case Some(b) => Behaved(s, env.clock(notes), env.clock(notes) + Window(b))
  }

  /** No reaction of a default adapter on any path. */
  predicate Silent(script: Script) {
    match script
    case Return => true
    case Throw => true
    case SetCancelled(_, rest) => Silent(rest)
    case Edits(_, rest) => Silent(rest)
    case Act(_, _) => false
    case Publish(_, a, c, r) => Silent(a) && Silent(c) && Silent(r)
  }

  /** The adapters run their code, session ids differ, and no other listener fakes a reaction or
      edits the adapters' subscriptions except by binding or unbinding a session. */
  ghost predicate Wired(on: Listeners, env: Env) {
    && (forall notes, s, ev :: on(notes, MountedBehavior(s), ev) == MountedScript(env, notes, s, ev))
    && (forall notes, s, ev :: on(notes, InteractionFallback(s), ev) == FallbackScript(env, s, ev))
    && (forall notes, id, ev :: Silent(on(notes, Plugin(id), ev)))
    && (forall s, r :: env.uuid(s) == env.uuid(r) ==> s == r)
    && AllOnlyEdits(on, edits => Allowed(edits))
  }

  /** The reactions made at exactly this depth, in order. */
  function ActsAt(notes: seq<Note>, depth: nat): seq<Reaction> {
    if notes == [] then []
    else
      var last := notes[|notes| - 1];
      ActsAt(notes[..|notes| - 1], depth)
      + (if last.Acted? && last.depth == depth then [last.reaction] else [])
  }

  lemma {:induction false} ActsAtConcat(a: seq<Note>, b: seq<Note>, depth: nat)
    ensures ActsAt(a + b, depth) == ActsAt(a, depth) + ActsAt(b, depth)
  {
    if b == [] {
      assert a + b == a;
    } else {
      var n := |b| - 1;
      ActsAtConcat(a, b[..n], depth);
      assert (a + b)[..|a + b| - 1] == a + b[..n];
    }
  }

  lemma ActsSince(a: seq<Note>, b: seq<Note>, c: seq<Note>, depth: nat)
    requires a <= b <= c
    ensures ActsAt(Since(a, c), depth) == ActsAt(Since(a, b), depth) + ActsAt(Since(b, c), depth)
  {
    assert Since(a, c) == Since(a, b) + Since(b, c);
    ActsAtConcat(Since(a, b), Since(b, c), depth);
  }

  lemma ActsNoted(before: seq<Note>, note: Note, after: seq<Note>, depth: nat)
    requires before + [note] <= after
    ensures ActsAt(Since(before, after), depth) ==
            (if note.Acted? && note.depth == depth then [note.reaction] else [])
            + ActsAt(Since(before + [note], after), depth)
  {
    ActsSince(before, before + [note], after, depth);
    assert Since(before, before + [note]) == [note];
    assert [note][..0] == [];
  }

  lemma {:induction false} ActsElsewhere(notes: seq<Note>, lo: nat, depth: nat)
    requires Within(notes, lo) && depth < lo
    ensures ActsAt(notes, depth) == []
  {
    if notes != [] { ActsElsewhere(notes[..|notes| - 1], lo, depth); }
  }

  /** A nested publish leaves no reaction at the publisher's own depth. */
  lemma NestedActs(on: Listeners, b: Bus, ev: Event)
    requires b.depth <= MAX_PUBLISH_DEPTH
    ensures ActsAt(Since(b.notes, Dispatch(on, b, ev).bus.notes), b.depth) == []
  {
    DispatchWithin(on, b, ev);
    ActsElsewhere(Since(b.notes, Dispatch(on, b, ev).bus.notes), b.depth + 1, b.depth);
  }

  lemma {:induction false} SilentRun(on: Listeners, b: Bus, ev: Event, script: Script)
    requires b.depth <= MAX_PUBLISH_DEPTH && Silent(script)
    ensures ActsAt(Since(b.notes, Run(on, b, ev, script).bus.notes), b.depth) == []
    decreases script
  {
    match script
    case Return =>
    case Throw =>
    case SetCancelled(value, rest) => SilentRun(on, b, ev.(cancelled := value), rest);
    case Edits(edits, rest) => SilentRun(on, b.(table := ApplyAll(b.table, edits)), ev, rest);
    case Publish(nested, ifClear, ifCancelled, ifRefused) =>
      var o := Dispatch(on, b, nested);
      var rest := Continuation(o, ifClear, ifCancelled, ifRefused);
      NestedActs(on, b, nested);
      SilentRun(on, o.bus, ev, rest);
      ActsSince(b.notes, o.bus.notes, Run(on, o.bus, ev, rest).bus.notes, b.depth);
  }

  /** After a behaviour the hit ends up claimed, with no further reaction of its own. */
  lemma AfterBehaviorRuns(on: Listeners, env: Env, b: Bus, ev: Event, s: nat, bh: Behavior)
    requires b.depth <= MAX_PUBLISH_DEPTH
    ensures var d := Run(on, b, ev, AfterBehavior(env, s, bh));
            d.event.cancelled && ActsAt(Since(b.notes, d.bus.notes), b.depth) == []
  {
    SilentRun(on, b, ev, AfterBehavior(env, s, bh));
    if bh.dialogue == "" {
      ClaimRuns(on, b, ev);
    } else {
      ClaimRuns(on, Dispatch(on, b, DialogueEvent(env, s, bh.dialogue)).bus, ev);
    }
  }

  lemma ClaimRuns(on: Listeners, b: Bus, ev: Event)
    ensures Run(on, b, ev, SetCancelled(true, Return)) == Delivery(b, ev.(cancelled := true))
  {
  }

  /** The voice-pack adapter: it reacts and claims, or leaves the hit to the fallback. */
  lemma MountedRuns(on: Listeners, env: Env, b: Bus, ev: Event, s: nat)
    requires b.depth <= MAX_PUBLISH_DEPTH && ev.instanceUuid == env.uuid(s)
    ensures var d := Run(on, b, ev, MountedScript(env, b.notes, s, ev));
            var left := ev.cancelled || Decide(env, b.notes, s, ev.payload).FellBack?;
            && ActsAt(Since(b.notes, d.bus.notes), b.depth) ==
               (if left then [] else [Decide(env, b.notes, s, ev.payload)])
            && d.event.cancelled == (ev.cancelled || !left)
  {
    var script := MountedScript(env, b.notes, s, ev);
    if script.Act? {
      var noted := Noted(b, Acted(b.depth, script.reaction));
      ActsNoted(b.notes, Acted(b.depth, script.reaction), Run(on, noted, ev, script.rest).bus.notes, b.depth);
      if script.reaction.Behaved? {
        AfterBehaviorRuns(on, env, noted, ev, s, env.behavior(b.notes, s, ev.payload).value);
      } else {
        SilentRun(on, noted, ev, script.rest);
        assert Run(on, noted, ev, script.rest) == Delivery(noted, ev.(cancelled := true));
      }
    } else {
      SilentRun(on, b, ev, script);
    }
  }

  /** The snapshot holds no adapter of the session with this id. */
  ghost predicate NoOwner(env: Env, uuid: string, snapshot: seq<Entry>) {
    forall i :: 0 <= i < |snapshot| ==>
      match snapshot[i].listener
      case MountedBehavior(s) => env.uuid(s) != uuid
      case InteractionFallback(s) => env.uuid(s) != uuid
      case _ => true
  }

  lemma BystanderActs(on: Listeners, env: Env, b: Bus, ev: Event, l: Listener)
    requires Wired(on, env) && b.depth <= MAX_PUBLISH_DEPTH
    requires l.MountedBehavior? || l.InteractionFallback? ==> env.uuid(l.session) != ev.instanceUuid
    ensures ActsAt(Since(b.notes, DeliverOne(on, b, ev, l).bus.notes), b.depth) == []
  {
    if l != NoListener {
      var note := Called(b.depth, ev.eventId, l, ev.cancelled);
      var called := Noted(b, note);
      var script := on(called.notes, l, ev);
      assert Silent(script);
      SilentRun(on, called, ev, script);
      ActsNoted(b.notes, note, Run(on, called, ev, script).bus.notes, b.depth);
    }
  }

  /** Listeners that do not belong to the hit session do nothing visible for this hit. */
  lemma {:induction false} BystandersAct(on: Listeners, env: Env, b: Bus, ev: Event, snapshot: seq<Entry>)
    requires Wired(on, env) && b.depth <= MAX_PUBLISH_DEPTH
    requires NoOwner(env, ev.instanceUuid, snapshot)
    ensures ActsAt(Since(b.notes, Deliver(on, b, ev, snapshot).bus.notes), b.depth) == []
    decreases |snapshot|
  {
    if snapshot != [] {
      var d := DeliverOne(on, b, ev, snapshot[0].listener);
      BystanderActs(on, env, b, ev, snapshot[0].listener);
      BystandersAct(on, env, d.bus, d.event, snapshot[1..]);
      ActsSince(b.notes, d.bus.notes, Deliver(on, d.bus, d.event, snapshot[1..]).bus.notes, b.depth);
    }
  }

  lemma {:induction false} DeliverConcat(on: Listeners, b: Bus, ev: Event, x: seq<Entry>, y: seq<Entry>)
    ensures var d := Deliver(on, b, ev, x);
            Deliver(on, b, ev, x + y) == Deliver(on, d.bus, d.event, y)
    decreases |x|
  {
    if x == [] {
      assert x + y == y;
    } else {
      var d := DeliverOne(on, b, ev, x[0].listener);
      DeliverConcat(on, d.bus, d.event, x[1..], y);
      assert (x + y)[1..] == x[1..] + y;
    }
  }

  /** What the voice-pack adapter was called with: everything noted up to and including its call. */
  ghost predicate CalledAt(before: seq<Note>, after: seq<Note>, depth: nat, s: nat,
                           seen: seq<Note>, cancelled: bool) {
    && before <= seen <= after && before < seen
    && seen[|seen| - 1] == Called(depth, HIT, MountedBehavior(s), cancelled)
  }

  /** Between two states, the reactions at `depth` are exactly the direct decision of session `s`,
      taken when its voice-pack adapter is called: none for a hit that arrives claimed, and a
      single one otherwise. */
  ghost predicate DecidedOnce(env: Env, before: seq<Note>, after: seq<Note>, depth: nat, s: nat, area: string)
    requires before <= after
  {
    exists seen, cancelled :: DecidedAt(env, before, after, depth, s, area, seen, cancelled)
  }

  ghost predicate DecidedAt(env: Env, before: seq<Note>, after: seq<Note>, depth: nat, s: nat, area: string,
                            seen: seq<Note>, cancelled: bool)
    requires before <= after
  {
    && CalledAt(before, after, depth, s, seen, cancelled)
    && ActsAt(Since(before, after), depth) == (if cancelled then [] else [Decide(env, seen, s, area)])
  }

  /** One call of each adapter, back to back. */
  lemma PairRuns(on: Listeners, env: Env, b: Bus, ev: Event, s: nat)
    requires Wired(on, env) && b.depth <= MAX_PUBLISH_DEPTH
    requires ev.eventId == HIT && ev.cancellable && ev.instanceUuid == env.uuid(s)
    ensures var d := Deliver(on, b, ev, [Mounted(s), Fallback(s)]);
            var seen := b.notes + [Called(b.depth, HIT, MountedBehavior(s), ev.cancelled)];
            DecidedAt(env, b.notes, d.bus.notes, b.depth, s, ev.payload, seen, ev.cancelled)
  {
    var one := DeliverOne(on, b, ev, MountedBehavior(s));
    MountedFirst(on, env, b, ev, s);
    FallbackRuns(on, env, one.bus, one.event, s);
    DeliverTwo(on, b, ev, Mounted(s), Fallback(s));
    var seen := b.notes + [Called(b.depth, HIT, MountedBehavior(s), ev.cancelled)];
    var after := DeliverOne(on, one.bus, one.event, InteractionFallback(s)).bus.notes;
    DecisionFallsBack(env, seen, s, ev.payload);
    PairActs(b.notes, one.bus.notes, after, b.depth, Decide(env, seen, s, ev.payload), s, ev.cancelled);
    CalledAtLater(b.notes, one.bus.notes, after, b.depth, s, seen, ev.cancelled);
  }

  lemma DecisionFallsBack(env: Env, notes: seq<Note>, s: nat, area: string)
    ensures Decide(env, notes, s, area).FellBack? ==> Decide(env, notes, s, area) == FellBack(s)
  {
  }

  /** The default reaction stands in for a decision that falls back. */
  lemma PairActs(before: seq<Note>, mid: seq<Note>, after: seq<Note>, depth: nat, decision: Reaction, s: nat,
                 posted: bool)
    requires before <= mid <= after && (decision.FellBack? ==> decision == FellBack(s))
    requires ActsAt(Since(before, mid), depth) == if posted || decision.FellBack? then [] else [decision]
    requires ActsAt(Since(mid, after), depth) == if posted || !decision.FellBack? then [] else [FellBack(s)]
    ensures ActsAt(Since(before, after), depth) == if posted then [] else [decision]
  {
    ActsSince(before, mid, after, depth);
  }

  lemma CalledAtLater(before: seq<Note>, mid: seq<Note>, after: seq<Note>, depth: nat, s: nat,
                      seen: seq<Note>, posted: bool)
    requires CalledAt(before, mid, depth, s, seen, posted) && mid <= after
    ensures CalledAt(before, after, depth, s, seen, posted)
  {
  }

  lemma DeliverTwo(on: Listeners, b: Bus, ev: Event, x: Entry, y: Entry)
    ensures var one := DeliverOne(on, b, ev, x.listener);
            Deliver(on, b, ev, [x, y]) == DeliverOne(on, one.bus, one.event, y.listener)
  {
    var one := DeliverOne(on, b, ev, x.listener);
    assert [x, y][1..] == [y];
    assert Deliver(on, one.bus, one.event, [y]) == DeliverOne(on, one.bus, one.event, y.listener);
  }

  lemma MountedFirst(on: Listeners, env: Env, b: Bus, ev: Event, s: nat)
    requires Wired(on, env) && b.depth <= MAX_PUBLISH_DEPTH
    requires ev.eventId == HIT && ev.cancellable && ev.instanceUuid == env.uuid(s)
    ensures var one := DeliverOne(on, b, ev, MountedBehavior(s));
            var seen := b.notes + [Called(b.depth, HIT, MountedBehavior(s), ev.cancelled)];
            var left := ev.cancelled || Decide(env, seen, s, ev.payload).FellBack?;
            && CalledAt(b.notes, one.bus.notes, b.depth, s, seen, ev.cancelled)
            && ActsAt(Since(b.notes, one.bus.notes), b.depth) ==
               (if left then [] else [Decide(env, seen, s, ev.payload)])
            && one.event.cancelled == (ev.cancelled || !left)
  {
    var note := Called(b.depth, HIT, MountedBehavior(s), ev.cancelled);
    var called := Noted(b, note);
    MountedRuns(on, env, called, ev, s);
    ActsNoted(b.notes, note, DeliverOne(on, b, ev, MountedBehavior(s)).bus.notes, b.depth);
  }

  lemma FallbackRuns(on: Listeners, env: Env, b: Bus, ev: Event, s: nat)
    requires Wired(on, env) && b.depth <= MAX_PUBLISH_DEPTH && ev.instanceUuid == env.uuid(s)
    ensures ActsAt(Since(b.notes, DeliverOne(on, b, ev, InteractionFallback(s)).bus.notes), b.depth) ==
            if ev.cancelled then [] else [FellBack(s)]
  {
    var note := Called(b.depth, ev.eventId, InteractionFallback(s), ev.cancelled);
    var called := Noted(b, note);
    var script := FallbackScript(env, s, ev);
    ActsNoted(b.notes, note, Run(on, called, ev, script).bus.notes, b.depth);
    if script.Act? {
      var noted := Noted(called, Acted(b.depth, FellBack(s)));
      SilentRun(on, noted, ev, Return);
      ActsNoted(called.notes, Acted(b.depth, FellBack(s)), Run(on, noted, ev, Return).bus.notes, b.depth);
    } else {
      SilentRun(on, called, ev, script);
    }
  }

  /** Around the pair, the snapshot holds no adapter of the hit session. */
  lemma NoOwnerAround(env: Env, es: seq<Entry>, s: nat, i: nat)
    requires NoDuplicates(es) && AdjacentAt(es, Mounted(s), Fallback(s), i)
    requires forall s, r :: env.uuid(s) == env.uuid(r) ==> s == r
    ensures NoOwner(env, env.uuid(s), es[..i]) && NoOwner(env, env.uuid(s), es[i + 2..])
  {
  }

  /** A cancellable hit of session `s`, published anywhere on a well-bound bus: an unbound session
      does nothing, a bound one takes its decision once, whatever the other listeners do. */
  lemma HitDecidedOnce(on: Listeners, env: Env, b: Bus, ev: Event, s: nat)
    requires Wired(on, env) && AllPaired(b.table) && b.depth < MAX_PUBLISH_DEPTH
    requires ev.eventId == HIT && ev.cancellable && ev.instanceUuid == env.uuid(s)
    ensures HitOutcome(env, b.notes, Dispatch(on, b, ev).bus.notes, b.depth + 1, s, ev.payload, Get(b.table, HIT))
  {
    var es := Get(b.table, HIT);
    var after := Dispatch(on, b, ev).bus.notes;
    assert after == Deliver(on, Entered(b), ev, es).bus.notes by {
      HitIsEventId();
      DispatchNotes(on, b, ev);
    }
    assert HitOutcome(env, b.notes, after, b.depth + 1, s, ev.payload, es) by {
      PairedNow(b.table, s);
      HitDelivered(on, env, Entered(b), ev, s, es);
    }
  }

  /** An unbound session does nothing, a bound one takes its decision once. */
  ghost predicate HitOutcome(env: Env, before: seq<Note>, after: seq<Note>, depth: nat, s: nat, area: string,
                             snapshot: seq<Entry>)
    requires before <= after
  {
    if Absent(snapshot, s) then ActsAt(Since(before, after), depth) == []
    else DecidedOnce(env, before, after, depth, s, area)
  }

  lemma PairedNow(t: Table, s: nat)
    requires AllPaired(t)
    ensures NoDuplicates(Get(t, HIT)) && Paired(Get(t, HIT), s)
  {
  }

  /** What a dispatch below the cap notes is what its snapshot delivery notes. */
  lemma DispatchNotes(on: Listeners, b: Bus, ev: Event)
    requires EventId.IsEventId(ev.eventId) && b.depth < MAX_PUBLISH_DEPTH
    ensures Dispatch(on, b, ev).bus.notes == Deliver(on, Entered(b), ev, Get(b.table, ev.eventId)).bus.notes
  {
  }

  lemma HitDelivered(on: Listeners, env: Env, b: Bus, ev: Event, s: nat, es: seq<Entry>)
    requires Wired(on, env) && b.depth <= MAX_PUBLISH_DEPTH && NoDuplicates(es) && Paired(es, s)
    requires ev.eventId == HIT && ev.cancellable && ev.instanceUuid == env.uuid(s)
    ensures HitOutcome(env, b.notes, Deliver(on, b, ev, es).bus.notes, b.depth, s, ev.payload, es)
  {
    if Absent(es, s) {
      HitUnbound(on, env, b, ev, s, es);
    } else {
      HitBound(on, env, b, ev, s, es);
    }
  }

  lemma HitUnbound(on: Listeners, env: Env, b: Bus, ev: Event, s: nat, es: seq<Entry>)
    requires Wired(on, env) && b.depth <= MAX_PUBLISH_DEPTH
    requires ev.instanceUuid == env.uuid(s) && Absent(es, s)
    ensures ActsAt(Since(b.notes, Deliver(on, b, ev, es).bus.notes), b.depth) == []
  {
    NoOwnerAbsent(env, es, s);
    BystandersAct(on, env, b, ev, es);
  }

  lemma HitBound(on: Listeners, env: Env, b: Bus, ev: Event, s: nat, es: seq<Entry>)
    requires Wired(on, env) && b.depth <= MAX_PUBLISH_DEPTH && NoDuplicates(es)
    requires ev.eventId == HIT && ev.cancellable && ev.instanceUuid == env.uuid(s)
    requires Adjacent(es, Mounted(s), Fallback(s))
    ensures DecidedOnce(env, b.notes, Deliver(on, b, ev, es).bus.notes, b.depth, s, ev.payload)
  {
    var i: nat :| AdjacentAt(es, Mounted(s), Fallback(s), i);
    PairInContext(on, env, b, ev, s, es, i);
  }

  lemma NoOwnerAbsent(env: Env, es: seq<Entry>, s: nat)
    requires Absent(es, s)
    requires forall s, r :: env.uuid(s) == env.uuid(r) ==> s == r
    ensures NoOwner(env, env.uuid(s), es)
  {
    forall i | 0 <= i < |es| ensures es[i].listener != MountedBehavior(s) && es[i].listener != InteractionFallback(s) {
      assert es[i] in es;
    }
  }

  lemma PairInContext(on: Listeners, env: Env, b: Bus, ev: Event, s: nat, es: seq<Entry>, i: nat)
    requires Wired(on, env) && b.depth <= MAX_PUBLISH_DEPTH && NoDuplicates(es)
    requires ev.eventId == HIT && ev.cancellable && ev.instanceUuid == env.uuid(s)
    requires AdjacentAt(es, Mounted(s), Fallback(s), i)
    ensures DecidedOnce(env, b.notes, Deliver(on, b, ev, es).bus.notes, b.depth, s, ev.payload)
  {
    var pair := [Mounted(s), Fallback(s)];
    assert es == es[..i] + (pair + es[i + 2..]);
    var x := Deliver(on, b, ev, es[..i]);
    var y := Deliver(on, x.bus, x.event, pair);
    var z := Deliver(on, y.bus, y.event, es[i + 2..]);
    assert Deliver(on, b, ev, es) == z by {
      DeliverConcat(on, b, ev, es[..i], pair + es[i + 2..]);
      DeliverConcat(on, x.bus, x.event, pair, es[i + 2..]);
    }
    NoOwnerAround(env, es, s, i);
    BystandersAct(on, env, b, ev, es[..i]);
    PairRuns(on, env, x.bus, x.event, s);
    BystandersAct(on, env, y.bus, y.event, es[i + 2..]);
    var seen := x.bus.notes + [Called(b.depth, HIT, MountedBehavior(s), x.event.cancelled)];
    DecidedWithin(env, b.notes, x.bus.notes, y.bus.notes, z.bus.notes, b.depth, s, ev.payload,
                  seen, x.event.cancelled);
  }

  /** Stretches without a reaction at that depth leave the decision the only one. */
  lemma DecidedWithin(env: Env, before: seq<Note>, x: seq<Note>, y: seq<Note>, after: seq<Note>, depth: nat, s: nat,
                      area: string, seen: seq<Note>, cancelled: bool)
    requires before <= x <= y <= after && DecidedAt(env, x, y, depth, s, area, seen, cancelled)
    requires ActsAt(Since(before, x), depth) == [] && ActsAt(Since(y, after), depth) == []
    ensures DecidedAt(env, before, after, depth, s, area, seen, cancelled)
  {
    ActsSince(before, x, after, depth);
    ActsSince(x, y, after, depth);
    CalledAtLater(x, y, after, depth, s, seen, cancelled);
  }

  /** The pairs stay together through every dispatch. */
  lemma DispatchKeepsPaired(on: Listeners, env: Env, b: Bus, ev: Event)
    requires Wired(on, env) && AllPaired(b.table)
    ensures AllPaired(Dispatch(on, b, ev).bus.table)
  {
    var inv := (t: Table) => AllPaired(t);
    forall t, edits | inv(t) && Allowed(edits) ensures inv(ApplyAll(t, edits)) {
      AllowedKeepsPaired(t, edits);
    }
    DispatchKeeps(on, b, ev, inv, edits => Allowed(edits));
  }

  // ----- the cooldown over whole runs ----------------------------------------------------

  predicate IsBehavior(note: Note, s: nat) {
    note.Acted? && note.reaction.Behaved? && note.reaction.session == s
  }

  /** The behaviour was built for an area of the hit session's voice pack, and arms the cooldown for the
      length of its audio, or for 4000 ms when that is unknown. */
  ghost predicate ArmedFor(env: Env, seen: seq<Note>, r: Reaction)
    requires r.Behaved?
  {
    exists area ::
      && env.hasGroup(seen, r.session, area)
      && env.behavior(seen, r.session, area).Some?
      && r.at == env.clock(seen)
      && r.until - r.at == (var ms := env.behavior(seen, r.session, area).value.audioMs; if ms > 0 then ms else 4000)
  }

  ghost predicate Armed(env: Env, notes: seq<Note>) {
    forall j :: 0 <= j < |notes| && notes[j].Acted? && notes[j].reaction.Behaved? ==>
      ArmedFor(env, notes[..j], notes[j].reaction)
  }

  /** Every behaviour arms its window when it is sent, and starts no earlier than the end of each earlier
      window of its session. */
  ghost predicate Spaced(env: Env, notes: seq<Note>) {
    && Armed(env, notes)
    && (forall j, s :: 0 <= j < |notes| && IsBehavior(notes[j], s) ==>
          notes[j].reaction.at < notes[j].reaction.until)
    && (forall i, j, s :: 0 <= i < j < |notes| && IsBehavior(notes[i], s) && IsBehavior(notes[j], s) ==>
          notes[i].reaction.until <= notes[j].reaction.at)
  }

  lemma SpacedPrefix(env: Env, notes: seq<Note>, prefix: seq<Note>)
    requires Spaced(env, notes) && prefix <= notes
    ensures Spaced(env, prefix)
  {
    forall j | 0 <= j < |prefix| && prefix[j].Acted? && prefix[j].reaction.Behaved?
      ensures ArmedFor(env, prefix[..j], prefix[j].reaction)
    {
      assert prefix[..j] == notes[..j];
    }
  }

  /** The cooldown field covers every earlier window. */
  lemma {:induction false} LatestCovers(env: Env, notes: seq<Note>, s: nat, from: int, i: nat)
    requires Spaced(env, notes) && i < |notes| && IsBehavior(notes[i], s)
    ensures notes[i].reaction.until <= Latest(notes, s, from)
  {
    var n := |notes| - 1;
    if !IsBehavior(notes[n], s) {
      SpacedPrefix(env, notes, notes[..n]);
      LatestCovers(env, notes[..n], s, from, i);
    }
  }

  lemma ActiveUntilCovers(env: Env, notes: seq<Note>, s: nat, i: nat)
    requires Spaced(env, notes) && i < |notes| && IsBehavior(notes[i], s)
    ensures notes[i].reaction.until <= ActiveUntil(env, notes, s)
  {
    LatestCovers(env, notes, s, env.brought(s), i);
  }

  /** A hit that matches a group inside any earlier window of its session, or inside the cooldown it
      brought along, is decided as swallowed. */
  ghost predicate InsideWindow(env: Env, notes: seq<Note>, s: nat) {
    env.clock(notes) < env.brought(s)
    || exists i :: 0 <= i < |notes| && IsBehavior(notes[i], s) && env.clock(notes) < notes[i].reaction.until
  }

  lemma InsideWindowSwallowed(env: Env, notes: seq<Note>, s: nat, area: string)
    requires Spaced(env, notes) && env.hasGroup(notes, s, area) && InsideWindow(env, notes, s)
    ensures Decide(env, notes, s, area) == Swallowed(s)
  {
    if i :| 0 <= i < |notes| && IsBehavior(notes[i], s) && env.clock(notes) < notes[i].reaction.until {
      ActiveUntilCovers(env, notes, s, i);
    }
  }

  lemma SpacedPlain(env: Env, notes: seq<Note>, note: Note)
    requires Spaced(env, notes) && !(note.Acted? && note.reaction.Behaved?)
    ensures Spaced(env, notes + [note])
  {
    ArmedSnoc(env, notes, note);
  }

  lemma ArmedSnoc(env: Env, notes: seq<Note>, note: Note)
    requires Armed(env, notes)
    requires note.Acted? && note.reaction.Behaved? ==> ArmedFor(env, notes, note.reaction)
    ensures Armed(env, notes + [note])
  {
    var all := notes + [note];
    forall j | 0 <= j < |all| && all[j].Acted? && all[j].reaction.Behaved?
      ensures ArmedFor(env, all[..j], all[j].reaction)
    {
      assert all[..j] == notes[..j];
      if j == |notes| { assert notes[..j] == notes; }
    }
  }

  lemma SpacedBehavior(env: Env, notes: seq<Note>, note: Note, s: nat)
    requires Spaced(env, notes) && IsBehavior(note, s)
    requires ActiveUntil(env, notes, s) <= note.reaction.at < note.reaction.until
    requires ArmedFor(env, notes, note.reaction)
    ensures Spaced(env, notes + [note])
  {
    ArmedSnoc(env, notes, note);
    forall i | 0 <= i < |notes| && IsBehavior(notes[i], s)
      ensures notes[i].reaction.until <= note.reaction.at
    {
      ActiveUntilCovers(env, notes, s, i);
    }
  }

  /** Every behaviour arms a window of its own audio length, or 4000 ms, and two behaviours of one session
      are at least the first one's window apart, over every dispatch on every bus, whatever the listeners
      do and however time is told. */
  lemma {:induction false} DispatchSpaced(on: Listeners, env: Env, b: Bus, ev: Event)
    requires Wired(on, env) && Spaced(env, b.notes)
    ensures Spaced(env, Dispatch(on, b, ev).bus.notes)
    decreases Room(b.depth), 0
  {
    if GoesOut(b, ev) {
      DeliverSpaced(on, env, Entered(b), ev, Get(b.table, ev.eventId));
    }
  }

  lemma {:induction false} DeliverSpaced(on: Listeners, env: Env, b: Bus, ev: Event, snapshot: seq<Entry>)
    requires Wired(on, env) && Spaced(env, b.notes)
    ensures Spaced(env, Deliver(on, b, ev, snapshot).bus.notes)
    decreases Room(b.depth), 3, |snapshot|
  {
    if snapshot != [] {
      var d := DeliverOne(on, b, ev, snapshot[0].listener);
      DeliverOneSpaced(on, env, b, ev, snapshot[0].listener);
      DeliverSpaced(on, env, d.bus, d.event, snapshot[1..]);
    }
  }

  lemma {:induction false} DeliverOneSpaced(on: Listeners, env: Env, b: Bus, ev: Event, l: Listener)
    requires Wired(on, env) && Spaced(env, b.notes)
    ensures Spaced(env, DeliverOne(on, b, ev, l).bus.notes)
    decreases Room(b.depth), 2
  {
    if l != NoListener {
      var note := Called(b.depth, ev.eventId, l, ev.cancelled);
      var called := Noted(b, note);
      SpacedPlain(env, b.notes, note);
      match l
      case MountedBehavior(s) => MountedSpaced(on, env, called, ev, s);
      case InteractionFallback(s) => FallbackSpaced(on, env, called, ev, s);
      case Plugin(id) => SilentSpaced(on, env, called, ev, on(called.notes, l, ev));
    }
  }

  lemma FallbackSpaced(on: Listeners, env: Env, b: Bus, ev: Event, s: nat)
    requires Spaced(env, b.notes)
    ensures Spaced(env, Run(on, b, ev, FallbackScript(env, s, ev)).bus.notes)
  {
    var note := Acted(b.depth, FellBack(s));
    SpacedPlain(env, b.notes, note);
    assert Run(on, Noted(b, note), ev, Return).bus.notes == b.notes + [note];
  }

  lemma MountedArms(env: Env, notes: seq<Note>, s: nat, ev: Event)
    requires var script := MountedScript(env, notes, s, ev); script.Act? && script.reaction.Behaved?
    ensures var r := MountedScript(env, notes, s, ev).reaction;
            r.session == s && ArmedFor(env, notes, r) && ActiveUntil(env, notes, s) <= r.at < r.until
  {
    assert env.hasGroup(notes, s, ev.payload);
  }

  lemma {:induction false} MountedSpaced(on: Listeners, env: Env, b: Bus, ev: Event, s: nat)
    requires Wired(on, env) && Spaced(env, b.notes)
    ensures Spaced(env, Run(on, b, ev, MountedScript(env, b.notes, s, ev)).bus.notes)
    decreases Room(b.depth), 1, Return
  {
    var script := MountedScript(env, b.notes, s, ev);
    if script.Act? {
      var note := Acted(b.depth, script.reaction);
      if script.reaction.Behaved? {
        var bh := env.behavior(b.notes, s, ev.payload).value;
        MountedArms(env, b.notes, s, ev);
        SpacedBehavior(env, b.notes, note, s);
        if bh.dialogue != "" {
          DispatchSpaced(on, env, Noted(b, note), DialogueEvent(env, s, bh.dialogue));
        }
        LineRuns(on, env, Noted(b, note), ev, s, bh);
      } else {
        SpacedPlain(env, b.notes, note);
        ClaimRuns(on, Noted(b, note), ev);
      }
    }
  }

  lemma {:induction false} SilentSpaced(on: Listeners, env: Env, b: Bus, ev: Event, script: Script)
    requires Wired(on, env) && Spaced(env, b.notes) && Silent(script)
    ensures Spaced(env, Run(on, b, ev, script).bus.notes)
    decreases Room(b.depth), 1, script
  {
    match script
    case Return =>
    case Throw =>
    case SetCancelled(value, rest) => SilentSpaced(on, env, b, ev.(cancelled := value), rest);
    case Edits(edits, rest) => SilentSpaced(on, env, b.(table := ApplyAll(b.table, edits)), ev, rest);
    case Publish(nested, ifClear, ifCancelled, ifRefused) =>
      var o := Dispatch(on, b, nested);
      DispatchSpaced(on, env, b, nested);
      SilentSpaced(on, env, o.bus, ev, Continuation(o, ifClear, ifCancelled, ifRefused));
  }

  // ----- a hit inside a window -----------------------------------------------------------

  predicate Distinct(targets: seq<Listener>) {
    forall i, j :: 0 <= i < j < |targets| ==> targets[i] != targets[j]
  }

  /** What one call leaves at its own depth: a listener is called there once, so the call that a later
      reader finds is that one. */
  lemma CalledOnce(before: seq<Note>, after: seq<Note>, depth: nat, channel: string, targets: seq<Listener>,
                   x: seq<Note>, y: seq<Note>)
    requires before < x <= after && before < y <= after
    requires CallsTo(CallsAt(Since(before, after), depth), channel, targets)
    requires Distinct(targets)
    requires x[|x| - 1].Called? && y[|y| - 1].Called? && x[|x| - 1].depth == y[|y| - 1].depth == depth
    requires x[|x| - 1].listener == y[|y| - 1].listener
    ensures x == y
  {
    if |x| == |y| {
      assert x == after[..|x|] == y;
    } else if |x| < |y| {
      CalledTwice(before, after, depth, x, y);
    } else {
      CalledTwice(before, after, depth, y, x);
    }
  }

  /** Two calls at one depth are two entries of the list of calls at that depth. */
  lemma CalledTwice(before: seq<Note>, after: seq<Note>, depth: nat, x: seq<Note>, y: seq<Note>)
    requires before < x < y <= after
    requires x[|x| - 1].Called? && y[|y| - 1].Called? && x[|x| - 1].depth == y[|y| - 1].depth == depth
    ensures var calls := CallsAt(Since(before, after), depth);
            exists i, j :: 0 <= i < j < |calls| && calls[i] == x[|x| - 1] && calls[j] == y[|y| - 1]
  {
    var calls := CallsAt(Since(before, after), depth);
    var m, n := |x| - 1, |y| - 1;
    var a, b, c := after[|before|..m], after[m + 1..n], after[n + 1..];
    assert Since(before, after) == a + [after[m]] + b + [after[n]] + c;
    CallsAtConcat(a + [after[m]] + b + [after[n]], c, depth);
    CallsAtConcat(a + [after[m]] + b, [after[n]], depth);
    CallsAtConcat(a + [after[m]], b, depth);
    CallsAtConcat(a, [after[m]], depth);
    SingleCall(after[m], depth);
    SingleCall(after[n], depth);
    var i := |CallsAt(a, depth)|;
    var j := i + 1 + |CallsAt(b, depth)|;
    assert calls == CallsAt(a, depth) + [after[m]] + CallsAt(b, depth) + [after[n]] + CallsAt(c, depth);
    assert calls[i] == after[m] && calls[j] == after[n];
  }

  lemma SingleCall(note: Note, depth: nat)
    requires note.Called? && note.depth == depth
    ensures CallsAt([note], depth) == [note]
  {
    assert [note][..0] == [];
  }

  lemma {:induction false} TargetsSubscribed(es: seq<Entry>, l: Listener)
    requires l in Targets(es)
    ensures exists k :: 0 <= k < |es| && es[k].listener == l
  {
    if l == es[0].listener {
    } else {
      TargetsSubscribed(es[1..], l);
      var k :| 0 <= k < |es[1..]| && es[1..][k].listener == l;
      assert es[k + 1].listener == l;
    }
  }

  lemma {:induction false} TargetsDistinct(es: seq<Entry>)
    requires NoDuplicates(es)
    ensures Distinct(Targets(es))
  {
    if es != [] {
      TargetsDistinct(es[1..]);
      var first, rest := es[0].listener, Targets(es[1..]);
      if first in rest {
        TargetsSubscribed(es[1..], first);
        assert false;
      }
      assert Targets(es) == if first == NoListener then rest else [first] + rest;
      DistinctCons(first, rest);
    }
  }

  lemma DistinctCons(first: Listener, rest: seq<Listener>)
    requires Distinct(rest) && first !in rest
    ensures Distinct([first] + rest)
  {
  }

  /** The voice-pack adapter is called once at that depth. */
  lemma SameCall(before: seq<Note>, after: seq<Note>, depth: nat, s: nat, targets: seq<Listener>,
                 x: seq<Note>, xCancelled: bool, y: seq<Note>, yCancelled: bool)
    requires before <= after
    requires CallsTo(CallsAt(Since(before, after), depth), HIT, targets) && Distinct(targets)
    requires CalledAt(before, after, depth, s, x, xCancelled) && CalledAt(before, after, depth, s, y, yCancelled)
    ensures x == y && xCancelled == yCancelled
  {
    CalledOnce(before, after, depth, HIT, targets, x, y);
  }

  /** The decision is the one taken at the call of the voice-pack adapter that anybody finds. */
  lemma TheCall(env: Env, before: seq<Note>, after: seq<Note>, depth: nat, s: nat, area: string,
                targets: seq<Listener>, seen: seq<Note>)
    requires before <= after && DecidedOnce(env, before, after, depth, s, area)
    requires CallsTo(CallsAt(Since(before, after), depth), HIT, targets) && Distinct(targets)
    requires CalledAt(before, after, depth, s, seen, false)
    ensures ActsAt(Since(before, after), depth) == [Decide(env, seen, s, area)]
  {
    var call, cancelled :| DecidedAt(env, before, after, depth, s, area, call, cancelled);
    SameCall(before, after, depth, s, targets, seen, false, call, cancelled);
  }

  /** A hit that reaches the voice-pack adapter of a bound session unclaimed gets that one reaction. */
  lemma UnclaimedHitDecided(on: Listeners, env: Env, b: Bus, ev: Event, s: nat, seen: seq<Note>)
    requires Wired(on, env) && AllPaired(b.table) && b.depth < MAX_PUBLISH_DEPTH
    requires ev.eventId == HIT && ev.cancellable && ev.instanceUuid == env.uuid(s)
    requires !Absent(Get(b.table, HIT), s)
    requires CalledAt(b.notes, Dispatch(on, b, ev).bus.notes, b.depth + 1, s, seen, false)
    ensures ActsAt(Since(b.notes, Dispatch(on, b, ev).bus.notes), b.depth + 1) == [Decide(env, seen, s, ev.payload)]
  {
    HitDecidedOnce(on, env, b, ev, s);
    HitCalls(on, b, ev, s);
    PairedNow(b.table, s);
    TargetsDistinct(Get(b.table, HIT));
    TheCall(env, b.notes, Dispatch(on, b, ev).bus.notes, b.depth + 1, s, ev.payload, Targets(Get(b.table, HIT)), seen);
  }

  /** A hit on a bound session that reaches its voice-pack adapter unclaimed, in an area of the pack,
      and inside any earlier window of the session, is swallowed: the swallowing is the only reaction,
      neither default reaction comes, whatever the other listeners do. */
  lemma HitInsideWindowSwallowed(on: Listeners, env: Env, b: Bus, ev: Event, s: nat, seen: seq<Note>)
    requires Wired(on, env) && AllPaired(b.table) && Spaced(env, b.notes) && b.depth < MAX_PUBLISH_DEPTH
    requires ev.eventId == HIT && ev.cancellable && ev.instanceUuid == env.uuid(s)
    requires !Absent(Get(b.table, HIT), s)
    requires CalledAt(b.notes, Dispatch(on, b, ev).bus.notes, b.depth + 1, s, seen, false)
    requires env.hasGroup(seen, s, ev.payload) && InsideWindow(env, seen, s)
    ensures ActsAt(Since(b.notes, Dispatch(on, b, ev).bus.notes), b.depth + 1) == [Swallowed(s)]
  {
    UnclaimedHitDecided(on, env, b, ev, s, seen);
    DispatchSpaced(on, env, b, ev);
    SpacedPrefix(env, Dispatch(on, b, ev).bus.notes, seen);
    InsideWindowSwallowed(env, seen, s, ev.payload);
  }

  /** The cooldown runs exactly inside the windows. */
  lemma {:induction false} CooldownIsWindows(env: Env, notes: seq<Note>, s: nat)
    requires Spaced(env, notes)
    ensures env.clock(notes) < ActiveUntil(env, notes, s) <==> InsideWindow(env, notes, s)
  {
    LatestIsSome(notes, s, env.brought(s));
    if i :| 0 <= i < |notes| && IsBehavior(notes[i], s) && env.clock(notes) < notes[i].reaction.until {
      ActiveUntilCovers(env, notes, s, i);
    }
  }

  lemma {:induction false} LatestIsSome(notes: seq<Note>, s: nat, from: int)
    ensures Latest(notes, s, from) == from
            || exists i :: 0 <= i < |notes| && IsBehavior(notes[i], s) && notes[i].reaction.until == Latest(notes, s, from)
  {
    if notes != [] {
      var n := |notes| - 1;
      if !IsBehavior(notes[n], s) {
        LatestIsSome(notes[..n], s, from);
        if i :| 0 <= i < n && IsBehavior(notes[..n][i], s) && notes[..n][i].reaction.until == Latest(notes[..n], s, from) {
          assert IsBehavior(notes[i], s);
        }
      }
    }
  }

  /** The reaction by the windows of earlier behaviours, case by case: the default reaction outside the
      areas of the pack, also inside a window; nothing inside a window; else the built behaviour with a
      window of its audio length, or the default reaction when none can be built. */
  ghost function ByWindows(env: Env, notes: seq<Note>, s: nat, area: string): Reaction {
    var now, built := env.clock(notes), env.behavior(notes, s, area);
    if !env.hasGroup(notes, s, area) then FellBack(s)
    else if InsideWindow(env, notes, s) then Swallowed(s)
    else if built.None? then FellBack(s)
    else Played(s, built.value, now)
  }

  lemma DecisionIs(env: Env, notes: seq<Note>, s: nat, area: string)
    requires Spaced(env, notes)
    ensures Decide(env, notes, s, area) == ByWindows(env, notes, s, area)
  {
    CooldownIsWindows(env, notes, s);
  }

  /** An unclaimed hit of a bound session gets that reaction and no other. */
  lemma HitReaction(on: Listeners, env: Env, b: Bus, ev: Event, s: nat, seen: seq<Note>)
    requires Wired(on, env) && AllPaired(b.table) && Spaced(env, b.notes) && b.depth < MAX_PUBLISH_DEPTH
    requires ev.eventId == HIT && ev.cancellable && ev.instanceUuid == env.uuid(s)
    requires !Absent(Get(b.table, HIT), s)
    requires CalledAt(b.notes, Dispatch(on, b, ev).bus.notes, b.depth + 1, s, seen, false)
    ensures ActsAt(Since(b.notes, Dispatch(on, b, ev).bus.notes), b.depth + 1) == [ByWindows(env, seen, s, ev.payload)]
  {
    UnclaimedHitDecided(on, env, b, ev, s, seen);
    SeenSpaced(on, env, b, ev, seen);
    DecisionIs(env, seen, s, ev.payload);
  }

  lemma SeenSpaced(on: Listeners, env: Env, b: Bus, ev: Event, seen: seq<Note>)
    requires Wired(on, env) && Spaced(env, b.notes) && seen <= Dispatch(on, b, ev).bus.notes
    ensures Spaced(env, seen)
  {
    DispatchSpaced(on, env, b, ev);
    SpacedPrefix(env, Dispatch(on, b, ev).bus.notes, seen);
  }

  /** A behaviour sent now, with the length of its audio as its window, or 4000 ms. */
  function Played(s: nat, built: Behavior, now: int): Reaction {
    Behaved(s, now, now + if built.audioMs > 0 then built.audioMs else 4000)
  }

  /** The line of a behaviour, when it has one, goes out to the listeners of dialogue as a notice of the
      host. */
  function Spoken(on: Listeners, b: Bus, uuid: string, text: string): Bus {
    if text == "" then b else Dispatch(on, b, Event("pet.instance.dialogue", uuid, "host", false, false, text)).bus
  }

  /** The call of the voice-pack adapter of a session, for a hit outside every window with a behaviour to
      build: the behaviour is noted with its window, then its line is spoken, then the hit is claimed. */
  lemma BehaviorRuns(on: Listeners, env: Env, b: Bus, ev: Event, s: nat)
    requires Wired(on, env) && Spaced(env, b.notes) && ev.instanceUuid == env.uuid(s) && !ev.cancelled && ev.cancellable
    requires var seen := b.notes + [Called(b.depth, ev.eventId, MountedBehavior(s), false)];
             && env.hasGroup(seen, s, ev.payload) && !InsideWindow(env, seen, s)
             && env.behavior(seen, s, ev.payload).Some?
    ensures var seen := b.notes + [Called(b.depth, ev.eventId, MountedBehavior(s), false)];
            var built := env.behavior(seen, s, ev.payload).value;
            var acted := b.(notes := seen + [Acted(b.depth, Played(s, built, env.clock(seen)))]);
            DeliverOne(on, b, ev, MountedBehavior(s)) ==
            Delivery(Spoken(on, acted, env.uuid(s), built.dialogue), ev.(cancelled := true))
  {
    var note := Called(b.depth, ev.eventId, MountedBehavior(s), false);
    SpacedPlain(env, b.notes, note);
    CooldownIsWindows(env, b.notes + [note], s);
    BehaviorScript(on, env, Noted(b, note), ev, s);
  }

  lemma BehaviorScript(on: Listeners, env: Env, b: Bus, ev: Event, s: nat)
    requires ev.instanceUuid == env.uuid(s) && !ev.cancelled
    requires env.hasGroup(b.notes, s, ev.payload) && env.clock(b.notes) >= ActiveUntil(env, b.notes, s)
    requires env.behavior(b.notes, s, ev.payload).Some?
    ensures var built := env.behavior(b.notes, s, ev.payload).value;
            var acted := Noted(b, Acted(b.depth, Played(s, built, env.clock(b.notes))));
            Run(on, b, ev, MountedScript(env, b.notes, s, ev)) ==
            Delivery(Spoken(on, acted, env.uuid(s), built.dialogue), ev.(cancelled := true))
  {
    var built := env.behavior(b.notes, s, ev.payload).value;
    PlayScript(env, b.notes, s, ev);
    ActRuns(on, b, ev, Played(s, built, env.clock(b.notes)), AfterBehavior(env, s, built));
    LineRuns(on, env, Noted(b, Acted(b.depth, Played(s, built, env.clock(b.notes)))), ev, s, built);
  }

  lemma ActRuns(on: Listeners, b: Bus, ev: Event, r: Reaction, rest: Script)
    ensures Run(on, b, ev, Act(r, rest)) == Run(on, Noted(b, Acted(b.depth, r)), ev, rest)
  {
  }

  lemma PlayScript(env: Env, notes: seq<Note>, s: nat, ev: Event)
    requires ev.instanceUuid == env.uuid(s) && !ev.cancelled
    requires env.hasGroup(notes, s, ev.payload) && env.clock(notes) >= ActiveUntil(env, notes, s)
    requires env.behavior(notes, s, ev.payload).Some?
    ensures var built := env.behavior(notes, s, ev.payload).value;
            MountedScript(env, notes, s, ev) == Act(Played(s, built, env.clock(notes)), AfterBehavior(env, s, built))
  {
  }

  lemma LineRuns(on: Listeners, env: Env, b: Bus, ev: Event, s: nat, built: Behavior)
    ensures Run(on, b, ev, AfterBehavior(env, s, built)) ==
            Delivery(Spoken(on, b, env.uuid(s), built.dialogue), ev.(cancelled := true))
  {
    if built.dialogue == "" {
      ClaimRuns(on, b, ev);
    } else {
      ClaimRuns(on, Dispatch(on, b, DialogueEvent(env, s, built.dialogue)).bus, ev);
    }
  }

  /** A hit that the voice pack took, with no later plugin writing the flag, returns claimed. */
  lemma TakenHitReturnsClaimed(on: Listeners, env: Env, b: Bus, ev: Event, s: nat, seen: seq<Note>)
    requires Wired(on, env) && b.depth < MAX_PUBLISH_DEPTH
    requires ev.eventId == HIT && ev.cancellable && ev.instanceUuid == env.uuid(s)
    requires CalledAt(b.notes, Dispatch(on, b, ev).bus.notes, b.depth + 1, s, seen, false)
    requires !Decide(env, seen, s, ev.payload).FellBack?
    requires PluginsKeep(on, seen, Dispatch(on, b, ev).bus.notes, b.depth + 1, ev, true)
    ensures Dispatch(on, b, ev).event.cancelled
  {
    TakingClaims(on, env, seen, s, ev);
    DispatchPasses(on, b, ev, seen, true);
    AllKeep(on, env, seen, Dispatch(on, b, ev).bus.notes, b.depth + 1, ev);
    KeptReturns(on, b, ev, seen, true);
  }

  lemma TakingClaims(on: Listeners, env: Env, seen: seq<Note>, s: nat, ev: Event)
    requires Wired(on, env) && ev.instanceUuid == env.uuid(s) && !Decide(env, seen, s, ev.payload).FellBack?
    ensures Leaves(on(seen, MountedBehavior(s), ev.(cancelled := false)), false, true)
  {
  }

  lemma AllKeep(on: Listeners, env: Env, from: seq<Note>, after: seq<Note>, depth: nat, ev: Event)
    requires Wired(on, env) && PluginsKeep(on, from, after, depth, ev, true)
    ensures Kept(on, from, after, depth, ev, true)
  {
    forall x: seq<Note> | CallAt(from, after, depth, x)
      ensures Leaves(on(x, x[|x| - 1].listener, ev.(cancelled := true)), true, true)
    {
      if IsAdapter(x[|x| - 1].listener) { AdaptersKeep(on, env, x, x[|x| - 1].listener, ev); }
    }
  }

  predicate IsAdapter(l: Listener) { l.MountedBehavior? || l.InteractionFallback? }

  /** The other listeners called after `from` do not write the flag, or write the value it has. */
  ghost predicate PluginsKeep(on: Listeners, from: seq<Note>, after: seq<Note>, depth: nat, ev: Event, v: bool) {
    forall x: seq<Note> :: CallAt(from, after, depth, x) && !IsAdapter(x[|x| - 1].listener) ==>
      Leaves(on(x, x[|x| - 1].listener, ev.(cancelled := v)), v, v)
  }

  /** The adapters leave a claimed hit alone. */
  lemma AdaptersKeep(on: Listeners, env: Env, x: seq<Note>, l: Listener, ev: Event)
    requires Wired(on, env) && IsAdapter(l)
    ensures Leaves(on(x, l, ev.(cancelled := true)), true, true)
  {
  }

  lemma HitCalls(on: Listeners, b: Bus, ev: Event, s: nat)
    requires AllPaired(b.table) && b.depth < MAX_PUBLISH_DEPTH && ev.eventId == HIT
    requires !Absent(Get(b.table, HIT), s)
    ensures CallsTo(CallsAt(Since(b.notes, Dispatch(on, b, ev).bus.notes), b.depth + 1), HIT, Targets(Get(b.table, HIT)))
  {
    HitIsEventId();
    DispatchCallsEachOnce(on, b, ev);
  }

  // ----- whole runs of the host ----------------------------------------------------------

  /** What the host does from outside any dispatch. */
  datatype HostStep = HostEdits(edits: seq<Edit>) | HostPublish(event: Event)

  function HostRun(on: Listeners, steps: seq<HostStep>): Bus {
    if steps == [] then Bus(map[], 0, [])
    else
      var b := HostRun(on, steps[..|steps| - 1]);
      match steps[|steps| - 1]
      case HostEdits(edits) => b.(table := ApplyAll(b.table, edits))
      case HostPublish(event) => Dispatch(on, b, event).bus
  }

  /** In every reachable state the pairs are adjacent, behaviours are spaced and the depth is 0. */
  lemma {:induction false} EveryHostRun(on: Listeners, env: Env, steps: seq<HostStep>)
    requires Wired(on, env)
    requires forall i :: 0 <= i < |steps| && steps[i].HostEdits? ==> Allowed(steps[i].edits)
    ensures var b := HostRun(on, steps);
            AllPaired(b.table) && Spaced(env, b.notes) && b.depth == 0
  {
    if steps != [] {
      var n := |steps| - 1;
      EveryHostRun(on, env, steps[..n]);
      var b := HostRun(on, steps[..n]);
      match steps[n]
      case HostEdits(edits) => AllowedKeepsPaired(b.table, edits);
      case HostPublish(event) =>
        DispatchKeepsPaired(on, env, b, event);
        DispatchSpaced(on, env, b, event);
    }
  }
}
