// The hit half of InstanceSession: binding the adapters to a bus, the two onEvent bodies, and the
// emission of a hit.
module HitSession {
  import opened EventTypes
  import opened EventTable
  import opened EventDispatch
  import opened HitAdjacency
  import opened HitChain
  import opened Options
  import EventBus

  lemma LatestSnoc(notes: seq<Note>, note: Note, s: nat, from: int)
    ensures Latest(notes + [note], s, from) ==
            if note.Acted? && note.reaction.Behaved? && note.reaction.session == s then note.reaction.until
            else Latest(notes, s, from)
  {
  }

  /** The cooldown a session takes along when it changes its bus. */
  function Brings(brought: nat -> int, id: nat, until: int): nat -> int {
    (s: nat) => if s == id then until else brought(s)
  }

  class Session {
    const id: nat
    var env: Env
    var eventPublisher: EventBus.EventBus?
    var behaviorActiveUntilMs: int

    /** The field is what the notes of the bus say. */
    ghost predicate InStep()
      reads this, eventPublisher
    {
      eventPublisher != null ==> behaviorActiveUntilMs == ActiveUntil(env, eventPublisher.notes, id)
    }

    constructor (id: nat, env: Env)
      ensures this.id == id && this.env == env && eventPublisher == null && behaviorActiveUntilMs == 0
    {
      this.id, this.env := id, env;
      eventPublisher, behaviorActiveUntilMs := null, 0;
    }

    /** (Re)binding: off the old bus, then both adapters onto the new one in one go. The two are
        adjacent on the new bus, every other pair stays so on both, and the cooldown is kept. */
    method SetEventPublisher(publisher: EventBus.EventBus?)
      modifies this`eventPublisher, this`env
      modifies if eventPublisher == null then {} else {eventPublisher}
      modifies if publisher == null then {} else {publisher}
      ensures eventPublisher == publisher
      ensures old(eventPublisher) != null && old(eventPublisher) != publisher ==>
                old(eventPublisher).subscriptions ==
                ApplyAll(old(if eventPublisher == null then map[] else eventPublisher.subscriptions), UnbindEdits(id))
      ensures publisher != null ==>
                publisher.subscriptions ==
                ApplyAll(old(publisher.subscriptions), if old(eventPublisher) == publisher then BindEdits(id) else AddEdits(id))
      ensures publisher != null && old(AllPaired(publisher.subscriptions)) ==>
                && AllPaired(publisher.subscriptions)
                && Adjacent(Get(publisher.subscriptions, "pet.instance.hit"),
                            Entry(MountedBehavior(id), 4, ""), Entry(InteractionFallback(id), 4, ""))
      ensures env == if old(eventPublisher) == publisher then old(env)
                     else old(env).(brought := Brings(old(env).brought, id, behaviorActiveUntilMs))
      ensures old(eventPublisher) == publisher && old(InStep()) ==> InStep()
      ensures publisher != null && old(eventPublisher) != publisher ==>
                (Latest(publisher.notes, id, behaviorActiveUntilMs) <= behaviorActiveUntilMs ==> InStep())
    {
      if eventPublisher != null {
        ghost var before := eventPublisher.subscriptions;
        eventPublisher.Unsubscribe(HIT, MountedBehavior(id));
        eventPublisher.Unsubscribe(HIT, InteractionFallback(id));
        ApplyTwo(before, UnbindEdits(id)[0], UnbindEdits(id)[1]);
      }
      if eventPublisher != publisher {
        env := env.(brought := Brings(env.brought, id, behaviorActiveUntilMs));
      }
      eventPublisher := publisher;
      if eventPublisher == null {
        return;
      }
      ghost var before := publisher.subscriptions;
      var _ := publisher.Subscribe(HIT, MountedBehavior(id), LOWEST, HOST);
      var _ := publisher.Subscribe(HIT, InteractionFallback(id), LOWEST, HOST);
      ApplyTwo(before, AddEdits(id)[0], AddEdits(id)[1]);
      ApplyAllConcat(old(publisher.subscriptions), UnbindEdits(id), AddEdits(id));
      if old(AllPaired(publisher.subscriptions)) {
        BoundIsPaired(old(publisher.subscriptions), id);
      }
    }

    static lemma BoundIsPaired(t: Table, id: nat)
      requires AllPaired(t)
      ensures AllPaired(ApplyAll(t, AddEdits(id))) && AllPaired(ApplyAll(t, BindEdits(id)))
      ensures Adjacent(Get(ApplyAll(t, AddEdits(id)), HIT), Mounted(id), Fallback(id))
      ensures Adjacent(Get(ApplyAll(t, BindEdits(id)), HIT), Mounted(id), Fallback(id))
    {
      AllowedKeepsPaired(t, AddEdits(id));
      AllowedKeepsPaired(t, BindEdits(id));
      AddPairs(t, id);
      BindPairs(t, id);
    }

    /** A reaction of this session, as the bus records it. */
    method React(reaction: Reaction)
      requires eventPublisher != null
      modifies eventPublisher`notes
      ensures eventPublisher.State() == Noted(old(eventPublisher.State()), Acted(eventPublisher.publishDepth, reaction))
      ensures ActiveUntil(env, eventPublisher.notes, id) ==
              if reaction.Behaved? && reaction.session == id then Later(env.brought(id), reaction.until)
              else old(ActiveUntil(env, eventPublisher.notes, id))
    {
      var note := Acted(eventPublisher.publishDepth, reaction);
      LatestSnoc(eventPublisher.notes, note, id, env.brought(id));
      eventPublisher.notes := eventPublisher.notes + [note];
    }

    /** The hit is for this session, unclaimed, past the cooldown, and a behaviour can be built for it. */
    ghost predicate Plays(ev: Event)
      reads this, eventPublisher
      requires eventPublisher != null
    {
      var notes := eventPublisher.notes;
      && ev.instanceUuid == env.uuid(id) && !ev.cancelled && env.hasGroup(notes, id, ev.payload)
      && env.clock(notes) >= behaviorActiveUntilMs && env.behavior(notes, id, ev.payload).Some?
    }

    /** The behaviour is noted next, with the length of its audio as its window, or 4000 ms. */
    static ghost predicate Arms(env: Env, before: seq<Note>, after: seq<Note>, s: nat, area: string) {
      && before < after && env.behavior(before, s, area).Some?
      && var audioMs, next := env.behavior(before, s, area).value.audioMs, after[|before|];
      && next.Acted? && next.reaction.Behaved? && next.reaction.session == s
      && next.reaction.at == env.clock(before)
      && next.reaction.until - next.reaction.at == if audioMs > 0 then audioMs else 4000
    }

    static lemma PlayArms(on: Listeners, env: Env, b: Bus, ev: Event, s: nat)
      requires ev.instanceUuid == env.uuid(s) && !ev.cancelled && env.hasGroup(b.notes, s, ev.payload)
      requires env.clock(b.notes) >= ActiveUntil(env, b.notes, s) && env.behavior(b.notes, s, ev.payload).Some?
      ensures Arms(env, b.notes, Run(on, b, ev, MountedScript(env, b.notes, s, ev)).bus.notes, s, ev.payload)
    {
      BehaviorScript(on, env, b, ev, s);
    }

    /** MountedBehaviorAdapter::onEvent. */
    method MountedOnEvent(ev: Event) returns (event: Event)
      requires eventPublisher != null && InStep()
      modifies eventPublisher, this`behaviorActiveUntilMs
      ensures InStep()
      ensures Delivery(eventPublisher.State(), event) ==
              Run(eventPublisher.on, old(eventPublisher.State()), ev, MountedScript(env, old(eventPublisher.notes), id, ev))
      ensures old(Plays(ev)) ==> Arms(env, old(eventPublisher.notes), eventPublisher.notes, id, ev.payload)
    {
      var bus := eventPublisher;
      assert Plays(ev) ==>
               Arms(env, bus.notes, Run(bus.on, bus.State(), ev, MountedScript(env, bus.notes, id, ev)).bus.notes,
                    id, ev.payload) by {
        if Plays(ev) { PlayArms(bus.on, env, bus.State(), ev, id); }
      }
      event := ev;
      if event.instanceUuid != env.uuid(id) {
        return;
      }
      if event.cancelled {
        return;
      }
      var notes, areaId := bus.notes, event.payload;
      if !env.hasGroup(notes, id, areaId) {
        return;
      }
      var nowMs := env.clock(notes);
      if nowMs < behaviorActiveUntilMs {
        React(Swallowed(id));
        ClaimRuns(bus.on, bus.State(), event);
        event := event.(cancelled := true);
        return;
      }
      var result := env.behavior(notes, id, areaId);
      if result.Some? {
        BehaviorScript(bus.on, env, bus.State(), event, id);
        Play(result.value, nowMs);
        event := event.(cancelled := true);
      }
    }

    /** The behaviour itself: the cooldown is armed, and the line, when there is one, is spoken. */
    method Play(b: Behavior, nowMs: int)
      requires eventPublisher != null && InStep() && nowMs >= behaviorActiveUntilMs
      modifies eventPublisher, this`behaviorActiveUntilMs
      ensures InStep()
      ensures eventPublisher.State() ==
              Spoken(eventPublisher.on,
                     Noted(old(eventPublisher.State()), Acted(old(eventPublisher.publishDepth), Played(id, b, nowMs))),
                     env.uuid(id), b.dialogue)
    {
      behaviorActiveUntilMs := nowMs + (if b.audioMs > 0 then b.audioMs else DEFAULT_WINDOW_MS);
      React(Behaved(id, nowMs, behaviorActiveUntilMs));
      if b.dialogue != "" {
        var _, _ := eventPublisher.Publish(DialogueEvent(env, id, b.dialogue));
        // A hit published by a listener of the line may have reached this session meanwhile.
        behaviorActiveUntilMs := ActiveUntil(env, eventPublisher.notes, id);
      }
    }

    /** InteractionFallbackAdapter::onEvent. */
    method FallbackOnEvent(ev: Event) returns (event: Event)
      requires eventPublisher != null && InStep()
      modifies eventPublisher
      ensures InStep()
      ensures Delivery(eventPublisher.State(), event) ==
              Run(eventPublisher.on, old(eventPublisher.State()), ev, FallbackScript(env, id, ev))
    {
      event := ev;
      if event.instanceUuid != env.uuid(id) {
        return;
      }
      if event.cancelled {
        return;
      }
      React(FellBack(id));
    }

    /** publishHostEvent: what the listeners of the bus make of the flag comes back to the poster, and
        without a bus nothing does. */
    method PublishHostEvent(eventId: string, cancellable: bool, payload: string) returns (cancelled: bool)
      modifies eventPublisher
      ensures eventPublisher == null ==> !cancelled
      ensures eventPublisher != null ==>
                var r := Dispatch(eventPublisher.on, old(eventPublisher.State()), HostEvent(env, id, eventId, cancellable, payload));
                eventPublisher.State() == r.bus && cancelled == r.event.cancelled
    {
      if eventPublisher == null {
        return false;
      }
      var _, event := eventPublisher.Publish(HostEvent(env, id, eventId, cancellable, payload));
      return event.cancelled;
    }

    static function HostEvent(env: Env, s: nat, eventId: string, cancellable: bool, payload: string): Event {
      Event(eventId, env.uuid(s), HOST_PUBLISHER, cancellable, false, payload)
    }

    /** A hit: pure emission, on the bus this session is bound to. */
    method HandleHitEvent(areaId: string)
      requires eventPublisher != null ==>
                 Wired(eventPublisher.on, env) && AllPaired(eventPublisher.subscriptions)
      modifies eventPublisher, this`behaviorActiveUntilMs
      ensures old(InStep()) || !old(AtCap()) ==> InStep()
      ensures old(AtCap()) ==>
                eventPublisher.State() == old(eventPublisher.State()) && behaviorActiveUntilMs == old(behaviorActiveUntilMs)
      ensures eventPublisher != null && !old(AtCap()) ==>
                HitTaken(env, old(eventPublisher.State()), eventPublisher.State(), id, areaId)
    {
      var goesOut := eventPublisher != null && eventPublisher.publishDepth < MAX_PUBLISH_DEPTH;
      if eventPublisher != null {
        if goesOut {
          HitPublished(eventPublisher.on, env, eventPublisher.State(), HostEvent(env, id, HIT, true, areaId), id);
        } else {
          RefusedAtCap(eventPublisher.on, eventPublisher.State(), HostEvent(env, id, HIT, true, areaId));
        }
      }
      var _ := PublishHostEvent(HIT, true, areaId);
      if goesOut {
        assert HitTaken(env, old(eventPublisher.State()), eventPublisher.State(), id, areaId);
        // The adapters of this session run inside the dispatch.
        behaviorActiveUntilMs := ActiveUntil(env, eventPublisher.notes, id);
      }
    }

    /** The hit arrives from inside so many dispatches that the bus takes no more. */
    ghost predicate AtCap()
      reads this, eventPublisher
    {
      eventPublisher != null && eventPublisher.publishDepth >= MAX_PUBLISH_DEPTH
    }

    /** At the cap a publish reaches nobody: it is answered Busy when somebody listens. */
    static lemma RefusedAtCap(on: Listeners, b: Bus, ev: Event)
      requires ev.eventId == HIT && b.depth >= MAX_PUBLISH_DEPTH
      ensures Dispatch(on, b, ev) == Outcome(b, ev, if Get(b.table, HIT) == [] then Ok else Busy)
    {
      HitIsEventId();
    }

    /** What a published hit of session `s` leaves: the pairs still adjacent and its decision taken once. */
    static ghost predicate HitTaken(env: Env, before: Bus, after: Bus, s: nat, area: string) {
      && AllPaired(after.table)
      && before.notes <= after.notes
      && HitOutcome(env, before.notes, after.notes, before.depth + 1, s, area, Get(before.table, HIT))
    }

    static lemma HitPublished(on: Listeners, env: Env, b: Bus, ev: Event, s: nat)
      requires Wired(on, env) && AllPaired(b.table) && b.depth < MAX_PUBLISH_DEPTH
      requires ev.eventId == HIT && ev.cancellable && ev.instanceUuid == env.uuid(s)
      ensures HitTaken(env, b, Dispatch(on, b, ev).bus, s, ev.payload)
    {
      HitDecidedOnce(on, env, b, ev, s);
      DispatchKeepsPaired(on, env, b, ev);
    }
  }
}
