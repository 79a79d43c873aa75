// The assumptions about listeners can be met: any plugin code that keeps to them, put beside the two
// adapters, forms a well-wired bus, and a bus of bounded feedback.
module HitWiring {
  import opened EventTypes
  import opened EventDispatch
  import opened EventBudget
  import opened HitAdjacency
  import opened HitChain

  /** What plugin listeners do. */
  type Plugins = (seq<Note>, nat, Event) -> Script

  function Wire(env: Env, plugins: Plugins): Listeners {
    (notes: seq<Note>, l: Listener, ev: Event) =>
      match l
      case NoListener => Return
      case Plugin(id) => plugins(notes, id, ev)
      case MountedBehavior(s) => MountedScript(env, notes, s, ev)
      case InteractionFallback(s) => FallbackScript(env, s, ev)
  }

  ghost predicate DistinctSessions(env: Env) {
    forall s, r :: env.uuid(s) == env.uuid(r) ==> s == r
  }

  lemma AdaptersOnlyPublish(env: Env, notes: seq<Note>, s: nat, ev: Event, ok: seq<Edit> -> bool)
    ensures OnlyEdits(MountedScript(env, notes, s, ev), ok) && AtMost(MountedScript(env, notes, s, ev), 1)
    ensures OnlyEdits(FallbackScript(env, s, ev), ok) && AtMost(FallbackScript(env, s, ev), 1)
  {
    var script := MountedScript(env, notes, s, ev);
    if script.Act? && script.reaction.Behaved? {
      AfterOnlyPublishes(env, s, env.behavior(notes, s, ev.payload).value, ok);
    }
  }

  lemma AfterOnlyPublishes(env: Env, s: nat, b: Behavior, ok: seq<Edit> -> bool)
    ensures OnlyEdits(AfterBehavior(env, s, b), ok) && AtMost(AfterBehavior(env, s, b), 1)
  {
  }

  lemma WireIsWired(env: Env, plugins: Plugins)
    requires DistinctSessions(env)
    requires forall notes, id, ev :: Silent(plugins(notes, id, ev))
    requires forall notes, id, ev :: OnlyEdits(plugins(notes, id, ev), edits => Allowed(edits))
    ensures Wired(Wire(env, plugins), env)
  {
    var on := Wire(env, plugins);
    forall notes, l, ev ensures OnlyEdits(on(notes, l, ev), edits => Allowed(edits)) {
      if l.MountedBehavior? || l.InteractionFallback? {
        AdaptersOnlyPublish(env, notes, l.session, ev, edits => Allowed(edits));
      }
    }
  }

  lemma {:induction false} AtMostGrows(script: Script, p: nat, q: nat)
    requires AtMost(script, p) && p <= q
    ensures AtMost(script, q)
  {
    match script
    case Return =>
    case Throw =>
    case SetCancelled(_, rest) => AtMostGrows(rest, p, q);
    case Edits(_, rest) => AtMostGrows(rest, p, q);
    case Act(_, rest) => AtMostGrows(rest, p, q);
    case Publish(_, a, c, r) =>
      AtMostGrows(a, p - 1, q - 1);
      AtMostGrows(c, p - 1, q - 1);
      AtMostGrows(r, p - 1, q - 1);
  }

  /** The adapters themselves publish at most once per call, so the plugins set the bound. */
  lemma WireIsTame(env: Env, plugins: Plugins, listeners: set<Listener>, p: nat)
    requires p >= 1
    requires forall notes, id, ev :: AtMost(plugins(notes, id, ev), p)
    requires forall notes, id, ev :: OnlyEdits(plugins(notes, id, ev), (edits: seq<Edit>) => Among(edits, listeners))
    ensures Tame(Wire(env, plugins), listeners, p)
  {
    var on := Wire(env, plugins);
    forall notes, l, ev
      ensures AtMost(on(notes, l, ev), p) && OnlyEdits(on(notes, l, ev), (edits: seq<Edit>) => Among(edits, listeners))
    {
      if l.MountedBehavior? || l.InteractionFallback? {
        AdaptersOnlyPublish(env, notes, l.session, ev, (edits: seq<Edit>) => Among(edits, listeners));
        AtMostGrows(on(notes, l, ev), 1, p);
      }
    }
  }
}
