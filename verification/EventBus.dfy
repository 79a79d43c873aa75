// core::EventBus: the table updated in place by loops, and re-entrant publish with the depth
// counter. Every method is tied to the value-level functions of EventTable and EventDispatch.
module EventBus {
  import opened EventTypes
  import opened EventTable
  import opened EventDispatch
  import EventId

  class EventBus {
    /** The code of all listeners; fixed, but free to depend on everything noted so far. */
    const on: Listeners
    var subscriptions: Table
    var publishDepth: nat
    /** Every call made and every visible reaction, in order. */
    var notes: seq<Note>

    function State(): Bus
      reads this
    {
      Bus(subscriptions, publishDepth, notes)
    }

    constructor (on: Listeners)
      ensures this.on == on && State() == Bus(map[], 0, [])
    {
      this.on := on;
      subscriptions, publishDepth, notes := map[], 0, [];
    }

    method Subscribe(eventId: string, listener: Listener, priority: Priority, publisherId: string)
      returns (error: PluginError)
      modifies this`subscriptions
      ensures subscriptions == SubscribeTable(old(subscriptions), eventId, Entry(listener, priority, publisherId))
      ensures error == if Accepted(eventId, listener) then Ok else InvalidArgument
    {
      if listener == NoListener {
        return InvalidArgument;
      }
      var legal := EventId.IsValidEventId(eventId);
      if !legal {
        return InvalidArgument;
      }
      var entries := Get(subscriptions, eventId);
      for i := 0 to |entries|
        invariant forall k :: 0 <= k < i ==> entries[k].listener != listener
        invariant subscriptions == old(subscriptions)
      {
        if entries[i].listener == listener {
          assert IndexOf(entries, listener) == i;
          entries := entries[i := Entry(listener, priority, publisherId)];
          subscriptions := subscriptions[eventId := StableSort(entries)];
          return Ok;
        }
      }
      assert IndexOf(entries, listener) == |entries|;
      entries := entries + [Entry(listener, priority, publisherId)];
      subscriptions := subscriptions[eventId := StableSort(entries)];
      return Ok;
    }

    method Unsubscribe(eventId: string, listener: Listener)
      modifies this`subscriptions
      ensures subscriptions == UnsubscribeTable(old(subscriptions), eventId, listener)
    {
      if eventId !in subscriptions {
        return;
      }
      var kept := RemoveIf(subscriptions[eventId], Others(listener));
      subscriptions := Put(subscriptions, eventId, kept);
    }

    /** The backward removal loop shared by unsubscribe and the sweep. */
    static method RemoveIf(es: seq<Entry>, keep: Entry -> bool) returns (entries: seq<Entry>)
      ensures entries == Keep(es, keep)
    {
      entries := es;
      for i := |es| downto 0
        invariant entries == es[..i] + Keep(es[i..], keep)
      {
        KeepFirst(es[i..], keep);
        assert es[i..][1..] == es[i + 1..];
        if !keep(entries[i]) {
          entries := entries[..i] + entries[i + 1..];
        }
      }
    }

    static lemma KeepFirst(es: seq<Entry>, f: Entry -> bool)
      requires es != []
      ensures f(es[0]) ==> Keep(es, f) == [es[0]] + Keep(es[1..], f)
      ensures !f(es[0]) ==> Keep(es, f) == Keep(es[1..], f)
    {
      KeepAround([], es[0], es[1..], f);
      assert [] + [es[0]] + es[1..] == es;
    }

    method UnsubscribeByPublisher(publisherId: string) returns (removed: nat)
      modifies this`subscriptions
      ensures subscriptions == SweepTable(old(subscriptions), publisherId)
      ensures OnlyOthersLeft(old(subscriptions), subscriptions, publisherId)
      ensures removed == Total(old(subscriptions)) - Total(subscriptions)
      ensures removed == |Places(old(subscriptions), publisherId, old(subscriptions).Keys)|
    {
      removed := 0;
      var channels := subscriptions.Keys;
      while channels != {}
        invariant channels <= old(subscriptions).Keys
        invariant Swept(old(subscriptions), subscriptions, channels, publisherId)
        invariant removed + Total(subscriptions) == Total(old(subscriptions))
        invariant removed == |Places(old(subscriptions), publisherId, old(subscriptions).Keys - channels)|
      {
        var c :| c in channels;
        assert SweptAt(old(subscriptions), subscriptions, channels, publisherId, c);
        var before := subscriptions[c];
        var entries := RemoveIf(before, NotBy(publisherId));
        SweptStep(old(subscriptions), subscriptions, channels, c, publisherId);
        TotalPut(subscriptions, c, entries);
        CountOne(old(subscriptions), publisherId, channels, c);
        removed := removed + (|before| - |entries|);
        subscriptions := Put(subscriptions, c, entries);
        channels := channels - {c};
      }
      SweptDone(old(subscriptions), subscriptions, publisherId);
      assert old(subscriptions).Keys - {} == old(subscriptions).Keys;
      SweepEffects(old(subscriptions), publisherId);
    }

    /** On every channel exactly the entries of other publishers are left, in their old order. */
    static ghost predicate OnlyOthersLeft(before: Table, after: Table, publisher: string) {
      forall c :: OthersOf(Get(before, c), Get(after, c), publisher)
    }

    static lemma SweepEffects(t: Table, publisher: string)
      ensures OnlyOthersLeft(t, SweepTable(t, publisher), publisher)
    {
      forall c ensures OthersOf(Get(t, c), Get(SweepTable(t, publisher), c), publisher) {
        SweepEffect(t, publisher, c);
      }
    }

    /** What one channel adds to the count. */
    static lemma CountOne(t: Table, publisher: string, pending: set<string>, c: string)
      requires pending <= t.Keys && c in pending
      ensures |Places(t, publisher, t.Keys - (pending - {c}))| ==
              |Places(t, publisher, t.Keys - pending)| + |t[c]| - |Keep(t[c], NotBy(publisher))|
      ensures |Keep(t[c], NotBy(publisher))| <= |t[c]|
    {
      RowsCount(c, t[c], publisher);
      PlacesMore(t, publisher, t.Keys - pending, c);
      assert t.Keys - (pending - {c}) == t.Keys - pending + {c};
    }

    /** The channels in `pending` are untouched, the others are swept. */
    static ghost predicate Swept(before: Table, now: Table, pending: set<string>, publisher: string) {
      forall c :: SweptAt(before, now, pending, publisher, c)
    }

    static ghost predicate SweptAt(before: Table, now: Table, pending: set<string>, publisher: string, c: string) {
      if c !in before then c !in now
      else if c in pending then c in now && now[c] == before[c]
      else
        var kept := Keep(before[c], NotBy(publisher));
        if kept == [] then c !in now else c in now && now[c] == kept
    }

    static lemma SweptStep(before: Table, now: Table, pending: set<string>, c: string, publisher: string)
      requires Swept(before, now, pending, publisher) && c in pending && c in before
      ensures c in now
      ensures Swept(before, Put(now, c, Keep(now[c], NotBy(publisher))), pending - {c}, publisher)
    {
      assert SweptAt(before, now, pending, publisher, c);
      var now' := Put(now, c, Keep(now[c], NotBy(publisher)));
      forall d ensures SweptAt(before, now', pending - {c}, publisher, d) {
        assert SweptAt(before, now, pending, publisher, d);
      }
    }

    static lemma SweptDone(before: Table, now: Table, publisher: string)
      requires Swept(before, now, {}, publisher)
      ensures now == SweepTable(before, publisher)
    {
      var swept := SweepTable(before, publisher);
      forall c ensures (c in now <==> c in swept) && (c in now ==> now[c] == swept[c]) {
        assert SweptAt(before, now, {}, publisher, c);
      }
    }

    method SubscriptionCount() returns (total: nat)
      ensures total == Total(subscriptions)
    {
      total := 0;
      var left := subscriptions;
      while left != map[]
        invariant total + Total(left) == Total(subscriptions)
        decreases |left|
      {
        var c :| c in left;
        TotalSplit(left, c);
        total := total + |left[c]|;
        left := left - {c};
      }
    }

    /** A group of table calls made by a listener. */
    method ApplyEdits(edits: seq<Edit>)
      modifies this`subscriptions
      ensures subscriptions == ApplyAll(old(subscriptions), edits)
    {
      for i := 0 to |edits|
        invariant subscriptions == ApplyAll(old(subscriptions), edits[..i])
      {
        assert edits[..i + 1][..i] == edits[..i];
        match edits[i] {
          case Subscribe(c, l, p, publisher) => var _ := Subscribe(c, l, p, publisher);
          case Unsubscribe(c, l) => Unsubscribe(c, l);
          case Sweep(publisher) => var _ := UnsubscribeByPublisher(publisher);
        }
      }
      assert edits[..|edits|] == edits;
    }

    method Publish(ev: Event) returns (error: PluginError, event: Event)
      modifies this
      ensures Outcome(State(), event, error) == Dispatch(on, old(State()), ev)
      decreases Room(publishDepth), 0
    {
      event := ev;
      var legal := EventId.IsValidEventId(ev.eventId);
      if !legal {
        return InvalidArgument, event;
      }
      if ev.eventId !in subscriptions || subscriptions[ev.eventId] == [] {
        return Ok, event;
      }
      if publishDepth >= MAX_PUBLISH_DEPTH {
        return Busy, event;
      }
      var snapshot := subscriptions[ev.eventId];
      publishDepth := publishDepth + 1;
      for i := 0 to |snapshot|
        invariant publishDepth == old(publishDepth) + 1
        invariant Deliver(on, State(), event, snapshot[i..]) == Deliver(on, Entered(old(State())), ev, snapshot)
      {
        assert snapshot[i..][1..] == snapshot[i + 1..];
        var l := snapshot[i].listener;
        if l == NoListener {
          continue;
        }
        ghost var before, was := State(), event;
        notes := notes + [Called(publishDepth, event.eventId, l, event.cancelled)];
        event := OnEvent(on(notes, l, event), event);
        if !event.cancellable {
          event := event.(cancelled := false);
        }
        assert Delivery(State(), event) == DeliverOne(on, before, was, l);
      }
      publishDepth := publishDepth - 1;
      return Ok, event;
    }

    /** One listener call: its script, step by step. A throw ends it like a return. */
    method OnEvent(script: Script, ev: Event) returns (event: Event)
      modifies this
      ensures Delivery(State(), event) == Run(on, old(State()), ev, script)
      decreases Room(publishDepth), 1
    {
      event := ev;
      var rest := script;
      while rest != Return && rest != Throw
        invariant publishDepth == old(publishDepth)
        invariant Run(on, State(), event, rest) == Run(on, old(State()), ev, script)
        decreases rest
      {
        match rest {
          case SetCancelled(value, next) =>
            event := event.(cancelled := value);
            rest := next;
          case Edits(edits, next) =>
            ApplyEdits(edits);
            rest := next;
          case Act(reaction, next) =>
            notes := notes + [Acted(publishDepth, reaction)];
            rest := next;
          case Publish(nested, ifClear, ifCancelled, ifRefused) =>
            var error, final := Publish(nested);
            rest := if error != Ok then ifRefused else if final.cancelled then ifCancelled else ifClear;
        }
      }
    }
  }
}
