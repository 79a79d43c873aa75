// The value types that cross the event bus: listeners, priorities, events and table edits.
module EventTypes {

  /** Identity of a listener object. The bus compares addresses only. */
  datatype Listener =
    | NoListener                           // the null pointer
    | Plugin(id: nat)                      // a plugin or any other host listener
    | MountedBehavior(session: nat)        // the voice-pack adapter of one session
    | InteractionFallback(session: nat)    // the fallback adapter of one session

  /** The priority value; a smaller value is delivered earlier. */
  type Priority = nat
  const LOWEST: Priority := 4

  /** The publisher id of the host channel. */
  const HOST: string := ""

  datatype PluginError = Ok | InvalidArgument | Busy

  datatype Event = Event(
    eventId: string,
    instanceUuid: string,
    publisherId: string,
    cancellable: bool,
    cancelled: bool,
    payload: string)

  /** What a session's default hit adapters do that is visible outside the bus. */
  datatype Reaction =
    | Behaved(session: nat, at: int, until: int)   // voice-pack behaviour sent, cooldown armed
    | Swallowed(session: nat)                      // hit ignored during the cooldown
    | FellBack(session: nat)                       // InteractionHandler asked to react

  /** One live subscription. */
  datatype Entry = Entry(listener: Listener, priority: Priority, publisherId: string)

  /** A change of the subscription table. */
  datatype Edit =
    | Subscribe(channel: string, listener: Listener, priority: Priority, publisherId: string)
    | Unsubscribe(channel: string, listener: Listener)
    | Sweep(publisherId: string)
}
