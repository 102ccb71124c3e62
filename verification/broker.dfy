/**
 * What a queue worker can do to the world while it handles one message:
 * write a file, publish to a queue (`RabbitMQClient.publish`), acknowledge
 * the delivery. Every effect is recorded in order in a log; a handler that
 * raises keeps the effects it had before the exception.
 */
module Broker {

  import opened Wrappers
  import opened PyValues
  import opened FileStore

  datatype Event =
    | Saved(path: string, body: Record)
    | Published(queue: string, body: Record)
    | Acked(tag: int)

  datatype World = World(disk: Disk, log: seq<Event>)

  /** The world after a handler returned, and the exception it raised, if any. */
  datatype Outcome = Outcome(world: World, raised: Option<Error>)

  /** `json.dump(body, open(path, 'w'))` for a file in directory `dir`, logged. */
  function SaveIn(w: World, dir: string, path: string, body: Record): (r: Result<World, Error>)
    ensures r.Ok? <==> dir in w.disk.dirs
    ensures r.Err? ==> r.error == FileNotFoundError(path)
    ensures r.Ok? ==> && r.value.log == w.log + [Saved(path, body)]
                      && r.value.disk.dirs == w.disk.dirs
                      && Load(r.value.disk, path) == Ok(body)
                      && r.value.disk.files.Keys == w.disk.files.Keys + {path}
  {
    var d :- Save(w.disk, dir, path, body);
    SaveLoad(w.disk, dir, path, body, path);
    Ok(World(d, w.log + [Saved(path, body)]))
  }

  /** A save leaves every other file as it was. */
  lemma SaveInFrame(w: World, dir: string, path: string, body: Record, other: string)
    requires dir in w.disk.dirs && other != path
    ensures Load(SaveIn(w, dir, path, body).value.disk, other) == Load(w.disk, other)
  {
    SaveLoad(w.disk, dir, path, body, other);
  }

  /**
   * `rabbit.publish(queue, body)`. Whether the broker call raises is outside
   * the model and given as `failure`; a failed publish logs nothing.
   */
  function Publish(w: World, queue: string, body: Record, failure: Option<Error>): (r: Result<World, Error>)
    ensures r.Ok? <==> failure.None?
    ensures r.Err? ==> r.error == failure.value
    ensures r.Ok? ==> r.value == World(w.disk, w.log + [Published(queue, body)])
  {
    if failure.Some? then Err(failure.value) else Ok(World(w.disk, w.log + [Published(queue, body)]))
  }

  /** `ch.basic_ack(delivery_tag=tag)`. */
  function Ack(w: World, tag: int): (r: World)
    ensures r.disk == w.disk && r.log == w.log + [Acked(tag)]
  {
    World(w.disk, w.log + [Acked(tag)])
  }

  /** The events a handler added to the log. */
  function NewEvents(before: World, after: World): seq<Event>
    requires before.log <= after.log
  {
    after.log[|before.log|..]
  }

  /** Whether a delivery was acknowledged among the given events. */
  predicate AckedIn(events: seq<Event>) {
    exists i :: 0 <= i < |events| && events[i].Acked?
  }
}
