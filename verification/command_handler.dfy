/** The read -> replay -> decide -> append cycle of CommandHandler.kt, over the
    in-memory store. */
module CommandHandler {
  import opened Functional
  import opened Deciders
  import opened EventStore

  /** What the handler returns to its caller, together with the store after the call. */
  datatype Handled<Err, E> = Handled(outcome: Either<NonEmptyList<Err>, ()>, streams: Streams<E>)

  /** The (state, version) the handler reconstructs for stream `id` before deciding. */
  function Current<S, C, E, Err>(d: Decider<S, C, E, Err>, streams: Streams<E>, id: string): (S, int) {
    Replay(d, d.initial, ReadFromStream(streams, id))
  }

  /** The decision the handler obtains for `command` on stream `id`. */
  function DecisionFor<S, C, E, Err>(d: Decider<S, C, E, Err>, streams: Streams<E>, id: string, command: C): Decision<Err, E> {
    d.decide(command, Current(d, streams, id).0)
  }

  /** `CommandHandler.invoke`. A rejection is returned as is and nothing is written.
      An acceptance is appended at the replayed version; the append's own result is
      discarded (the `either` block is coerced to `Unit`), so the caller is told
      success whatever the store answered. The requires is `getVersion`'s: the
      append path must not meet a present but empty stream. */
  function Invoke<S, C, E, Err>(d: Decider<S, C, E, Err>, streams: Streams<E>, id: string, command: C): (r: Handled<Err, E>)
    requires HasVersion(streams, id) || DecisionFor(d, streams, id, command).Invalid?
    ensures r.outcome.Left? <==> DecisionFor(d, streams, id, command).Invalid?
    ensures r.outcome.Left? ==> r.outcome.left == DecisionFor(d, streams, id, command).errors && r.streams == streams
    ensures r.outcome.Right? ==> Current(d, streams, id).1 == |ReadFromStream(streams, id)| - 1
    ensures r.outcome.Right? ==>
      r.streams == AppendToStream(streams, id, Current(d, streams, id).1, DecisionFor(d, streams, id, command).value).streams
  {
    var events := ReadFromStream(streams, id);
    var (state, version) := Replay(d, d.initial, events);
    match d.decide(command, state)
    case Invalid(errors) => Handled(Left(errors), streams)
    case Valid(newEvents) => Handled(Right(()), AppendToStream(streams, id, version, newEvents).streams)
  }

  /** Run sequentially on a well-formed store, an accepted command's append always
      passes the version check: the stream grows by exactly the accepted events,
      every other stream is untouched and the store stays well-formed. */
  lemma InvokeAppendsAcceptedEvents<S, C, E, Err>(d: Decider<S, C, E, Err>, streams: Streams<E>, id: string, command: C)
    requires WellFormed(streams)
    requires DecisionFor(d, streams, id, command).Valid?
    ensures var newEvents := DecisionFor(d, streams, id, command).value;
      AppendToStream(streams, id, Current(d, streams, id).1, newEvents).outcome.Right?
    ensures HasVersion(streams, id)
    ensures var after := Invoke(d, streams, id, command).streams;
      && ReadFromStream(after, id) == ReadFromStream(streams, id) + DecisionFor(d, streams, id, command).value.ToSeq()
      && WellFormed(after)
      && id in after && |after[id]| == |StreamOf(streams, id)| + |DecisionFor(d, streams, id, command).value.ToSeq()|
      && forall other :: other != id && other in streams ==> other in after && after[other] == streams[other]
  {
    var newEvents := DecisionFor(d, streams, id, command).value;
    var expected := Current(d, streams, id).1;
    assert expected == |StreamOf(streams, id)| - 1;
    AppendSucceedsIff(streams, id, expected, newEvents);
    var r := AppendToStream(streams, id, expected, newEvents);
    assert Invoke(d, streams, id, command).streams == r.streams;
    AppendPreservesWellFormed(streams, id, expected, newEvents);
    ReadAfterAppend(streams, id, expected, newEvents);
  }

  /** Handling a command on one stream leaves what every other stream replays to
      unchanged. */
  lemma InvokeKeepsOtherStreams<S, C, E, Err>(d: Decider<S, C, E, Err>, streams: Streams<E>, id: string, command: C)
    requires HasVersion(streams, id) || DecisionFor(d, streams, id, command).Invalid?
    ensures var after := Invoke(d, streams, id, command).streams;
      forall other :: other != id ==> StreamOf(after, other) == StreamOf(streams, other)
    ensures var after := Invoke(d, streams, id, command).streams;
      forall other :: other != id ==> Current(d, after, other) == Current(d, streams, other)
  {
    var after := Invoke(d, streams, id, command).streams;
    forall other | other != id
      ensures StreamOf(after, other) == StreamOf(streams, other)
    {
      if DecisionFor(d, streams, id, command).Valid? {
        assert other in after <==> other in streams;
      }
    }
  }

  /** A rejected command leaves the store exactly as it was. */
  lemma RejectionWritesNothing<S, C, E, Err>(d: Decider<S, C, E, Err>, streams: Streams<E>, id: string, command: C)
    requires DecisionFor(d, streams, id, command).Invalid?
    ensures Invoke(d, streams, id, command) == Handled(Left(DecisionFor(d, streams, id, command).errors), streams)
  {
  }

  /** On a store whose stream has a gap in its versions the append is refused with
      a `ConcurrencyError`, yet the handler still reports success: the store error
      is not surfaced and nothing is written. */
  lemma InvokeHidesStoreError<S, C, E, Err>(d: Decider<S, C, E, Err>, streams: Streams<E>, id: string, command: C)
    requires id in streams && |streams[id]| > 0
    requires GetVersion(streams[id]) != |streams[id]| - 1
    requires DecisionFor(d, streams, id, command).Valid?
    ensures AppendToStream(streams, id, Current(d, streams, id).1, DecisionFor(d, streams, id, command).value).outcome.Left?
    ensures Invoke(d, streams, id, command) == Handled(Right(()), streams)
  {
  }

  /** One handled command keeps the store well-formed and only ever adds to it:
      no stream disappears or gets shorter. */
  lemma InvokeGrowsStore<S, C, E, Err>(d: Decider<S, C, E, Err>, streams: Streams<E>, id: string, command: C)
    requires WellFormed(streams)
    ensures HasVersion(streams, id)
    ensures var after := Invoke(d, streams, id, command).streams;
      && WellFormed(after)
      && forall other :: other in streams ==> other in after && streams[other] <= after[other]
  {
    var after := Invoke(d, streams, id, command).streams;
    if DecisionFor(d, streams, id, command).Valid? {
      InvokeAppendsAcceptedEvents(d, streams, id, command);
      forall other | other in streams
        ensures other in after && streams[other] <= after[other]
      {
        if other == id {
          AppendedStream(streams, id, Current(d, streams, id).1, DecisionFor(d, streams, id, command).value);
        }
      }
    } else {
      assert after == streams;
    }
  }

  /** Commands handled one after another, each against the store the previous one left. */
  function Run<S, C, E, Err>(d: Decider<S, C, E, Err>, streams: Streams<E>, commands: seq<(string, C)>): (r: Streams<E>)
    requires WellFormed(streams)
    ensures WellFormed(r)
    ensures forall id :: id in streams ==> id in r && streams[id] <= r[id]
    decreases |commands|
  {
    if |commands| == 0 then streams
    else
      var id, command := commands[0].0, commands[0].1;
      InvokeGrowsStore(d, streams, id, command);
      Run(d, Invoke(d, streams, id, command).streams, commands[1..])
  }
}
