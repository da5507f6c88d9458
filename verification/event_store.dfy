/** The event-store error type of EventStore.kt and the in-memory store of
    InMemoryEventStore.kt: a map from stream id to the (event, version) entries
    appended to it. Appends are pure transitions from one map to the next. */
module EventStore {
  import opened Functional
  import opened VersionOrder

  datatype EventStoreError =
    | AggregateNotFound(id: string)
    | ConcurrencyError(expectedVersion: int, currentVersion: int)

  type Stream<E> = seq<Entry<E>>
  type Streams<E> = map<string, Stream<E>>

  /** The error-or-unit result of an append together with the store after it. */
  datatype Appended<E> = Appended(outcome: Either<EventStoreError, ()>, streams: Streams<E>)

  /** The stored entries of `id`; an absent stream reads as empty. */
  function StreamOf<E>(streams: Streams<E>, id: string): Stream<E> {
    if id in streams then streams[id] else []
  }

  function EventsOf<E>(stream: Stream<E>): seq<E> {
    seq(|stream|, i requires 0 <= i < |stream| => stream[i].event)
  }

  /** `getVersion`: the largest version stored in a stream (`maxOf`, which
      throws on an empty list). */
  function GetVersion<E>(stream: Stream<E>): (v: int)
    requires |stream| > 0
    ensures exists i :: 0 <= i < |stream| && stream[i].version == v
    ensures forall i :: 0 <= i < |stream| ==> stream[i].version <= v
    decreases |stream|
  {
    if |stream| == 1 then stream[0].version
    else
      var rest := GetVersion(stream[1..]);
      if stream[0].version >= rest then stream[0].version else rest
  }

  /** `getVersion` can be asked about `id`: the stream is absent or non-empty. */
  predicate HasVersion<E>(streams: Streams<E>, id: string) {
    id in streams ==> |streams[id]| > 0
  }

  /** The entries an append adds: event `i` gets version `expectedVersion + i + 1`. */
  function Numbered<E>(events: seq<E>, expectedVersion: int): Stream<E> {
    seq(|events|, i requires 0 <= i < |events| => Entry(events[i], expectedVersion + i + 1))
  }

  /** The version check of `appendToStream` (its `streamOrError`): the entries to
      extend, or the error that refuses the append. An absent stream accepts only
      expected version -1 and extends the empty list; a present one accepts only
      its current version. */
  function CheckVersion<E>(streams: Streams<E>, id: string, expectedVersion: int): (r: Either<EventStoreError, Stream<E>>)
    requires HasVersion(streams, id)
    ensures r.Right? ==> r.right == StreamOf(streams, id)
  {
    if id !in streams then
      if expectedVersion == -1 then Right([])
      else Left(AggregateNotFound(id))
    else
      var streamVersion := GetVersion(streams[id]);
      if streamVersion == expectedVersion then Right(streams[id])
      else Left(ConcurrencyError(expectedVersion, streamVersion))
  }

  /** `appendToStream`: on a passed version check the numbered events are added
      after the existing entries; on a failed one the store is left alone. */
  function AppendToStream<E>(streams: Streams<E>, id: string, expectedVersion: int, events: NonEmptyList<E>): (r: Appended<E>)
    requires HasVersion(streams, id)
    ensures r.outcome.Right? <==>
      if id in streams then GetVersion(streams[id]) == expectedVersion else expectedVersion == -1
    ensures r.outcome.Left? ==> r.streams == streams
    ensures r.outcome.Right? ==>
      && id in r.streams
      && |r.streams[id]| == |StreamOf(streams, id)| + |events.ToSeq()|
    ensures r.outcome.Right? ==> r.streams.Keys == streams.Keys + {id}
    ensures forall other :: other != id && other in streams ==> other in r.streams && r.streams[other] == streams[other]
  {
    var newEvents := Numbered(events.ToSeq(), expectedVersion);
    match CheckVersion(streams, id, expectedVersion)
    case Left(error) => Appended(Left(error), streams)
    case Right(existing) => Appended(Right(()), streams[id := existing + newEvents])
  }

  /** `readFromStream`: the events of `id` ordered by version; empty when absent. */
  function ReadFromStream<E>(streams: Streams<E>, id: string): (r: seq<E>)
    ensures |r| == |StreamOf(streams, id)|
    ensures id !in streams ==> r == []
  {
    EventsOf(SortByVersion(StreamOf(streams, id)))
  }

  /** The versions of a stream are exactly 0, 1, ..., n-1 in stored order. */
  predicate Contiguous<E>(stream: Stream<E>) {
    forall i :: 0 <= i < |stream| ==> stream[i].version == i
  }

  /** The store invariant: every stored stream is non-empty and contiguous. */
  predicate WellFormed<E>(streams: Streams<E>) {
    forall id :: id in streams ==> |streams[id]| > 0 && Contiguous(streams[id])
  }

  lemma VersionOfContiguous<E>(stream: Stream<E>)
    requires |stream| > 0 && Contiguous(stream)
    ensures GetVersion(stream) == |stream| - 1
  {
    assert stream[|stream| - 1].version == |stream| - 1;
  }

  /** First append to an absent stream at version -1: the stream then holds exactly
      the new events, at versions 0 .. k-1. */
  lemma AppendCreatesStream<E>(streams: Streams<E>, id: string, events: NonEmptyList<E>)
    requires id !in streams
    ensures var r := AppendToStream(streams, id, -1, events);
      && r.outcome == Right(())
      && id in r.streams
      && EventsOf(r.streams[id]) == events.ToSeq()
      && Contiguous(r.streams[id])
  {
  }

  /** An absent stream with any other expected version is an `AggregateNotFound`
      and the store is unchanged. */
  lemma AppendToMissingStream<E>(streams: Streams<E>, id: string, expectedVersion: int, events: NonEmptyList<E>)
    requires id !in streams && expectedVersion != -1
    ensures AppendToStream(streams, id, expectedVersion, events) == Appended(Left(AggregateNotFound(id)), streams)
  {
  }

  /** A present stream whose version differs from the expected one is a
      `ConcurrencyError(expected, actual)` and the store is unchanged. */
  lemma AppendConflict<E>(streams: Streams<E>, id: string, expectedVersion: int, events: NonEmptyList<E>)
    requires id in streams && |streams[id]| > 0
    requires GetVersion(streams[id]) != expectedVersion
    ensures AppendToStream(streams, id, expectedVersion, events)
         == Appended(Left(ConcurrencyError(expectedVersion, GetVersion(streams[id]))), streams)
  {
  }

  /** A successful append keeps the old entries as a prefix and gives new event `i`
      version `expectedVersion + i + 1`. */
  lemma AppendAssignsVersions<E>(streams: Streams<E>, id: string, expectedVersion: int, events: NonEmptyList<E>)
    requires HasVersion(streams, id)
    requires AppendToStream(streams, id, expectedVersion, events).outcome.Right?
    ensures var stream := AppendToStream(streams, id, expectedVersion, events).streams[id];
      var prior := StreamOf(streams, id);
      && stream[..|prior|] == prior
      && forall i :: 0 <= i < |events.ToSeq()| ==>
           stream[|prior| + i] == Entry(events.ToSeq()[i], expectedVersion + i + 1)
  {
    var stream := AppendToStream(streams, id, expectedVersion, events).streams[id];
    var prior := StreamOf(streams, id);
    var added := Numbered(events.ToSeq(), expectedVersion);
    AppendedStream(streams, id, expectedVersion, events);
    assert stream[..|prior|] == prior;
    forall i | 0 <= i < |events.ToSeq()|
      ensures stream[|prior| + i] == Entry(events.ToSeq()[i], expectedVersion + i + 1)
    {
      assert stream[|prior| + i] == added[i];
    }
  }

  /** On a well-formed store the version token of a stream is its length minus one,
      so an append succeeds exactly when it expects `|stream| - 1`. */
  lemma AppendSucceedsIff<E>(streams: Streams<E>, id: string, expectedVersion: int, events: NonEmptyList<E>)
    requires WellFormed(streams)
    ensures AppendToStream(streams, id, expectedVersion, events).outcome.Right?
        <==> expectedVersion == |StreamOf(streams, id)| - 1
  {
    if id in streams {
      VersionOfContiguous(streams[id]);
    }
  }

  /** A successful append at the right version extends a contiguous stream to a
      longer contiguous stream. */
  lemma AppendExtendsContiguous<E>(streams: Streams<E>, id: string, expectedVersion: int, events: NonEmptyList<E>)
    requires HasVersion(streams, id) && Contiguous(StreamOf(streams, id))
    requires expectedVersion == |StreamOf(streams, id)| - 1
    requires AppendToStream(streams, id, expectedVersion, events).outcome.Right?
    ensures var stream := AppendToStream(streams, id, expectedVersion, events).streams[id];
      && |stream| == |StreamOf(streams, id)| + |events.ToSeq()|
      && Contiguous(stream)
  {
    AppendAssignsVersions(streams, id, expectedVersion, events);
    var prior := StreamOf(streams, id);
    var stream := AppendToStream(streams, id, expectedVersion, events).streams[id];
    forall i | 0 <= i < |stream|
      ensures stream[i].version == i
    {
      if i < |prior| {
        assert stream[i] == stream[..|prior|][i];
      } else {
        assert stream[|prior| + (i - |prior|)].version == expectedVersion + (i - |prior|) + 1;
      }
    }
  }

  /** Appending keeps every stream non-empty with versions exactly 0 .. n-1. */
  lemma AppendPreservesWellFormed<E>(streams: Streams<E>, id: string, expectedVersion: int, events: NonEmptyList<E>)
    requires WellFormed(streams)
    ensures WellFormed(AppendToStream(streams, id, expectedVersion, events).streams)
  {
    var r := AppendToStream(streams, id, expectedVersion, events);
    if r.outcome.Right? {
      AppendSucceedsIff(streams, id, expectedVersion, events);
      AppendExtendsContiguous(streams, id, expectedVersion, events);
    }
  }

  /** On a contiguous stream the version order is the insertion order. */
  lemma ReadInInsertionOrder<E>(streams: Streams<E>, id: string)
    requires Contiguous(StreamOf(streams, id))
    ensures ReadFromStream(streams, id) == EventsOf(StreamOf(streams, id))
  {
    SortOfSorted(StreamOf(streams, id));
  }

  /** The stream a successful append leaves behind: the old entries followed by
      the numbered new ones. */
  lemma AppendedStream<E>(streams: Streams<E>, id: string, expectedVersion: int, events: NonEmptyList<E>)
    requires HasVersion(streams, id)
    requires AppendToStream(streams, id, expectedVersion, events).outcome.Right?
    ensures AppendToStream(streams, id, expectedVersion, events).streams[id]
         == StreamOf(streams, id) + Numbered(events.ToSeq(), expectedVersion)
  {
  }

  lemma EventsOfConcat<E>(a: Stream<E>, b: Stream<E>)
    ensures EventsOf(a + b) == EventsOf(a) + EventsOf(b)
  {
  }

  lemma EventsOfNumbered<E>(events: seq<E>, expectedVersion: int)
    ensures EventsOf(Numbered(events, expectedVersion)) == events
  {
  }

  /** A successful append checked against the stored maximum: every old entry is
      at or below the expected version, and the new entries are sorted and above it. */
  lemma AppendAbove<E>(streams: Streams<E>, id: string, expectedVersion: int, events: NonEmptyList<E>)
    requires HasVersion(streams, id)
    requires AppendToStream(streams, id, expectedVersion, events).outcome.Right?
    ensures forall i :: 0 <= i < |StreamOf(streams, id)| ==> StreamOf(streams, id)[i].version <= expectedVersion
    ensures var added := Numbered(events.ToSeq(), expectedVersion);
      && SortedByVersion(added)
      && forall i :: 0 <= i < |added| ==> added[i].version == expectedVersion + i + 1
  {
    if id in streams {
      assert GetVersion(streams[id]) == expectedVersion;
    }
  }

  /** Round trip: after a successful append, reading the stream yields what it
      read before followed by the appended events. This holds on any store, since
      the new events are numbered above every stored version. */
  lemma ReadAfterAppend<E>(streams: Streams<E>, id: string, expectedVersion: int, events: NonEmptyList<E>)
    requires HasVersion(streams, id)
    requires AppendToStream(streams, id, expectedVersion, events).outcome.Right?
    ensures var after := AppendToStream(streams, id, expectedVersion, events).streams;
      ReadFromStream(after, id) == ReadFromStream(streams, id) + events.ToSeq()
  {
    var existing := StreamOf(streams, id);
    var added := Numbered(events.ToSeq(), expectedVersion);
    AppendedStream(streams, id, expectedVersion, events);
    AppendAbove(streams, id, expectedVersion, events);
    SortAppendAbove(existing, added, expectedVersion);
    EventsOfConcat(SortByVersion(existing), added);
    EventsOfNumbered(events.ToSeq(), expectedVersion);
  }

  /** After a successful append, the stream's version has advanced by exactly the
      number of appended events. */
  lemma VersionAfterAppend<E>(streams: Streams<E>, id: string, expectedVersion: int, events: NonEmptyList<E>)
    requires HasVersion(streams, id)
    requires AppendToStream(streams, id, expectedVersion, events).outcome.Right?
    ensures var after := AppendToStream(streams, id, expectedVersion, events).streams;
      id in after && |after[id]| > 0 && GetVersion(after[id]) == expectedVersion + |events.ToSeq()|
  {
    var existing := StreamOf(streams, id);
    var added := Numbered(events.ToSeq(), expectedVersion);
    var stream := AppendToStream(streams, id, expectedVersion, events).streams[id];
    var top := expectedVersion + |events.ToSeq()|;
    AppendedStream(streams, id, expectedVersion, events);
    AppendAbove(streams, id, expectedVersion, events);
    assert stream[|stream| - 1] == added[|added| - 1];
    forall i | 0 <= i < |stream|
      ensures stream[i].version <= top
    {
      if i < |existing| {
        assert stream[i] == existing[i];
      } else {
        assert stream[i] == added[i - |existing|];
      }
    }
  }

  /** An append that expects a version `k > 0` behind the stream's is refused. */
  lemma AppendBehind<E>(streams: Streams<E>, id: string, expectedVersion: int, k: int, events: NonEmptyList<E>)
    requires id in streams && |streams[id]| > 0
    requires GetVersion(streams[id]) == expectedVersion + k && k > 0
    ensures AppendToStream(streams, id, expectedVersion, events)
         == Appended(Left(ConcurrencyError(expectedVersion, expectedVersion + k)), streams)
  {
  }

  /** Two appends at the same expected version, one after the other: the second
      sees the version the first one produced and fails, so at most one wins. */
  lemma AtMostOneWriterWins<E>(streams: Streams<E>, id: string, expectedVersion: int, first: NonEmptyList<E>, second: NonEmptyList<E>)
    requires HasVersion(streams, id)
    requires AppendToStream(streams, id, expectedVersion, first).outcome.Right?
    ensures var after := AppendToStream(streams, id, expectedVersion, first).streams;
      && HasVersion(after, id)
      && AppendToStream(after, id, expectedVersion, second)
        == Appended(Left(ConcurrencyError(expectedVersion, expectedVersion + |first.ToSeq()|)), after)
  {
    var after := AppendToStream(streams, id, expectedVersion, first).streams;
    var k := |first.ToSeq()|;
    VersionAfterAppend(streams, id, expectedVersion, first);
    AppendBehind(after, id, expectedVersion, k, second);
  }
}
