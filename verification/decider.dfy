/** The domain-agnostic Decider abstraction and the `Update` helpers of Decider.kt. */
module Deciders {
  import opened Functional

  /** What `decide` returns: `ValidatedNel<Error, NonEmptyList<Event>>`. */
  type Decision<Err, E> = Validated<NonEmptyList<Err>, NonEmptyList<E>>

  /** A state machine: its initial state, a total fold step and a decision rule. */
  datatype Decider<!S, !C, !E, Err> = Decider(
    initial: S,
    apply: (S, E) -> S,
    decide: (C, S) -> Decision<Err, E>)

  /** Reference meaning of a history: the state reached from `from` by applying
      the events one at a time, the last event outermost. */
  function StateAfter<S, C, E, Err>(d: Decider<S, C, E, Err>, from: S, events: seq<E>): S
    decreases |events|
  {
    if |events| == 0 then from
    else d.apply(StateAfter(d, from, events[..|events| - 1]), events[|events| - 1])
  }

  /** The left fold that `replay` performs over a (state, version) accumulator:
      every event is applied to the running state and bumps the version by one. */
  function FoldEvents<S, C, E, Err>(d: Decider<S, C, E, Err>, acc: (S, int), events: seq<E>): (r: (S, int))
    ensures r.1 == acc.1 + |events|
    decreases |events|
  {
    if |events| == 0 then acc
    else FoldEvents(d, (d.apply(acc.0, events[0]), acc.1 + 1), events[1..])
  }

  /** Folding a concatenation is folding the second part from where the first part ended. */
  lemma {:induction false} FoldConcat<S, C, E, Err>(d: Decider<S, C, E, Err>, acc: (S, int), xs: seq<E>, ys: seq<E>)
    ensures FoldEvents(d, acc, xs + ys) == FoldEvents(d, FoldEvents(d, acc, xs), ys)
    decreases |xs|
  {
    if |xs| == 0 {
      assert xs + ys == ys;
    } else {
      assert (xs + ys)[1..] == xs[1..] + ys;
      FoldConcat(d, (d.apply(acc.0, xs[0]), acc.1 + 1), xs[1..], ys);
    }
  }

  /** The left fold computes the reference state, whatever version it starts counting from. */
  lemma {:induction false} FoldIsStateAfter<S, C, E, Err>(d: Decider<S, C, E, Err>, from: S, version: int, events: seq<E>)
    ensures FoldEvents(d, (from, version), events).0 == StateAfter(d, from, events)
    decreases |events|
  {
    if |events| > 0 {
      var n := |events| - 1;
      var last := [events[n]];
      assert events == events[..n] + last;
      FoldConcat(d, (from, version), events[..n], last);
      FoldIsStateAfter(d, from, version, events[..n]);
      assert last[1..] == [];
    }
  }

  /** `Decider.replay`: folds `apply` over the events starting from `initial`
      with version -1. The `state` argument is accepted but never used. */
  function Replay<S, C, E, Err>(d: Decider<S, C, E, Err>, state: S, events: seq<E>): (r: (S, int))
    ensures r.0 == StateAfter(d, d.initial, events)
    ensures r.1 == |events| - 1
  {
    FoldIsStateAfter(d, d.initial, -1, events);
    FoldEvents(d, (d.initial, -1), events)
  }

  /** Replaying `xs + ys` continues the replay of `xs` with `ys`; the version
      grows by exactly `|ys|`. */
  lemma {:induction false} ReplayConcat<S, C, E, Err>(d: Decider<S, C, E, Err>, state: S, xs: seq<E>, ys: seq<E>)
    ensures Replay(d, state, xs + ys) == FoldEvents(d, Replay(d, state, xs), ys)
    ensures Replay(d, state, xs + ys).0 == StateAfter(d, Replay(d, state, xs).0, ys)
    ensures Replay(d, state, xs + ys).1 == Replay(d, state, xs).1 + |ys|
  {
    var mid := Replay(d, state, xs);
    FoldConcat(d, (d.initial, -1), xs, ys);
    FoldIsStateAfter(d, mid.0, mid.1, ys);
  }

  /** `Update.accept(event, *events)`: a success whose event list is `event`
      followed by `events`, in order. */
  function Accept<E, Err>(event: E, events: seq<E>): (r: Decision<Err, E>)
    ensures r.Valid?
    ensures r.value.ToSeq() == [event] + events
  {
    Valid(NonEmptyList(event, events))
  }

  /** `Update.reject(error, *errors)`: a failure whose error list is `error`
      followed by `errors`, in order. */
  function Reject<E, Err>(error: Err, errors: seq<Err>): (r: Decision<Err, E>)
    ensures r.Invalid?
    ensures r.errors.ToSeq() == [error] + errors
  {
    Invalid(NonEmptyList(error, errors))
  }

  /** `Update.fromValidated`: re-tags a validated value without touching its payload. */
  function FromValidated<E, Err>(validated: Validated<NonEmptyList<Err>, NonEmptyList<E>>): (r: Decision<Err, E>)
    ensures r.Valid? <==> validated.Valid?
    ensures validated.Valid? ==> r.value == validated.value
    ensures validated.Invalid? ==> r.errors == validated.errors
  {
    match validated
    case Invalid(errors) => Invalid(errors)
    case Valid(events) => Valid(events)
  }
}
