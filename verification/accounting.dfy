/** The worked instance of Accounting.kt: an online account that is created,
    then receives deposits and withdrawals, with positivity and no-overdraft rules.
    Amounts are `BigDecimal` in the source; addition, subtraction and comparison
    on them are exact, so `int` is used here. */
module Accounting {
  import opened Functional
  import opened Deciders
  import opened EventStore
  import opened CommandHandler

  /** Account ids are UUIDs in the source; here an opaque string. */
  type AccountId = string

  datatype Account =
    | Uninitialized
    | OnlineAccount(accountId: AccountId, balance: int)

  datatype Command =
    | CreateOnlineAccount(accountId: AccountId)
    | MakeDeposit(depositAmount: int)
    | Withdraw(withdrawalAmount: int)

  datatype Event =
    | OnlineAccountCreated(accountId: AccountId)
    | DepositMade(accountId: AccountId, depositAmount: int)
    | MoneyWithdrawn(accountId: AccountId, withdrawalAmount: int)

  /** A rejection: one of the fixed messages, or the interpolated
      "invalid operation <command> on current state <state>" message, kept
      abstract as the pair it is built from. */
  datatype Rejection =
    | Message(text: string)
    | InvalidOperation(command: Command, state: Account)

  const DepositNotPositive := "deposit amount must be positive"
  const WithdrawalNotPositive := "withdrawal amount must be positive"
  const Overdraft := "overdraft not allowed"

  /** The signed change an event makes to an existing account's balance. */
  function Effect(event: Event): int {
    match event
    case OnlineAccountCreated(_) => 0
    case DepositMade(_, amount) => amount
    case MoneyWithdrawn(_, amount) => -amount
  }

  /** The decider's `apply`. An uninitialised account is opened only by its
      creation event; an open account moves its balance by the event's effect and
      keeps its id. Every other pairing leaves the state as it is. */
  function Apply(state: Account, event: Event): (r: Account)
    ensures state.Uninitialized? && event.OnlineAccountCreated? ==> r == OnlineAccount(event.accountId, 0)
    ensures state.Uninitialized? && !event.OnlineAccountCreated? ==> r == state
    ensures state.OnlineAccount? ==>
      r.OnlineAccount? && r.accountId == state.accountId && r.balance == state.balance + Effect(event)
    ensures state.OnlineAccount? && event.OnlineAccountCreated? ==> r == state
  {
    if state.Uninitialized? && event.OnlineAccountCreated? then
      OnlineAccount(event.accountId, 0)
    else if state.OnlineAccount? && event.DepositMade? then
      OnlineAccount(state.accountId, state.balance + event.depositAmount)
    else if state.OnlineAccount? && event.MoneyWithdrawn? then
      OnlineAccount(state.accountId, state.balance - event.withdrawalAmount)
    else
      state
  }

  /** `handleCreation`. */
  function HandleCreation(accountId: AccountId): (r: Decision<Rejection, Event>)
    ensures r.Valid? && r.value.ToSeq() == [OnlineAccountCreated(accountId)]
  {
    Accept(OnlineAccountCreated(accountId), [])
  }

  /** Reference statement of the business rules: which commands are allowed in which state. */
  predicate Permitted(command: Command, state: Account) {
    match state
    case Uninitialized => command.CreateOnlineAccount?
    case OnlineAccount(_, balance) =>
      || (command.MakeDeposit? && 0 < command.depositAmount)
      || (command.Withdraw? && 0 < command.withdrawalAmount <= balance)
  }

  /** `decideOnlineAccount`: positive deposits, and positive withdrawals that do not
      overdraw, are accepted with one event carrying the account's own id. */
  function DecideOnlineAccount(command: Command, state: Account): (r: Decision<Rejection, Event>)
    requires state.OnlineAccount?
    ensures r.Valid? <==> Permitted(command, state)
    ensures r.Valid? ==> r.value.tail == [] && r.value.head.accountId == state.accountId
    ensures r.Valid? && command.MakeDeposit? ==> r.value.head == DepositMade(state.accountId, command.depositAmount)
    ensures r.Valid? && command.Withdraw? ==> r.value.head == MoneyWithdrawn(state.accountId, command.withdrawalAmount)
  {
    match command
    case MakeDeposit(amount) =>
      if amount <= 0 then Reject(Message(DepositNotPositive), [])
      else Accept(DepositMade(state.accountId, amount), [])
    case Withdraw(amount) =>
      if amount <= 0 then Reject(Message(WithdrawalNotPositive), [])
      else if state.balance - amount < 0 then Reject(Message(Overdraft), [])
      else Accept(MoneyWithdrawn(state.accountId, amount), [])
    case CreateOnlineAccount(_) =>
      Reject(InvalidOperation(command, state), [])
  }

  /** The state a permitted command is meant to produce. */
  function Intended(command: Command, state: Account): Account
    requires Permitted(command, state)
  {
    match command
    case CreateOnlineAccount(id) => OnlineAccount(id, 0)
    case MakeDeposit(amount) => state.(balance := state.balance + amount)
    case Withdraw(amount) => state.(balance := state.balance - amount)
  }

  /** The decider's `decide`. It accepts exactly the permitted commands, each with a
      single event that takes the state to the intended one; it rejects everything
      else with a single error. */
  function Decide(command: Command, state: Account): (r: Decision<Rejection, Event>)
    ensures r.Valid? <==> Permitted(command, state)
    ensures r.Valid? ==> r.value.tail == [] && Apply(state, r.value.head) == Intended(command, state)
    ensures r.Invalid? ==> r.errors.tail == []
    ensures r.Valid? && command.CreateOnlineAccount? ==> r.value.head == OnlineAccountCreated(command.accountId)
    ensures r.Valid? && command.MakeDeposit? ==> r.value.head == DepositMade(state.accountId, command.depositAmount)
    ensures r.Valid? && command.Withdraw? ==> r.value.head == MoneyWithdrawn(state.accountId, command.withdrawalAmount)
  {
    if state.Uninitialized? && command.CreateOnlineAccount? then HandleCreation(command.accountId)
    else if state.OnlineAccount? then DecideOnlineAccount(command, state)
    else Reject(InvalidOperation(command, state), [])
  }

  /** The accounting decider: `initial`, `apply` and `decide` together. */
  const AccountDecider: Decider<Account, Command, Event, Rejection> :=
    Decider(Uninitialized, Apply, Decide)

  /** The decider starts from an uninitialised (and so non-negative) account that
      replaying no events leaves untouched, and its `apply` and `decide` are the
      functions above. */
  lemma AccountDeciderParts(state: Account)
    ensures AccountDecider.initial == Uninitialized && NonNegative(AccountDecider.initial)
    ensures Replay(AccountDecider, state, []) == (Uninitialized, -1)
    ensures forall s, e :: AccountDecider.apply(s, e) == Apply(s, e)
    ensures forall c, s :: AccountDecider.decide(c, s) == Decide(c, s)
  {
  }

  /** Which error each refused command gets. */
  lemma DecideRejections(command: Command, state: Account)
    ensures state.Uninitialized? && !command.CreateOnlineAccount? ==>
      Decide(command, state) == Invalid(NonEmptyList(InvalidOperation(command, state), []))
    ensures state.OnlineAccount? && command.CreateOnlineAccount? ==>
      Decide(command, state) == Invalid(NonEmptyList(InvalidOperation(command, state), []))
    ensures state.OnlineAccount? && command.MakeDeposit? && command.depositAmount <= 0 ==>
      Decide(command, state) == Invalid(NonEmptyList(Message(DepositNotPositive), []))
    ensures state.OnlineAccount? && command.Withdraw? && command.withdrawalAmount <= 0 ==>
      Decide(command, state) == Invalid(NonEmptyList(Message(WithdrawalNotPositive), []))
    ensures (state.OnlineAccount? && command.Withdraw? && 0 < command.withdrawalAmount
             && state.balance - command.withdrawalAmount < 0) ==>
      Decide(command, state) == Invalid(NonEmptyList(Message(Overdraft), []))
  {
  }

  predicate NonNegative(state: Account) {
    state.OnlineAccount? ==> state.balance >= 0
  }

  /** Balance invariant: accepting a command from a non-negative state and applying
      the accepted events leads to a non-negative state. */
  lemma DecidePreservesNonNegative(command: Command, state: Account)
    requires NonNegative(state)
    requires Decide(command, state).Valid?
    ensures NonNegative(StateAfter(AccountDecider, state, Decide(command, state).value.ToSeq()))
  {
    var events := Decide(command, state).value.ToSeq();
    assert events[..0] == [];
  }

  /** Every account stored in the event store replays to a non-negative balance. */
  predicate Solvent(streams: Streams<Event>) {
    forall id :: id in streams ==> NonNegative(Current(AccountDecider, streams, id).0)
  }

  /** One handled command keeps every stored account solvent, on any store where
      the handler can reach `getVersion` for `id`. */
  lemma InvokePreservesSolvent(streams: Streams<Event>, id: string, command: Command)
    requires HasVersion(streams, id) && Solvent(streams)
    ensures Solvent(Invoke(AccountDecider, streams, id, command).streams)
  {
    var d := AccountDecider;
    var after := Invoke(d, streams, id, command).streams;
    if DecisionFor(d, streams, id, command).Valid? {
      var newEvents := DecisionFor(d, streams, id, command).value;
      var expected := Current(d, streams, id).1;
      var r := AppendToStream(streams, id, expected, newEvents);
      assert after == r.streams;
      if r.outcome.Right? {
        var before := ReadFromStream(streams, id);
        ReadAfterAppend(streams, id, expected, newEvents);
        ReplayConcat(d, d.initial, before, newEvents.ToSeq());
        DecidePreservesNonNegative(command, Current(d, streams, id).0);
        InvokeKeepsOtherStreams(d, streams, id, command);
        forall other | other in after && other != id
          ensures NonNegative(Current(d, after, other).0)
        {
          assert other in streams;
        }
      } else {
        assert after == streams;
      }
    }
  }

  /** Any sequence of commands, handled one after another from a solvent
      well-formed store, leaves every account with a non-negative balance. */
  lemma {:induction false} RunPreservesSolvent(streams: Streams<Event>, commands: seq<(string, Command)>)
    requires WellFormed(streams) && Solvent(streams)
    ensures Solvent(Run(AccountDecider, streams, commands))
    decreases |commands|
  {
    if |commands| > 0 {
      var id, command := commands[0].0, commands[0].1;
      InvokeGrowsStore(AccountDecider, streams, id, command);
      InvokePreservesSolvent(streams, id, command);
      RunPreservesSolvent(Invoke(AccountDecider, streams, id, command).streams, commands[1..]);
    }
  }

  /** Scenario: creating an account on an empty store opens it with balance 0 at version 0. */
  lemma CreateOnEmptyStore(id: string, accountId: AccountId)
    ensures Invoke(AccountDecider, map[], id, CreateOnlineAccount(accountId)).outcome == Right(())
    ensures Current(AccountDecider, Invoke(AccountDecider, map[], id, CreateOnlineAccount(accountId)).streams, id)
         == (OnlineAccount(accountId, 0), 0)
  {
    var empty: Streams<Event> := map[];
    InvokeAppendsAcceptedEvents(AccountDecider, empty, id, CreateOnlineAccount(accountId));
    var events := [OnlineAccountCreated(accountId)];
    assert ReadFromStream(Invoke(AccountDecider, empty, id, CreateOnlineAccount(accountId)).streams, id) == events;
    assert events[..0] == [];
  }

  /** Scenarios on the decision rules alone. */
  lemma DecisionScenarios(accountId: AccountId)
    ensures Decide(MakeDeposit(-5), OnlineAccount(accountId, 0)).errors.head == Message(DepositNotPositive)
    ensures Apply(OnlineAccount(accountId, 1000), Decide(Withdraw(500), OnlineAccount(accountId, 1000)).value.head)
         == OnlineAccount(accountId, 500)
    ensures Decide(Withdraw(501), OnlineAccount(accountId, 500)).errors.head == Message(Overdraft)
    ensures Decide(MakeDeposit(42), Uninitialized).errors.head == InvalidOperation(MakeDeposit(42), Uninitialized)
  {
  }
}
