/**
 * Setting up a staking account: every decision is taken from one snapshot of the chain, then
 * up to three transactions are sent in order. The membership pallet's candidate, confirm and
 * remove calls are modelled with their own checks; the rest of the chain answers through verdicts.
 */
module StakingSetup {
  import opened Wrappers
  import opened Machine
  import opened StakingLocks
  import BloatBonds

  type AccountId = string

  datatype Binding = Binding(memberId: nat, confirmed: bool)

  datatype Chain = Chain(
    accounts: map<AccountId, Account>,
    bindings: map<AccountId, Binding>,
    controllers: map<nat, AccountId>,
    candidateStake: nat)

  function AccountOf(c: Chain, a: AccountId): Account {
    if a in c.accounts then c.accounts[a] else Account(0, [])
  }

  function SetFree(c: Chain, a: AccountId, free: nat): Chain {
    c.(accounts := c.accounts[a := AccountOf(c, a).(free := free)])
  }

  // ---------------------------------------------------------------- transactions

  datatype Tx =
    | TransferKeepAlive(signer: AccountId, dest: AccountId, amount: nat)
    | AddStakingAccountCandidate(signer: AccountId, memberId: nat)
    | ConfirmStakingAccount(signer: AccountId, memberId: nat, account: AccountId)
    | RemoveStakingAccount(signer: AccountId, memberId: nat)

  /** What becomes of a submission: never included (declined at the prompt, no key, rejected),
      or included for a fee, possibly refused by the balances pallet. */
  datatype Verdict = NotIncluded | Included(fee: nat, refused: bool)

  function Dispatch(c: Chain, tx: Tx, refused: bool): Option<Chain> {
    match tx
    case TransferKeepAlive(source, dest, amount) =>
      if refused || AccountOf(c, source).free < amount then None
      else
        var taken := SetFree(c, source, AccountOf(c, source).free - amount);
        Some(SetFree(taken, dest, AccountOf(taken, dest).free + amount))
    case AddStakingAccountCandidate(account, memberId) =>
      var acc := AccountOf(c, account);
      if account in c.bindings || memberId !in c.controllers
         || AreLocksConflicting(BOUND_STAKING_ACCOUNT, Ids(acc.locks)) || acc.free < c.candidateStake
      then None
      else
        var locks := SetLock(acc.locks, BOUND_STAKING_ACCOUNT, c.candidateStake);
        Some(c.(accounts := c.accounts[account := acc.(locks := locks)],
                bindings := c.bindings[account := Binding(memberId, false)]))
    case ConfirmStakingAccount(signer, memberId, account) =>
      if memberId !in c.controllers || c.controllers[memberId] != signer
         || account !in c.bindings || c.bindings[account].memberId != memberId || c.bindings[account].confirmed
      then None
      else Some(c.(bindings := c.bindings[account := Binding(memberId, true)]))
    case RemoveStakingAccount(account, memberId) =>
      var acc := AccountOf(c, account);
      if memberId !in c.controllers || account !in c.bindings || c.bindings[account].memberId != memberId
      then None
      else Some(c.(accounts := c.accounts[account := acc.(locks := RemoveLock(acc.locks, BOUND_STAKING_ACCOUNT))],
                   bindings := c.bindings - {account}))
  }

  /** The chain after a submission, and whether the call succeeded. A failed call still costs
      its fee. */
  function Submit(c: Chain, tx: Tx, v: Verdict): (Chain, bool) {
    match v
    case NotIncluded => (c, false)
    case Included(fee, refused) =>
      if AccountOf(c, tx.signer).free < fee then (c, false)
      else
        var charged := SetFree(c, tx.signer, AccountOf(c, tx.signer).free - fee);
        match Dispatch(charged, tx, refused)
        case None => (charged, false)
        case Some(after) => (after, true)
  }

  // ---------------------------------------------------------------- the set-up

  /** The tool's own figure; the runtime's candidate stake is a field of the chain. */
  const STAKING_ACCOUNT_CANDIDATE_STAKE: nat := 200

  datatype Request = Request(
    memberId: nat, controller: AccountId, address: Option<AccountId>, requiredStake: nat,
    fundsSource: Option<AccountId>, lockId: Option<LockId>)

  /** Everything that comes from the user or the node while the set-up runs. */
  datatype Answers = Answers(
    chosenAddress: AccountId, candidateFee: nat, agreesToTransfer: bool, chosenSource: AccountId,
    transfer: Verdict, candidate: Verdict, confirm: Verdict)

  datatype SetupError =
    | SourceKeyUnavailable | IncompatibleLocks | BoundToOtherMember | AccountNotAccessible | TransferDeclined
    | TransactionFailed

  function Address(q: Request, ans: Answers): AccountId {
    if q.address.Some? then q.address.value else ans.chosenAddress
  }

  function Source(q: Request, ans: Answers): AccountId {
    if q.fundsSource.Some? then q.fundsSource.value else ans.chosenSource
  }

  predicate Unbound(c: Chain, a: AccountId) { a !in c.bindings }
  predicate Unconfirmed(c: Chain, a: AccountId) { a !in c.bindings || !c.bindings[a].confirmed }

  /** The balance asked for before the first transaction. */
  function RequiredBalance(c: Chain, q: Request, ans: Answers): nat {
    if Unbound(c, Address(q, ans)) then q.requiredStake + ans.candidateFee + STAKING_ACCOUNT_CANDIDATE_STAKE
    else q.requiredStake
  }

  function VerdictFor(ans: Answers, tx: Tx): Verdict {
    match tx
    case TransferKeepAlive(_, _, _) => ans.transfer
    case AddStakingAccountCandidate(_, _) => ans.candidate
    case ConfirmStakingAccount(_, _, _) => ans.confirm
    case RemoveStakingAccount(_, _) => NotIncluded
  }

  /** The transactions of one set-up, each sent only if it is called for. */
  datatype Steps = Steps(transfer: Option<Tx>, candidate: Option<Tx>, confirm: Option<Tx>)

  const NO_STEPS: Steps := Steps(None, None, None)

  function When(condition: bool, tx: Tx): Option<Tx> { if condition then Some(tx) else None }

  /** The first check that fails, or the transactions that will be sent, all decided on the
      snapshot `c`. */
  function Plan(c: Chain, keys: set<AccountId>, q: Request, ans: Answers): Result<Steps, SetupError> {
    var a := Address(q, ans);
    var missing := Monus(RequiredBalance(c, q, ans), AccountOf(c, a).free);
    if q.fundsSource.Some? && q.fundsSource.value !in keys then Err(SourceKeyUnavailable)
    else if q.lockId.Some? && !AreAccountLocksCompatibleWith(AccountOf(c, a).locks, q.lockId.value)
    then Err(IncompatibleLocks)
    else if !Unbound(c, a) && c.bindings[a].memberId != q.memberId then Err(BoundToOtherMember)
    else if Unconfirmed(c, a) && a !in keys then Err(AccountNotAccessible)
    else if missing > 0 && !ans.agreesToTransfer then Err(TransferDeclined)
    else Ok(Steps(When(missing > 0, TransferKeepAlive(Source(q, ans), a, missing)),
                  When(Unbound(c, a), AddStakingAccountCandidate(a, q.memberId)),
                  When(Unconfirmed(c, a), ConfirmStakingAccount(q.controller, q.memberId, a))))
  }

  // What each check asks for, in the order in which they are made.

  /** A source given on the command line is one whose key is there. */
  predicate SourceKnown(keys: set<AccountId>, q: Request) {
    q.fundsSource.None? || q.fundsSource.value in keys
  }

  /** The runtime would not find the requested lock conflicting. */
  predicate LockFits(c: Chain, q: Request, a: AccountId) {
    q.lockId.Some? ==> !AreLocksConflicting(q.lockId.value, Ids(AccountOf(c, a).locks))
  }

  /** The account is not bound to another member. */
  predicate OwnOrUnbound(c: Chain, q: Request, a: AccountId) {
    a in c.bindings ==> c.bindings[a].memberId == q.memberId
  }

  /** The account needs to sign nothing, or can. */
  predicate ConfirmedOrKnown(c: Chain, keys: set<AccountId>, a: AccountId) {
    a in keys || (a in c.bindings && c.bindings[a].confirmed)
  }

  /** What the account is short of. */
  function Short(c: Chain, q: Request, ans: Answers, a: AccountId): int {
    q.requiredStake + (if a in c.bindings then 0 else ans.candidateFee + STAKING_ACCOUNT_CANDIDATE_STAKE)
      - AccountOf(c, a).free
  }

  /** The checks pass if and only if each of the five conditions holds, and otherwise the first
      that does not decides the error. */
  lemma PlanPassesIff(c: Chain, keys: set<AccountId>, q: Request, ans: Answers, a: AccountId)
    requires a == if q.address.Some? then q.address.value else ans.chosenAddress
    ensures Plan(c, keys, q, ans).Ok? <==>
              && SourceKnown(keys, q) && LockFits(c, q, a) && OwnOrUnbound(c, q, a)
              && ConfirmedOrKnown(c, keys, a) && (Short(c, q, ans, a) <= 0 || ans.agreesToTransfer)
    ensures Plan(c, keys, q, ans).Err? ==>
              Plan(c, keys, q, ans).error
                == if !SourceKnown(keys, q) then SourceKeyUnavailable
                   else if !LockFits(c, q, a) then IncompatibleLocks
                   else if !OwnOrUnbound(c, q, a) then BoundToOtherMember
                   else if !ConfirmedOrKnown(c, keys, a) then AccountNotAccessible
                   else TransferDeclined
  {
    if q.lockId.Some? {
      CliAgreesWithRuntime(AccountOf(c, a).locks, q.lockId.value);
    }
  }

  /** When they pass, exactly what is missing is transferred, from the given source or else the
      chosen one; an unbound account is made a candidate, an unconfirmed one confirmed. */
  lemma PlannedSteps(c: Chain, keys: set<AccountId>, q: Request, ans: Answers, a: AccountId, source: AccountId)
    requires a == if q.address.Some? then q.address.value else ans.chosenAddress
    requires source == if q.fundsSource.Some? then q.fundsSource.value else ans.chosenSource
    requires Plan(c, keys, q, ans).Ok?
    ensures var steps := Plan(c, keys, q, ans).value;
            && (Short(c, q, ans, a) > 0 ==>
                  steps.transfer == Some(TransferKeepAlive(source, a, Short(c, q, ans, a))))
            && (Short(c, q, ans, a) <= 0 ==> steps.transfer.None?)
            && (a !in c.bindings ==> steps.candidate == Some(AddStakingAccountCandidate(a, q.memberId)))
            && (a in c.bindings ==> steps.candidate.None?)
            && (a !in c.bindings || !c.bindings[a].confirmed ==>
                  steps.confirm == Some(ConfirmStakingAccount(q.controller, q.memberId, a)))
            && (a in c.bindings && c.bindings[a].confirmed ==> steps.confirm.None?)
  {
  }

  function Perform(c: Chain, tx: Option<Tx>, ans: Answers): (Chain, bool) {
    match tx
    case None => (c, true)
    case Some(t) => Submit(c, t, VerdictFor(ans, t))
  }

  /** Transfer, then candidate, then confirm, stopping at the first that does not succeed. */
  function Execute(c: Chain, steps: Steps, ans: Answers): (Chain, bool) {
    var (c1, ok1) := Perform(c, steps.transfer, ans);
    if !ok1 then (c1, false) else
    var (c2, ok2) := Perform(c1, steps.candidate, ans);
    if !ok2 then (c2, false) else Perform(c2, steps.confirm, ans)
  }

  /** One command talking to one node; `sent` counts the submissions. */
  class Session {
    var chain: Chain
    var sent: nat
    const keys: set<AccountId>

    constructor (chain: Chain, keys: set<AccountId>)
      ensures this.chain == chain && this.keys == keys && sent == 0
    {
      this.chain := chain;
      this.keys := keys;
      sent := 0;
    }

    method Send(tx: Option<Tx>, ans: Answers) returns (ok: bool)
      modifies this
      ensures (chain, ok) == Perform(old(chain), tx, ans)
      ensures sent == old(sent) + (if tx.Some? then 1 else 0)
    {
      ok := true;
      if tx.Some? {
        var outcome := Submit(chain, tx.value, VerdictFor(ans, tx.value));
        chain := outcome.0;
        ok := outcome.1;
        sent := sent + 1;
      }
    }

    /** The checks of `setupStakingAccount`, in the source's order, up to the first submission. */
    method Check(q: Request, ans: Answers) returns (r: Result<Steps, SetupError>)
      ensures r == Plan(chain, keys, q, ans)
    {
      if q.fundsSource.Some? && q.fundsSource.value !in keys {
        return Err(SourceKeyUnavailable);
      }
      var address := if q.address.Some? then q.address.value else ans.chosenAddress;
      var balances := AccountOf(chain, address);
      var unbound := address !in chain.bindings;
      var unconfirmed := unbound || !chain.bindings[address].confirmed;
      if q.lockId.Some? && !AreAccountLocksCompatibleWith(balances.locks, q.lockId.value) {
        return Err(IncompatibleLocks);
      }
      if !unbound && chain.bindings[address].memberId != q.memberId {
        return Err(BoundToOtherMember);
      }
      var candidateTxFee := 0;
      if unconfirmed {
        if address !in keys {
          return Err(AccountNotAccessible);
        }
        if unbound {
          candidateTxFee := ans.candidateFee;
        }
      }
      var required :=
        if unbound then q.requiredStake + candidateTxFee + STAKING_ACCOUNT_CANDIDATE_STAKE else q.requiredStake;
      var missing := Monus(required, balances.free);
      if missing > 0 && !ans.agreesToTransfer {
        return Err(TransferDeclined);
      }
      var key := if q.fundsSource.Some? then q.fundsSource.value else ans.chosenSource;
      return Ok(Steps(When(missing > 0, TransferKeepAlive(key, address, missing)),
                      When(unbound, AddStakingAccountCandidate(address, q.memberId)),
                      When(unconfirmed, ConfirmStakingAccount(q.controller, q.memberId, address))));
    }

    /** `setupStakingAccount`: an error of its own checks leaves the chain untouched and sends
        nothing; otherwise the planned transactions are sent, up to the first failure. */
    method SetupStakingAccount(q: Request, ans: Answers) returns (r: Result<AccountId, SetupError>)
      modifies this
      ensures Plan(old(chain), keys, q, ans).Err? ==>
                r == Err(Plan(old(chain), keys, q, ans).error) && chain == old(chain) && sent == old(sent)
      ensures Plan(old(chain), keys, q, ans).Ok? ==>
                && (chain, r.Ok?) == Execute(old(chain), Plan(old(chain), keys, q, ans).value, ans)
                && r == (if r.Ok? then Ok(Address(q, ans)) else Err(TransactionFailed))
      ensures var a := if q.address.Some? then q.address.value else ans.chosenAddress;
              if !SourceKnown(keys, q) then r == Err(SourceKeyUnavailable)
              else if !LockFits(old(chain), q, a) then r == Err(IncompatibleLocks)
              else if !OwnOrUnbound(old(chain), q, a) then r == Err(BoundToOtherMember)
              else if !ConfirmedOrKnown(old(chain), keys, a) then r == Err(AccountNotAccessible)
              else if Short(old(chain), q, ans, a) > 0 && !ans.agreesToTransfer then r == Err(TransferDeclined)
              else r == Ok(a) || r == Err(TransactionFailed)
      ensures r.Err? && r.error != TransactionFailed ==> chain == old(chain) && sent == old(sent)
      ensures Plan(old(chain), keys, q, ans) == Ok(NO_STEPS) ==> r.Ok? && chain == old(chain) && sent == old(sent)
      ensures Plan(old(chain), keys, q, ans).Ok? && Plan(old(chain), keys, q, ans).value != NO_STEPS ==>
                sent > old(sent)
    {
      PlanPassesIff(chain, keys, q, ans, Address(q, ans));
      var checked := Check(q, ans);
      if checked.Err? {
        return Err(checked.error);
      }
      var steps := checked.value;
      var ok := Send(steps.transfer, ans);
      if !ok {
        return Err(TransactionFailed);
      }
      ok := Send(steps.candidate, ans);
      if !ok {
        return Err(TransactionFailed);
      }
      ok := Send(steps.confirm, ans);
      if !ok {
        return Err(TransactionFailed);
      }
      return Ok(if q.address.Some? then q.address.value else ans.chosenAddress);
    }

    /** The set-up twice in a row with the same arguments: after a success the second run
        succeeds and sends nothing, and so changes nothing, exactly when the fees of the first
        left the required stake in place; with another account as source and controller and a
        fee within the estimate they always do. */
    method SetupTwice(q: Request, ans: Answers, later: Answers)
      returns (r: Result<AccountId, SetupError>, again: Result<AccountId, SetupError>,
               ghost between: Chain, ghost sentOnce: nat)
      requires Address(q, later) == Address(q, ans)
      modifies this
      ensures r.Ok? ==>
                (again == r && sent == sentOnce
                 <==> ToppedUp(old(chain), q, ans) - Outlay(old(chain), q, ans) >= q.requiredStake)
      ensures r.Ok? && again == r && sent == sentOnce ==> chain == between
      ensures r.Ok? && Source(q, ans) != Address(q, ans) && q.controller != Address(q, ans)
              && (Unbound(old(chain), Address(q, ans)) ==> FeeOf(ans.candidate) <= ans.candidateFee) ==>
                again == r && chain == between && sent == sentOnce
    {
      r := SetupStakingAccount(q, ans);
      between, sentOnce := chain, sent;
      if r.Ok? {
        SecondPlanIsEmpty(old(chain), keys, q, ans, later);
      }
      again := SetupStakingAccount(q, later);
    }
  }

  // ---------------------------------------------------------------- what a success means

  ghost predicate Succeeds(c: Chain, keys: set<AccountId>, q: Request, ans: Answers) {
    Plan(c, keys, q, ans).Ok? && Execute(c, Plan(c, keys, q, ans).value, ans).1
  }

  ghost function After(c: Chain, keys: set<AccountId>, q: Request, ans: Answers): Chain
    requires Plan(c, keys, q, ans).Ok?
  {
    Execute(c, Plan(c, keys, q, ans).value, ans).0
  }

  function FeeOf(v: Verdict): nat { if v.Included? then v.fee else 0 }

  /** The balance the user was told the account needs to keep. */
  function Target(c: Chain, q: Request, ans: Answers): nat {
    if Unbound(c, Address(q, ans)) then q.requiredStake + STAKING_ACCOUNT_CANDIDATE_STAKE else q.requiredStake
  }

  /** Fees the account itself pays after the top-up. */
  function Outlay(c: Chain, q: Request, ans: Answers): nat {
    var a := Address(q, ans);
    (if Unbound(c, a) then FeeOf(ans.candidate) else 0)
      + (if Unconfirmed(c, a) && q.controller == a then FeeOf(ans.confirm) else 0)
  }

  /** The balance the top-up leaves: the requirement, the old balance, or, when the account is
      its own source, the old balance less the transfer fee. */
  function ToppedUp(c: Chain, q: Request, ans: Answers): int {
    var free := AccountOf(c, Address(q, ans)).free;
    if free >= RequiredBalance(c, q, ans) then free
    else if Source(q, ans) == Address(q, ans) then free - FeeOf(ans.transfer)
    else RequiredBalance(c, q, ans)
  }

  lemma TransferEffect(c: Chain, source: AccountId, a: AccountId, amount: nat, v: Verdict)
    requires Submit(c, TransferKeepAlive(source, a, amount), v).1
    ensures var c' := Submit(c, TransferKeepAlive(source, a, amount), v).0;
            && c' == c.(accounts := c'.accounts)
            && AccountOf(c', a).locks == AccountOf(c, a).locks
            && AccountOf(c', a).free
               == if source == a then AccountOf(c, a).free - FeeOf(v) else AccountOf(c, a).free + amount
  {
  }

  lemma CandidateEffect(c: Chain, a: AccountId, memberId: nat, v: Verdict)
    requires Submit(c, AddStakingAccountCandidate(a, memberId), v).1
    ensures var c' := Submit(c, AddStakingAccountCandidate(a, memberId), v).0;
            && c' == c.(accounts := c'.accounts, bindings := c.bindings[a := Binding(memberId, false)])
            && AccountOf(c', a).locks == SetLock(AccountOf(c, a).locks, BOUND_STAKING_ACCOUNT, c.candidateStake)
            && AccountOf(c', a).free == AccountOf(c, a).free - FeeOf(v)
            && AccountOf(c', a).free >= c.candidateStake
            && !AreLocksConflicting(BOUND_STAKING_ACCOUNT, Ids(AccountOf(c, a).locks))
  {
  }

  lemma ConfirmEffect(c: Chain, controller: AccountId, memberId: nat, a: AccountId, v: Verdict)
    requires Submit(c, ConfirmStakingAccount(controller, memberId, a), v).1
    ensures var c' := Submit(c, ConfirmStakingAccount(controller, memberId, a), v).0;
            && c' == c.(accounts := c'.accounts, bindings := c.bindings[a := Binding(memberId, true)])
            && AccountOf(c', a).locks == AccountOf(c, a).locks
            && AccountOf(c', a).free == AccountOf(c, a).free - (if controller == a then FeeOf(v) else 0)
            && AccountOf(c, a).free >= (if controller == a then FeeOf(v) else 0)
  {
  }

  /** A successful set-up leaves the account confirmed for the member, with its binding lock if
      it was unbound, every other lock as it was, and a balance known to the unit. */
  lemma SetupConfirms(c: Chain, keys: set<AccountId>, q: Request, ans: Answers)
    requires Succeeds(c, keys, q, ans)
    ensures var a := Address(q, ans);
            var c' := After(c, keys, q, ans);
            && a in c'.bindings && c'.bindings[a] == Binding(q.memberId, true)
            && AccountOf(c', a).free == ToppedUp(c, q, ans) - Outlay(c, q, ans)
            && AccountOf(c', a).locks
               == (if Unbound(c, a) then SetLock(AccountOf(c, a).locks, BOUND_STAKING_ACCOUNT, c.candidateStake)
                   else AccountOf(c, a).locks)
  {
    var a := Address(q, ans);
    var steps := Plan(c, keys, q, ans).value;
    var c1 := Perform(c, steps.transfer, ans).0;
    var c2 := Perform(c1, steps.candidate, ans).0;
    if steps.transfer.Some? {
      TransferEffect(c, Source(q, ans), a, steps.transfer.value.amount, ans.transfer);
    }
    if steps.candidate.Some? {
      CandidateEffect(c1, a, q.memberId, ans.candidate);
    }
    if steps.confirm.Some? {
      ConfirmEffect(c2, q.controller, q.memberId, a, ans.confirm);
    }
  }

  /** The account ends with the target balance: with another account as source and controller
      and a fee no higher than its estimate, always. */
  lemma SetupFunds(c: Chain, keys: set<AccountId>, q: Request, ans: Answers)
    requires Succeeds(c, keys, q, ans)
    requires Source(q, ans) != Address(q, ans) && q.controller != Address(q, ans)
    requires Unbound(c, Address(q, ans)) ==> FeeOf(ans.candidate) <= ans.candidateFee
    ensures AccountOf(After(c, keys, q, ans), Address(q, ans)).free >= Target(c, q, ans)
  {
    SetupConfirms(c, keys, q, ans);
  }

  /** Blocks by other users between two submissions: the account's binding is theirs to leave
      alone, its balance theirs only to raise, everything else arbitrary. */
  ghost predicate OthersAct(before: Chain, after: Chain, a: AccountId) {
    && (a in after.bindings <==> a in before.bindings)
    && (a in before.bindings ==> after.bindings[a] == before.bindings[a])
    && AccountOf(after, a).free >= AccountOf(before, a).free
  }

  /** Deciding on one snapshot is safe: with any such activity before each submission, a set-up
      whose submissions all succeed still ends confirmed and funded. */
  lemma SetupSurvivesOthers(c: Chain, keys: set<AccountId>, q: Request, ans: Answers, d1: Chain, d2: Chain, d3: Chain)
    requires Plan(c, keys, q, ans).Ok?
    requires Source(q, ans) != Address(q, ans) && q.controller != Address(q, ans)
    requires Unbound(c, Address(q, ans)) ==> FeeOf(ans.candidate) <= ans.candidateFee
    requires var steps := Plan(c, keys, q, ans).value;
             var a := Address(q, ans);
             && OthersAct(c, d1, a) && Perform(d1, steps.transfer, ans).1
             && OthersAct(Perform(d1, steps.transfer, ans).0, d2, a) && Perform(d2, steps.candidate, ans).1
             && OthersAct(Perform(d2, steps.candidate, ans).0, d3, a) && Perform(d3, steps.confirm, ans).1
    ensures var a := Address(q, ans);
            var end := Perform(d3, Plan(c, keys, q, ans).value.confirm, ans).0;
            && a in end.bindings && end.bindings[a] == Binding(q.memberId, true)
            && AccountOf(end, a).free >= Target(c, q, ans)
  {
    var a := Address(q, ans);
    var steps := Plan(c, keys, q, ans).value;
    if steps.transfer.Some? {
      TransferEffect(d1, Source(q, ans), a, steps.transfer.value.amount, ans.transfer);
    }
    if steps.candidate.Some? {
      CandidateEffect(d2, a, q.memberId, ans.candidate);
    }
    if steps.confirm.Some? {
      ConfirmEffect(d3, q.controller, q.memberId, a, ans.confirm);
    }
  }

  /** In general, exactly when the fees the account pays stay within the estimate, or it was
      rich enough to begin with; a self-transfer only ever costs its fee. */
  lemma SetupFundsIff(c: Chain, keys: set<AccountId>, q: Request, ans: Answers)
    requires Succeeds(c, keys, q, ans)
    ensures var a := Address(q, ans);
            var free := AccountOf(c, a).free;
            var selfTransfer := Source(q, ans) == a && free < RequiredBalance(c, q, ans);
            AccountOf(After(c, keys, q, ans), a).free >= Target(c, q, ans) <==>
              || free >= Target(c, q, ans) + Outlay(c, q, ans) + (if selfTransfer then FeeOf(ans.transfer) else 0)
              || (!selfTransfer && Outlay(c, q, ans) <= (if Unbound(c, a) then ans.candidateFee else 0))
  {
    SetupConfirms(c, keys, q, ans);
  }

  /** The lock added for a candidate is not rivalrous, so whatever was compatible still is. */
  lemma BindingKeepsCompatibility(locks: seq<BalanceLock>, amount: nat, id: LockId)
    requires AreAccountLocksCompatibleWith(locks, id)
    ensures AreAccountLocksCompatibleWith(SetLock(locks, BOUND_STAKING_ACCOUNT, amount), id)
  {
    var after := SetLock(locks, BOUND_STAKING_ACCOUNT, amount);
    CliRivalryAgrees(BOUND_STAKING_ACCOUNT);
    assert NON_RIVALROUS_LOCKS[3] == BOUND_STAKING_ACCOUNT;
    if i :| 0 <= i < |after| && IsLockRivalrousCli(after[i].id) {
      assert i < |locks| && after[i] == locks[i];
    }
  }

  /** After a success, planning again finds nothing to send, for any further answers about the
      same account, exactly when the fees left the required stake in place. */
  lemma SecondPlanIsEmpty(c: Chain, keys: set<AccountId>, q: Request, ans: Answers, later: Answers)
    requires Succeeds(c, keys, q, ans) && Address(q, later) == Address(q, ans)
    ensures Plan(After(c, keys, q, ans), keys, q, later) == Ok(NO_STEPS)
       <==> ToppedUp(c, q, ans) - Outlay(c, q, ans) >= q.requiredStake
  {
    SetupConfirms(c, keys, q, ans);
    if q.lockId.Some? {
      BindingKeepsCompatibility(AccountOf(c, Address(q, ans)).locks, c.candidateStake, q.lockId.value);
    }
  }

  /** After a success the runtime itself finds no conflict with the lock the account was set up
      for, and the account still holds at most one rivalrous lock. */
  lemma SetupAdmitsLock(c: Chain, keys: set<AccountId>, q: Request, ans: Answers)
    requires Succeeds(c, keys, q, ans)
    requires OneRivalrous(AccountOf(c, Address(q, ans)).locks) && DistinctIds(AccountOf(c, Address(q, ans)).locks)
    ensures var locks := AccountOf(After(c, keys, q, ans), Address(q, ans)).locks;
            && (q.lockId.Some? ==> !AreLocksConflicting(q.lockId.value, Ids(locks)))
            && OneRivalrous(locks) && DistinctIds(locks)
  {
    var a := Address(q, ans);
    var before := AccountOf(c, a).locks;
    var after := AccountOf(After(c, keys, q, ans), a).locks;
    SetupConfirms(c, keys, q, ans);
    if q.lockId.Some? {
      BindingKeepsCompatibility(before, c.candidateStake, q.lockId.value);
      CliAgreesWithRuntime(after, q.lockId.value);
    }
    assert NON_RIVALROUS_LOCKS[3] == BOUND_STAKING_ACCOUNT;
    SetLockKeeps(before, BOUND_STAKING_ACCOUNT, c.candidateStake);
  }

  // ---------------------------------------------------------------- when it succeeds

  /** What the top-up moves. */
  function Missing(c: Chain, q: Request, ans: Answers): nat {
    Monus(RequiredBalance(c, q, ans), AccountOf(c, Address(q, ans)).free)
  }

  /** What an account has left, on the snapshot's figures, when the confirm call is charged. */
  function LeftAfterTwo(c: Chain, q: Request, ans: Answers, x: AccountId): int {
    if x == Address(q, ans) then
      ToppedUp(c, q, ans) - (if Unbound(c, x) then FeeOf(ans.candidate) else 0)
    else if x == Source(q, ans) && Missing(c, q, ans) > 0 then
      AccountOf(c, x).free - FeeOf(ans.transfer) - Missing(c, q, ans)
    else AccountOf(c, x).free
  }

  predicate TransferGoesThrough(c: Chain, q: Request, ans: Answers) {
    Missing(c, q, ans) > 0 ==>
      && ans.transfer.Included? && !ans.transfer.refused
      && AccountOf(c, Source(q, ans)).free >= ans.transfer.fee + Missing(c, q, ans)
  }

  predicate CandidateGoesThrough(c: Chain, q: Request, ans: Answers) {
    Unbound(c, Address(q, ans)) ==>
      && ans.candidate.Included? && q.memberId in c.controllers
      && ToppedUp(c, q, ans) >= ans.candidate.fee + c.candidateStake
  }

  predicate ConfirmGoesThrough(c: Chain, q: Request, ans: Answers) {
    Unconfirmed(c, Address(q, ans)) ==>
      && ans.confirm.Included? && q.memberId in c.controllers && c.controllers[q.memberId] == q.controller
      && LeftAfterTwo(c, q, ans, q.controller) >= ans.confirm.fee
  }

  lemma TransferIff(c: Chain, source: AccountId, a: AccountId, amount: nat, v: Verdict)
    ensures var (c', ok) := Submit(c, TransferKeepAlive(source, a, amount), v);
            && (ok <==> v.Included? && !v.refused && AccountOf(c, source).free >= v.fee + amount)
            && (ok ==> forall x :: x != a ==>
                  AccountOf(c', x).free == AccountOf(c, x).free - (if x == source then FeeOf(v) + amount else 0))
  {
  }

  /** The binding lock is not rivalrous, so the pallet's conflict check never fails. */
  lemma CandidateIff(c: Chain, a: AccountId, memberId: nat, v: Verdict)
    ensures var (c', ok) := Submit(c, AddStakingAccountCandidate(a, memberId), v);
            && (ok <==> && v.Included? && a !in c.bindings && memberId in c.controllers
                        && AccountOf(c, a).free >= v.fee + c.candidateStake)
            && (ok ==> forall x :: x != a ==> AccountOf(c', x).free == AccountOf(c, x).free)
  {
    assert NON_RIVALROUS_LOCKS[3] == BOUND_STAKING_ACCOUNT;
  }

  lemma ConfirmIff(c: Chain, controller: AccountId, memberId: nat, a: AccountId, v: Verdict)
    ensures Submit(c, ConfirmStakingAccount(controller, memberId, a), v).1 <==>
              && v.Included? && memberId in c.controllers && c.controllers[memberId] == controller
              && a in c.bindings && c.bindings[a] == Binding(memberId, false)
              && AccountOf(c, controller).free >= v.fee
  {
  }

  /** A set-up succeeds exactly when its checks pass and each of the transactions it calls for
      goes through, all read off the snapshot and the answers, whichever accounts coincide. */
  lemma SucceedsIff(c: Chain, keys: set<AccountId>, q: Request, ans: Answers)
    ensures Succeeds(c, keys, q, ans) <==>
              && Plan(c, keys, q, ans).Ok?
              && TransferGoesThrough(c, q, ans) && CandidateGoesThrough(c, q, ans) && ConfirmGoesThrough(c, q, ans)
  {
    if Plan(c, keys, q, ans).Ok? {
      var a, source := Address(q, ans), Source(q, ans);
      var steps := Plan(c, keys, q, ans).value;
      TransferIff(c, source, a, Missing(c, q, ans), ans.transfer);
      var (c1, ok1) := Perform(c, steps.transfer, ans);
      assert ok1 <==> TransferGoesThrough(c, q, ans);
      if ok1 {
        if steps.transfer.Some? {
          TransferEffect(c, source, a, Missing(c, q, ans), ans.transfer);
        }
        SucceedsFrom(c, c1, keys, q, ans);
      }
    }
  }

  /** The two calls after the top-up. */
  lemma SucceedsFrom(c: Chain, c1: Chain, keys: set<AccountId>, q: Request, ans: Answers)
    requires Plan(c, keys, q, ans).Ok? && c1 == c.(accounts := c1.accounts)
    requires AccountOf(c1, Address(q, ans)).free == ToppedUp(c, q, ans)
    requires forall x :: x != Address(q, ans) ==>
               AccountOf(c1, x).free == AccountOf(c, x).free
                 - (if x != Source(q, ans) || Missing(c, q, ans) == 0 then 0
                    else FeeOf(ans.transfer) + Missing(c, q, ans))
    ensures var steps := Plan(c, keys, q, ans).value;
            var (c2, ok2) := Perform(c1, steps.candidate, ans);
            ok2 && Perform(c2, steps.confirm, ans).1 <==>
              CandidateGoesThrough(c, q, ans) && ConfirmGoesThrough(c, q, ans)
  {
    var a := Address(q, ans);
    var steps := Plan(c, keys, q, ans).value;
    var (c2, ok2) := Perform(c1, steps.candidate, ans);
    if steps.candidate.Some? {
      CandidateIff(c1, a, q.memberId, ans.candidate);
      assert ok2 <==> CandidateGoesThrough(c, q, ans);
      if ok2 {
        CandidateEffect(c1, a, q.memberId, ans.candidate);
      }
    }
    if ok2 && steps.confirm.Some? {
      assert c2.bindings[a] == Binding(q.memberId, false);
      ConfirmIff(c2, q.controller, q.memberId, a, ans.confirm);
      assert AccountOf(c2, q.controller).free == LeftAfterTwo(c, q, ans, q.controller);
    }
  }

  /** A set-up stops at the first transaction that does not go through: a top-up that fails
      changes nothing but the source's fee, a candidate call that fails binds nothing, and a
      confirm call that fails leaves the account bound and unconfirmed. */
  lemma FailureStopsThere(c: Chain, keys: set<AccountId>, q: Request, ans: Answers)
    requires Plan(c, keys, q, ans).Ok?
    ensures !TransferGoesThrough(c, q, ans) ==> OnlyPaid(c, After(c, keys, q, ans), Source(q, ans), FeeOf(ans.transfer))
    ensures TransferGoesThrough(c, q, ans) && !CandidateGoesThrough(c, q, ans) ==>
              SameLocksAndBindings(c, After(c, keys, q, ans))
    ensures var a, c' := Address(q, ans), After(c, keys, q, ans);
            TransferGoesThrough(c, q, ans) && CandidateGoesThrough(c, q, ans) && !ConfirmGoesThrough(c, q, ans) ==>
              a in c'.bindings && c'.bindings[a] == Binding(q.memberId, false)
  {
    var a := Address(q, ans);
    var steps := Plan(c, keys, q, ans).value;
    var (c1, ok1) := Perform(c, steps.transfer, ans);
    assert ok1 <==> TransferGoesThrough(c, q, ans) by {
      TransferIff(c, Source(q, ans), a, Missing(c, q, ans), ans.transfer);
    }
    if ok1 {
      TransferKeepsLocks(c, steps.transfer, ans);
      assert AccountOf(c1, a).free == ToppedUp(c, q, ans) by {
        if steps.transfer.Some? {
          TransferEffect(c, Source(q, ans), a, Missing(c, q, ans), ans.transfer);
        }
      }
      FailureAfterTransfer(c, c1, keys, q, ans);
      SucceedsIff(c, keys, q, ans);
    } else {
      FailedTransfer(c, Source(q, ans), a, Missing(c, q, ans), ans.transfer);
    }
  }

  ghost predicate SameLocksAndBindings(c: Chain, d: Chain) {
    d.bindings == c.bindings && forall x :: AccountOf(d, x).locks == AccountOf(c, x).locks
  }

  /** Nothing happened but that one account paid at most this much. */
  ghost predicate OnlyPaid(c: Chain, d: Chain, payer: AccountId, most: nat) {
    && SameLocksAndBindings(c, d)
    && (forall x :: x != payer ==> AccountOf(d, x).free == AccountOf(c, x).free)
    && AccountOf(c, payer).free - most <= AccountOf(d, payer).free <= AccountOf(c, payer).free
  }

  lemma FailedTransfer(c: Chain, source: AccountId, a: AccountId, amount: nat, v: Verdict)
    requires !Submit(c, TransferKeepAlive(source, a, amount), v).1
    ensures OnlyPaid(c, Submit(c, TransferKeepAlive(source, a, amount), v).0, source, FeeOf(v))
  {
  }

  lemma SetFreeKeepsLocks(c: Chain, d: Chain, a: AccountId, free: nat)
    requires SameLocksAndBindings(c, d)
    ensures SameLocksAndBindings(c, SetFree(d, a, free))
  {
  }

  lemma TransferKeepsLocks(c: Chain, tx: Option<Tx>, ans: Answers)
    requires tx.Some? ==> tx.value.TransferKeepAlive?
    ensures var c1 := Perform(c, tx, ans).0; c1 == c.(accounts := c1.accounts) && SameLocksAndBindings(c, c1)
  {
    if tx.Some? && ans.transfer.Included? && AccountOf(c, tx.value.signer).free >= ans.transfer.fee {
      var source, dest := tx.value.signer, tx.value.dest;
      var charged := SetFree(c, source, AccountOf(c, source).free - ans.transfer.fee);
      SetFreeKeepsLocks(c, c, source, AccountOf(c, source).free - ans.transfer.fee);
      if tx.value.amount <= AccountOf(charged, source).free {
        var taken := SetFree(charged, source, AccountOf(charged, source).free - tx.value.amount);
        SetFreeKeepsLocks(c, charged, source, AccountOf(charged, source).free - tx.value.amount);
        SetFreeKeepsLocks(c, taken, dest, AccountOf(taken, dest).free + tx.value.amount);
      }
    }
  }

  lemma FailureAfterTransfer(c: Chain, c1: Chain, keys: set<AccountId>, q: Request, ans: Answers)
    requires Plan(c, keys, q, ans).Ok? && c1 == c.(accounts := c1.accounts)
    requires AccountOf(c1, Address(q, ans)).free == ToppedUp(c, q, ans)
    requires SameLocksAndBindings(c, c1)
    ensures var a := Address(q, ans);
            var steps := Plan(c, keys, q, ans).value;
            var (c2, ok2) := Perform(c1, steps.candidate, ans);
            && (ok2 <==> CandidateGoesThrough(c, q, ans))
            && (!ok2 ==> SameLocksAndBindings(c, c2))
            && (ok2 && !Perform(c2, steps.confirm, ans).1 ==>
                  var c3 := Perform(c2, steps.confirm, ans).0;
                  a in c3.bindings && c3.bindings[a] == Binding(q.memberId, false))
  {
    var a := Address(q, ans);
    var steps := Plan(c, keys, q, ans).value;
    var (c2, ok2) := Perform(c1, steps.candidate, ans);
    if steps.candidate.Some? {
      CandidateIff(c1, a, q.memberId, ans.candidate);
      if ok2 {
        CandidateEffect(c1, a, q.memberId, ans.candidate);
      }
    }
  }

  /** A submission moves nothing of accounts that neither sign nor receive. */
  lemma SubmitMovesOnly(c: Chain, tx: Tx, v: Verdict, x: AccountId)
    requires x != tx.signer && (tx.TransferKeepAlive? ==> x != tx.dest)
    ensures AccountOf(Submit(c, tx, v).0, x) == AccountOf(c, x)
  {
  }

  /** Nobody but the account, its source and the controller pays or receives anything. */
  lemma OnlyThreeAccountsMove(c: Chain, keys: set<AccountId>, q: Request, ans: Answers, x: AccountId)
    requires Plan(c, keys, q, ans).Ok? && x != q.controller
    requires x != if q.address.Some? then q.address.value else ans.chosenAddress
    requires x != if q.fundsSource.Some? then q.fundsSource.value else ans.chosenSource
    ensures AccountOf(After(c, keys, q, ans), x) == AccountOf(c, x)
  {
    var steps := Plan(c, keys, q, ans).value;
    var c1 := Perform(c, steps.transfer, ans).0;
    var c2 := Perform(c1, steps.candidate, ans).0;
    var c3 := Perform(c2, steps.confirm, ans).0;
    assert AccountOf(c1, x) == AccountOf(c, x) by { PerformMovesOnly(c, steps.transfer, ans, x); }
    assert AccountOf(c2, x) == AccountOf(c1, x) by { PerformMovesOnly(c1, steps.candidate, ans, x); }
    assert AccountOf(c3, x) == AccountOf(c2, x) by { PerformMovesOnly(c2, steps.confirm, ans, x); }
  }

  lemma PerformMovesOnly(c: Chain, tx: Option<Tx>, ans: Answers, x: AccountId)
    requires tx.Some? ==> x != tx.value.signer && (tx.value.TransferKeepAlive? ==> x != tx.value.dest)
    ensures AccountOf(Perform(c, tx, ans).0, x) == AccountOf(c, x)
  {
    if tx.Some? {
      SubmitMovesOnly(c, tx.value, VerdictFor(ans, tx.value), x);
    }
  }

  /** Removing the binding takes its lock along, costs the account its fee and needs the account
      to be bound to that member. */
  lemma RemovalIff(c: Chain, a: AccountId, memberId: nat, v: Verdict)
    ensures var (c', ok) := Submit(c, RemoveStakingAccount(a, memberId), v);
            && (ok <==> && v.Included? && AccountOf(c, a).free >= v.fee && memberId in c.controllers
                        && a in c.bindings && c.bindings[a].memberId == memberId)
            && (ok ==> && a !in c'.bindings && BOUND_STAKING_ACCOUNT !in Ids(AccountOf(c', a).locks)
                       && SameBut(AccountOf(c, a).locks, AccountOf(c', a).locks, BOUND_STAKING_ACCOUNT)
                       && AccountOf(c', a).free == AccountOf(c, a).free - FeeOf(v)
                       && forall x :: x != a ==> AccountOf(c', x) == AccountOf(c, x))
  {
    RemoveLockEffect(AccountOf(c, a), BOUND_STAKING_ACCOUNT);
  }

  /** An unbound account topped up from another one, everything else in order: the set-up
      succeeds exactly when the required stake, the tool's own 200 units and what the estimate
      leaves over the fee reach the runtime's candidate stake. */
  lemma CandidateStakeMustFit(c: Chain, keys: set<AccountId>, q: Request, ans: Answers)
    requires Plan(c, keys, q, ans).Ok? && Unbound(c, Address(q, ans)) && Source(q, ans) != Address(q, ans)
    requires Missing(c, q, ans) > 0 && TransferGoesThrough(c, q, ans) && ConfirmGoesThrough(c, q, ans)
    requires ans.candidate.Included? && q.memberId in c.controllers
    ensures Succeeds(c, keys, q, ans) <==>
              q.requiredStake + 200 + ans.candidateFee >= c.candidateStake + ans.candidate.fee
  {
    SucceedsIff(c, keys, q, ans);
  }

  /** With the runtime's actual candidate stake, a set-up that needs a top-up never succeeds,
      whoever pays and whatever the node answers, when the required stake plus 200 units plus
      the estimate is below ten dollars plus the fee charged. */
  lemma SmallStakesCannotBeSetUp(
      c: Chain, keys: set<AccountId>, q: Request, ans: Answers, r: BloatBonds.Rounding)
    requires c.candidateStake == BloatBonds.CandidateStake(r)
    requires Unbound(c, Address(q, ans)) && Missing(c, q, ans) > 0
    requires q.requiredStake + STAKING_ACCOUNT_CANDIDATE_STAKE + ans.candidateFee
           < BloatBonds.MINIMUM_VOTING_STAKE + FeeOf(ans.candidate)
    ensures !Succeeds(c, keys, q, ans)
  {
    BloatBonds.CandidateStakeIsTenDollars(r, 0);
    SucceedsIff(c, keys, q, ans);
  }

  // ---------------------------------------------------------------- every run of the chain

  /** What happens on the chain: anybody's submission, or another pallet's stake, bond, restake,
      unlock, slash or election on any account. */
  datatype Event = Submission(tx: Tx, verdict: Verdict) | PalletOp(account: AccountId, op: Op)

  function Happen(c: Chain, e: Event): Chain {
    match e
    case Submission(tx, v) => Submit(c, tx, v).0
    case PalletOp(a, op) => c.(accounts := c.accounts[a := Apply(AccountOf(c, a), op)])
  }

  function HappenAll(c: Chain, events: seq<Event>): Chain {
    if events == [] then c else Happen(HappenAll(c, events[..|events| - 1]), events[|events| - 1])
  }

  /** The binding lock is the membership pallet's own: no other pallet touches it. */
  ghost predicate BindingIsOwn(events: seq<Event>) {
    forall i :: 0 <= i < |events| && events[i].PalletOp? ==> !Touches(events[i].op, BOUND_STAKING_ACCOUNT)
  }

  /** At most one rivalrous lock, and the binding lock exactly if the account is bound. */
  ghost predicate LocksFit(locks: seq<BalanceLock>, bound: bool) {
    OneRivalrous(locks) && DistinctIds(locks) && (bound <==> BOUND_STAKING_ACCOUNT in Ids(locks))
  }

  /** Locks and bindings fit together on every account. */
  ghost predicate Consistent(c: Chain) {
    forall a :: LocksFit(AccountOf(c, a).locks, a in c.bindings)
  }

  /** A step that touches the locks and the binding of one account only. */
  lemma ConsistentExceptAt(c: Chain, d: Chain, a: AccountId)
    requires Consistent(c) && LocksFit(AccountOf(d, a).locks, a in d.bindings)
    requires forall b :: b != a ==>
               AccountOf(d, b).locks == AccountOf(c, b).locks && (b in d.bindings <==> b in c.bindings)
    ensures Consistent(d)
  {
    forall b ensures LocksFit(AccountOf(d, b).locks, b in d.bindings) {
      if b != a {
        assert LocksFit(AccountOf(c, b).locks, b in c.bindings);
      }
    }
  }

  lemma SetFreeIsConsistent(c: Chain, a: AccountId, free: nat)
    requires Consistent(c)
    ensures Consistent(SetFree(c, a, free))
  {
    assert LocksFit(AccountOf(c, a).locks, a in c.bindings);
    ConsistentExceptAt(c, SetFree(c, a, free), a);
  }

  lemma BindingFits(locks: seq<BalanceLock>, amount: nat)
    requires LocksFit(locks, false) && amount > 0 && !AreLocksConflicting(BOUND_STAKING_ACCOUNT, Ids(locks))
    ensures LocksFit(SetLock(locks, BOUND_STAKING_ACCOUNT, amount), true)
  {
    var after := SetLock(locks, BOUND_STAKING_ACCOUNT, amount);
    SetLockKeeps(locks, BOUND_STAKING_ACCOUNT, amount);
    assert Ids(after)[|locks|] == BOUND_STAKING_ACCOUNT;
  }

  lemma CandidateIsConsistent(c: Chain, a: AccountId, memberId: nat)
    requires Consistent(c) && c.candidateStake > 0 && Dispatch(c, AddStakingAccountCandidate(a, memberId), false).Some?
    ensures Consistent(Dispatch(c, AddStakingAccountCandidate(a, memberId), false).value)
  {
    assert LocksFit(AccountOf(c, a).locks, a in c.bindings);
    BindingFits(AccountOf(c, a).locks, c.candidateStake);
    ConsistentExceptAt(c, Dispatch(c, AddStakingAccountCandidate(a, memberId), false).value, a);
  }

  lemma RemovalIsConsistent(c: Chain, a: AccountId, memberId: nat)
    requires Consistent(c) && Dispatch(c, RemoveStakingAccount(a, memberId), false).Some?
    ensures Consistent(Dispatch(c, RemoveStakingAccount(a, memberId), false).value)
  {
    assert LocksFit(AccountOf(c, a).locks, a in c.bindings);
    RemoveLockKeeps(AccountOf(c, a).locks, BOUND_STAKING_ACCOUNT);
    ConsistentExceptAt(c, Dispatch(c, RemoveStakingAccount(a, memberId), false).value, a);
  }

  lemma ConfirmIsConsistent(c: Chain, signer: AccountId, memberId: nat, a: AccountId)
    requires Consistent(c) && Dispatch(c, ConfirmStakingAccount(signer, memberId, a), false).Some?
    ensures Consistent(Dispatch(c, ConfirmStakingAccount(signer, memberId, a), false).value)
  {
    assert LocksFit(AccountOf(c, a).locks, a in c.bindings);
    ConsistentExceptAt(c, Dispatch(c, ConfirmStakingAccount(signer, memberId, a), false).value, a);
  }

  lemma TransferIsConsistent(c: Chain, source: AccountId, dest: AccountId, amount: nat)
    requires Consistent(c) && Dispatch(c, TransferKeepAlive(source, dest, amount), false).Some?
    ensures Consistent(Dispatch(c, TransferKeepAlive(source, dest, amount), false).value)
  {
    var taken := SetFree(c, source, AccountOf(c, source).free - amount);
    var given := SetFree(taken, dest, AccountOf(taken, dest).free + amount);
    assert Dispatch(c, TransferKeepAlive(source, dest, amount), false) == Some(given);
    assert Consistent(taken) by { SetFreeIsConsistent(c, source, AccountOf(c, source).free - amount); }
    assert Consistent(given) by { SetFreeIsConsistent(taken, dest, AccountOf(taken, dest).free + amount); }
  }

  lemma DispatchIsConsistent(c: Chain, tx: Tx, refused: bool)
    requires Consistent(c) && c.candidateStake > 0 && Dispatch(c, tx, refused).Some?
    ensures Consistent(Dispatch(c, tx, refused).value)
  {
    assert Dispatch(c, tx, refused) == Dispatch(c, tx, false);
    match tx
    case TransferKeepAlive(source, dest, amount) =>
      TransferIsConsistent(c, source, dest, amount);
    case AddStakingAccountCandidate(account, memberId) =>
      CandidateIsConsistent(c, account, memberId);
    case ConfirmStakingAccount(signer, memberId, account) =>
      ConfirmIsConsistent(c, signer, memberId, account);
    case RemoveStakingAccount(account, memberId) =>
      RemovalIsConsistent(c, account, memberId);
  }

  lemma SubmitKeepsCandidateStake(c: Chain, tx: Tx, v: Verdict)
    ensures Submit(c, tx, v).0.candidateStake == c.candidateStake
  {
  }

  lemma SubmitIsConsistent(c: Chain, tx: Tx, v: Verdict)
    requires Consistent(c) && c.candidateStake > 0
    ensures Consistent(Submit(c, tx, v).0)
  {
    var after := Submit(c, tx, v).0;
    if v.NotIncluded? || AccountOf(c, tx.signer).free < v.fee {
      assert after == c;
    } else {
      var charged := SetFree(c, tx.signer, AccountOf(c, tx.signer).free - v.fee);
      assert Consistent(charged) by { SetFreeIsConsistent(c, tx.signer, AccountOf(c, tx.signer).free - v.fee); }
      var dispatched := Dispatch(charged, tx, v.refused);
      if dispatched.None? {
        assert after == charged;
      } else {
        assert after == dispatched.value;
        assert Consistent(dispatched.value) by { DispatchIsConsistent(charged, tx, v.refused); }
      }
    }
  }

  lemma PalletOpIsConsistent(c: Chain, a: AccountId, op: Op)
    requires Consistent(c) && !Touches(op, BOUND_STAKING_ACCOUNT)
    ensures Consistent(Happen(c, PalletOp(a, op)))
  {
    var after := Happen(c, PalletOp(a, op));
    assert LocksFit(AccountOf(c, a).locks, a in c.bindings);
    assert LocksFit(AccountOf(after, a).locks, a in after.bindings) by {
      ApplyKeeps(AccountOf(c, a), op);
      ApplyLeavesOthers(AccountOf(c, a), op, BOUND_STAKING_ACCOUNT);
    }
    ConsistentExceptAt(c, after, a);
  }

  /** A pallet's operation changes its account as `Apply` says, and nothing else. */
  lemma HappenApplies(c: Chain, a: AccountId, op: Op)
    ensures var after := Happen(c, PalletOp(a, op));
            && AccountOf(after, a) == Apply(AccountOf(c, a), op) && after == c.(accounts := after.accounts)
            && forall x :: x != a ==> AccountOf(after, x) == AccountOf(c, x)
  {
  }

  lemma HappenIsConsistent(c: Chain, e: Event)
    requires Consistent(c) && c.candidateStake > 0
    requires e.PalletOp? ==> !Touches(e.op, BOUND_STAKING_ACCOUNT)
    ensures Consistent(Happen(c, e)) && Happen(c, e).candidateStake == c.candidateStake
  {
    match e
    case Submission(tx, v) =>
      SubmitIsConsistent(c, tx, v);
      SubmitKeepsCandidateStake(c, tx, v);
    case PalletOp(a, op) =>
      PalletOpIsConsistent(c, a, op);
  }

  /** Over every run of submissions by anybody, whatever their fate, and of other pallets' stakes,
      bonds, restakes, unlocks, slashes and elections on any account, every account keeps at most
      one rivalrous lock and exactly the bound accounts hold the binding lock. */
  lemma {:induction false} RunsStayConsistent(c: Chain, events: seq<Event>)
    requires Consistent(c) && c.candidateStake > 0 && BindingIsOwn(events)
    ensures Consistent(HappenAll(c, events)) && HappenAll(c, events).candidateStake == c.candidateStake
    decreases |events|
  {
    if events == [] {
    } else {
      var front, last := events[..|events| - 1], events[|events| - 1];
      assert forall i :: 0 <= i < |front| ==> front[i] == events[i];
      RunsStayConsistent(c, front);
      HappenIsConsistent(HappenAll(c, front), last);
    }
  }

  /** All free balances together. */
  ghost function TotalFree(accounts: map<AccountId, Account>): nat
    decreases |accounts|
  {
    if accounts == map[] then 0
    else
      var k :| k in accounts;
      accounts[k].free + TotalFree(accounts - {k})
  }

  lemma {:induction false} TotalWithout(accounts: map<AccountId, Account>, a: AccountId)
    requires a in accounts
    ensures TotalFree(accounts) == accounts[a].free + TotalFree(accounts - {a})
    decreases |accounts|
  {
    var k :| k in accounts && TotalFree(accounts) == accounts[k].free + TotalFree(accounts - {k});
    if k != a {
      TotalWithout(accounts - {k}, a);
      TotalWithout(accounts - {a}, k);
      assert accounts - {k} - {a} == accounts - {a} - {k};
    }
  }

  lemma TotalAfterUpdate(c: Chain, a: AccountId, acc: Account)
    ensures TotalFree(c.accounts[a := acc]) + AccountOf(c, a).free == TotalFree(c.accounts) + acc.free
  {
    var after := c.accounts[a := acc];
    TotalWithout(after, a);
    assert after - {a} == c.accounts - {a};
    if a in c.accounts {
      TotalWithout(c.accounts, a);
    } else {
      assert c.accounts - {a} == c.accounts;
    }
  }

  lemma TotalAfterSetFree(c: Chain, a: AccountId, free: nat)
    ensures TotalFree(SetFree(c, a, free).accounts) + AccountOf(c, a).free == TotalFree(c.accounts) + free
  {
    TotalAfterUpdate(c, a, AccountOf(c, a).(free := free));
  }

  /** What a submission costs its signer. */
  function Charged(c: Chain, tx: Tx, v: Verdict): nat {
    if v.Included? && AccountOf(c, tx.signer).free >= v.fee then v.fee else 0
  }

  lemma TotalAfterLocks(c: Chain, a: AccountId, locks: seq<BalanceLock>)
    ensures TotalFree(c.accounts[a := AccountOf(c, a).(locks := locks)]) == TotalFree(c.accounts)
  {
    TotalAfterUpdate(c, a, AccountOf(c, a).(locks := locks));
  }

  lemma TransferConserves(c: Chain, source: AccountId, dest: AccountId, amount: nat)
    requires amount <= AccountOf(c, source).free
    ensures var taken := SetFree(c, source, AccountOf(c, source).free - amount);
            TotalFree(SetFree(taken, dest, AccountOf(taken, dest).free + amount).accounts) == TotalFree(c.accounts)
  {
    var taken := SetFree(c, source, AccountOf(c, source).free - amount);
    TotalAfterSetFree(c, source, AccountOf(c, source).free - amount);
    TotalAfterSetFree(taken, dest, AccountOf(taken, dest).free + amount);
  }

  lemma DispatchConserves(c: Chain, tx: Tx, refused: bool)
    requires Dispatch(c, tx, refused).Some?
    ensures TotalFree(Dispatch(c, tx, refused).value.accounts) == TotalFree(c.accounts)
  {
    match tx
    case TransferKeepAlive(source, dest, amount) =>
      TransferConserves(c, source, dest, amount);
    case AddStakingAccountCandidate(account, memberId) =>
      TotalAfterLocks(c, account, SetLock(AccountOf(c, account).locks, BOUND_STAKING_ACCOUNT, c.candidateStake));
    case ConfirmStakingAccount(signer, memberId, account) =>
    case RemoveStakingAccount(account, memberId) =>
      TotalAfterLocks(c, account, RemoveLock(AccountOf(c, account).locks, BOUND_STAKING_ACCOUNT));
  }

  lemma SubmitConserves(c: Chain, tx: Tx, v: Verdict)
    ensures TotalFree(Submit(c, tx, v).0.accounts) + Charged(c, tx, v) == TotalFree(c.accounts)
  {
    var after := Submit(c, tx, v).0;
    if v.Included? && AccountOf(c, tx.signer).free >= v.fee {
      var charged := SetFree(c, tx.signer, AccountOf(c, tx.signer).free - v.fee);
      assert TotalFree(charged.accounts) + v.fee == TotalFree(c.accounts) by {
        TotalAfterSetFree(c, tx.signer, AccountOf(c, tx.signer).free - v.fee);
      }
      if Dispatch(charged, tx, v.refused).Some? {
        assert after == Dispatch(charged, tx, v.refused).value;
        DispatchConserves(charged, tx, v.refused);
      } else {
        assert after == charged;
      }
    } else {
      assert after == c;
    }
  }

  /** What an event takes out of the free balances: a fee, or what a slash burns. */
  function Lost(c: Chain, e: Event): nat {
    match e
    case Submission(tx, v) => Charged(c, tx, v)
    case PalletOp(a, op) => Burned(AccountOf(c, a), op)
  }

  function TotalLost(c: Chain, events: seq<Event>): nat {
    if events == [] then 0
    else
      var front := events[..|events| - 1];
      TotalLost(c, front) + Lost(HappenAll(c, front), events[|events| - 1])
  }

  lemma HappenConserves(c: Chain, e: Event)
    ensures TotalFree(Happen(c, e).accounts) + Lost(c, e) == TotalFree(c.accounts)
  {
    match e
    case Submission(tx, v) =>
      SubmitConserves(c, tx, v);
    case PalletOp(a, op) =>
      TotalAfterUpdate(c, a, Apply(AccountOf(c, a), op));
      ApplyConserves(AccountOf(c, a), op);
  }

  /** Over every such run the free balances lose exactly the fees charged and the slashes burned:
      transfers, failed calls, locks, bindings and self-transfers create and destroy nothing. */
  lemma {:induction false} RunsConserveFunds(c: Chain, events: seq<Event>)
    ensures TotalFree(HappenAll(c, events).accounts) + TotalLost(c, events) == TotalFree(c.accounts)
    decreases |events|
  {
    if events == [] {
    } else {
      RunsConserveFunds(c, events[..|events| - 1]);
      HappenConserves(HappenAll(c, events[..|events| - 1]), events[|events| - 1]);
    }
  }
}
