/**
 * Which balance locks may coexist on an account: the runtime's lock comparator, the staking
 * manager built on it, and the command line tool's own copy of the rule.
 */
module StakingLocks {
  import opened Wrappers
  import opened Machine
  import Ordering

  type LockId = string

  const VOTING: LockId := "voting  "
  const VESTING: LockId := "vesting "
  const INVITED_MEMBER: LockId := "invitemb"
  const BOUND_STAKING_ACCOUNT: LockId := "boundsta"
  const STAKING: LockId := "staking "
  const CANDIDACY: LockId := "candidac"
  const COUNCILOR: LockId := "councilo"

  /** The runtime's list (constants.rs) and the tool's list (Api.ts), each in its own order. */
  const NON_RIVALROUS_LOCKS: seq<LockId> := [VOTING, VESTING, INVITED_MEMBER, BOUND_STAKING_ACCOUNT]
  const CLI_NON_RIVALROUS_LOCKS: seq<LockId> := [VOTING, BOUND_STAKING_ACCOUNT, INVITED_MEMBER, VESTING]

  datatype BalanceLock = BalanceLock(id: LockId, amount: nat)
  datatype Account = Account(free: nat, locks: seq<BalanceLock>)

  predicate Rivalrous(id: LockId) {
    id !in NON_RIVALROUS_LOCKS
  }

  function Ids(locks: seq<BalanceLock>): (ids: seq<LockId>)
    ensures |ids| == |locks| && forall i :: 0 <= i < |ids| ==> ids[i] == locks[i].id
  {
    seq(|locks|, i requires 0 <= i < |locks| => locks[i].id)
  }

  /** `are_locks_conflicting`, all three conjuncts as written. */
  predicate AreLocksConflicting(newLock: LockId, existing: seq<LockId>) {
    var otherLocksPresent := existing != [];
    var newLockIsRivalrous := Rivalrous(newLock);
    var existingContainRivalrous := exists i :: 0 <= i < |existing| && Rivalrous(existing[i]);
    otherLocksPresent && newLockIsRivalrous && existingContainRivalrous
  }

  /** `can_bond`: the staking pallet's lock against what the account already has. */
  predicate CanBond(locks: seq<BalanceLock>) {
    !AreLocksConflicting(STAKING, Ids(locks))
  }

  predicate IsLockRivalrousCli(id: LockId) {
    !exists i :: 0 <= i < |CLI_NON_RIVALROUS_LOCKS| && CLI_NON_RIVALROUS_LOCKS[i] == id
  }

  /** `areAccountLocksCompatibleWith`. */
  predicate AreAccountLocksCompatibleWith(locks: seq<BalanceLock>, id: LockId) {
    var accountHasRivalrousLock := exists i :: 0 <= i < |locks| && IsLockRivalrousCli(locks[i].id);
    !IsLockRivalrousCli(id) || !accountHasRivalrousLock
  }

  lemma CliRivalryAgrees(id: LockId)
    ensures IsLockRivalrousCli(id) <==> Rivalrous(id)
  {
    assert CLI_NON_RIVALROUS_LOCKS[0] == VOTING && CLI_NON_RIVALROUS_LOCKS[1] == BOUND_STAKING_ACCOUNT
        && CLI_NON_RIVALROUS_LOCKS[2] == INVITED_MEMBER && CLI_NON_RIVALROUS_LOCKS[3] == VESTING;
    assert NON_RIVALROUS_LOCKS[0] == VOTING && NON_RIVALROUS_LOCKS[1] == VESTING
        && NON_RIVALROUS_LOCKS[2] == INVITED_MEMBER && NON_RIVALROUS_LOCKS[3] == BOUND_STAKING_ACCOUNT;
  }

  /** The tool accepts exactly the locks the runtime would not find conflicting. */
  lemma CliAgreesWithRuntime(locks: seq<BalanceLock>, id: LockId)
    ensures AreAccountLocksCompatibleWith(locks, id) <==> !AreLocksConflicting(id, Ids(locks))
  {
    CliRivalryAgrees(id);
    forall i | 0 <= i < |locks| ensures IsLockRivalrousCli(locks[i].id) <==> Rivalrous(Ids(locks)[i]) {
      CliRivalryAgrees(locks[i].id);
    }
    if i :| 0 <= i < |locks| && IsLockRivalrousCli(locks[i].id) {
      assert Rivalrous(Ids(locks)[i]);
    }
    if i :| 0 <= i < |Ids(locks)| && Rivalrous(Ids(locks)[i]) {
      assert IsLockRivalrousCli(locks[i].id);
    }
  }

  // ---------------------------------------------------------------- the staking manager

  function Find(locks: seq<BalanceLock>, id: LockId): (at: Option<nat>)
    ensures at.Some? ==> at.value < |locks| && locks[at.value].id == id
    ensures at.None? <==> id !in Ids(locks)
  {
    if locks == [] then None
    else if locks[|locks| - 1].id == id then Some(|locks| - 1)
    else
      assert Ids(locks) == Ids(locks[..|locks| - 1]) + [locks[|locks| - 1].id];
      Find(locks[..|locks| - 1], id)
  }

  /** `set_lock` of the balances pallet: replace the lock with this id or append one; a zero
      amount changes nothing. */
  function SetLock(locks: seq<BalanceLock>, id: LockId, amount: nat): seq<BalanceLock> {
    if amount == 0 then locks
    else match Find(locks, id)
      case Some(i) => locks[i := BalanceLock(id, amount)]
      case None => locks + [BalanceLock(id, amount)]
  }

  function RemoveLock(locks: seq<BalanceLock>, id: LockId): seq<BalanceLock> {
    if locks == [] then []
    else
      var rest := RemoveLock(locks[..|locks| - 1], id);
      if locks[|locks| - 1].id == id then rest else rest + [locks[|locks| - 1]]
  }

  function CurrentStake(a: Account, id: LockId): nat {
    match Find(a.locks, id)
    case Some(i) => a.locks[i].amount
    case None => 0
  }

  /** `StakingManager::slash`: lower the stake, burn the same amount, report it. */
  function Slash(a: Account, id: LockId, amount: Option<nat>): (Account, nat) {
    match Find(a.locks, id)
    case None => (a, 0)
    case Some(i) =>
      var stake := a.locks[i].amount;
      var unlocked := RemoveLock(a.locks, id);
      if amount.Some? && stake > amount.value
      then (Account(Monus(a.free, amount.value), SetLock(unlocked, id, stake - amount.value)), amount.value)
      else (Account(Monus(a.free, stake), unlocked), stake)
  }

  /** `StakingManager::set_stake`: no conflict check of its own. */
  function SetStake(a: Account, id: LockId, stake: nat): Result<Account, string> {
    if stake == 0 then
      Ok(if CurrentStake(a, id) > 0 then a.(locks := RemoveLock(a.locks, id)) else a)
    else if a.free < stake then Err("Not enough balance for a new stake.")
    else Ok(a.(locks := SetLock(a.locks, id, stake)))
  }

  /** What the pallets do to the locks of one account. The last two have no conflict check. */
  datatype Op =
    | Stake(id: LockId, amount: nat)        // conflict check, balance check, then `lock`
    | Bond(amount: nat)                     // `can_bond`, then the staking pallet's lock
    | Restake(id: LockId, amount: nat)      // `set_stake` on a stake that is already there
    | Unlock(id: LockId)
    | SlashStake(id: LockId, cut: Option<nat>)
    | LockFreely(id: LockId, amount: nat)   // vesting and invitations: a non-rivalrous lock, no check at all
    | Elect(stake: nat)                     // a candidate's lock is exchanged for a councilor's

  function Apply(a: Account, op: Op): Account {
    match op
    case Stake(id, amount) =>
      if AreLocksConflicting(id, Ids(a.locks)) || a.free < amount then a
      else a.(locks := SetLock(a.locks, id, amount))
    case Bond(amount) =>
      if CanBond(a.locks) then a.(locks := SetLock(a.locks, STAKING, amount)) else a
    case Restake(id, amount) =>
      if id !in Ids(a.locks) then a
      else (match SetStake(a, id, amount) case Ok(b) => b case Err(_) => a)
    case Unlock(id) => a.(locks := RemoveLock(a.locks, id))
    case SlashStake(id, cut) => Slash(a, id, cut).0
    case LockFreely(id, amount) =>
      if Rivalrous(id) then a else a.(locks := SetLock(a.locks, id, amount))
    case Elect(stake) =>
      if CANDIDACY in Ids(a.locks) then a.(locks := Exchange(a.locks, CANDIDACY, COUNCILOR, stake)) else a
  }

  /** Unlock one id, then lock another with no check: the council's change of locks at an
      election (`clear_candidate`, then `elect_new_council`). */
  function Exchange(locks: seq<BalanceLock>, from: LockId, to: LockId, amount: nat): seq<BalanceLock> {
    SetLock(RemoveLock(locks, from), to, amount)
  }

  function ApplyAll(a: Account, ops: seq<Op>): Account
    decreases |ops|
  {
    if ops == [] then a else ApplyAll(Apply(a, ops[0]), ops[1..])
  }

  /** Any two rivalrous locks of the account are one and the same. */
  ghost predicate OneRivalrous(locks: seq<BalanceLock>) {
    forall i, j :: 0 <= i < j < |locks| && Rivalrous(locks[i].id) ==> !Rivalrous(locks[j].id)
  }

  ghost predicate DistinctIds(locks: seq<BalanceLock>) {
    forall i, j :: 0 <= i < j < |locks| ==> locks[i].id != locks[j].id
  }

  /** `r` is a subsequence of the locks without the id: each of its locks has a source. */
  ghost predicate Picks(locks: seq<BalanceLock>, id: LockId, r: seq<BalanceLock>, src: seq<nat>) {
    && |src| == |r|
    && (forall i :: 0 <= i < |src| ==> src[i] < |locks| && r[i] == locks[src[i]] && r[i].id != id)
    && (forall i, j :: 0 <= i < j < |src| ==> src[i] < src[j])
  }

  lemma PicksThen(front: seq<BalanceLock>, last: BalanceLock, id: LockId, r: seq<BalanceLock>, src: seq<nat>)
    requires Picks(front, id, r, src)
    ensures Picks(front + [last], id, r, src)
    ensures last.id != id ==> Picks(front + [last], id, r + [last], src + [|front|])
  {
    assert forall k :: 0 <= k < |front| ==> (front + [last])[k] == front[k];
  }

  /** Removing an id keeps the order of the other locks. */
  lemma {:induction false} RemoveLockSubsequence(locks: seq<BalanceLock>, id: LockId) returns (src: seq<nat>)
    ensures Picks(locks, id, RemoveLock(locks, id), src)
    decreases |locks|
  {
    if locks == [] {
      src := [];
    } else {
      var front, last := locks[..|locks| - 1], locks[|locks| - 1];
      assert locks == front + [last];
      src := RemoveLockSubsequence(front, id);
      PicksThen(front, last, id, RemoveLock(front, id), src);
      if last.id != id {
        src := src + [|front|];
      }
    }
  }

  /** And every other lock is still there. */
  lemma {:induction false} OtherLockStays(locks: seq<BalanceLock>, id: LockId, k: nat)
    requires k < |locks| && locks[k].id != id
    ensures locks[k] in RemoveLock(locks, id)
    decreases |locks|
  {
    var last := |locks| - 1;
    if k == last {
      assert RemoveLock(locks, id) == RemoveLock(locks[..last], id) + [locks[last]];
    } else {
      OtherLockStays(locks[..last], id, k);
    }
  }

  lemma RemoveLockKeeps(locks: seq<BalanceLock>, id: LockId)
    requires OneRivalrous(locks) && DistinctIds(locks)
    ensures OneRivalrous(RemoveLock(locks, id)) && DistinctIds(RemoveLock(locks, id))
    ensures id !in Ids(RemoveLock(locks, id))
    ensures forall i :: 0 <= i < |RemoveLock(locks, id)| ==> RemoveLock(locks, id)[i] in locks
  {
    var src := RemoveLockSubsequence(locks, id);
    var r := RemoveLock(locks, id);
    forall i, j | 0 <= i < j < |r| ensures r[i] == locks[src[i]] && r[j] == locks[src[j]] && src[i] < src[j] {}
  }

  /** Setting a lock is safe when the id is there already, harmless, or nothing rivals it. */
  lemma SetLockKeeps(locks: seq<BalanceLock>, id: LockId, amount: nat)
    requires OneRivalrous(locks) && DistinctIds(locks)
    requires id in Ids(locks) || !AreLocksConflicting(id, Ids(locks))
    ensures OneRivalrous(SetLock(locks, id, amount)) && DistinctIds(SetLock(locks, id, amount))
  {
    var r := SetLock(locks, id, amount);
    if amount != 0 && Find(locks, id).None? {
      forall i | 0 <= i < |locks| ensures locks[i].id != id && !(Rivalrous(id) && Rivalrous(locks[i].id)) {
        assert Ids(locks)[i] == locks[i].id;
      }
    }
  }

  lemma ApplyKeeps(a: Account, op: Op)
    requires OneRivalrous(a.locks) && DistinctIds(a.locks)
    ensures OneRivalrous(Apply(a, op).locks) && DistinctIds(Apply(a, op).locks)
  {
    match op
    case Stake(id, amount) =>
      if !AreLocksConflicting(id, Ids(a.locks)) { SetLockKeeps(a.locks, id, amount); }
    case Bond(amount) =>
      if CanBond(a.locks) { SetLockKeeps(a.locks, STAKING, amount); }
    case Restake(id, amount) =>
      if id in Ids(a.locks) { RestakeKeeps(a, id, amount); }
    case Unlock(id) =>
      RemoveLockKeeps(a.locks, id);
    case SlashStake(id, cut) =>
      if Find(a.locks, id).Some? { SlashKeeps(a, id, cut); }
    case LockFreely(id, amount) =>
      if !Rivalrous(id) { SetLockKeeps(a.locks, id, amount); }
    case Elect(stake) =>
      if CANDIDACY in Ids(a.locks) { ElectKeeps(a.locks, stake); }
  }

  lemma ElectKeeps(locks: seq<BalanceLock>, stake: nat)
    requires OneRivalrous(locks) && DistinctIds(locks) && CANDIDACY in Ids(locks)
    ensures var after := Exchange(locks, CANDIDACY, COUNCILOR, stake); OneRivalrous(after) && DistinctIds(after)
  {
    ExchangeKeepsIff(locks, CANDIDACY, COUNCILOR, stake);
  }

  lemma RestakeKeeps(a: Account, id: LockId, amount: nat)
    requires OneRivalrous(a.locks) && DistinctIds(a.locks) && id in Ids(a.locks)
    ensures SetStake(a, id, amount).Ok? ==>
              var locks := SetStake(a, id, amount).value.locks; OneRivalrous(locks) && DistinctIds(locks)
  {
    RemoveLockKeeps(a.locks, id);
    SetLockKeeps(a.locks, id, amount);
  }

  ghost predicate NothingRivalrous(locks: seq<BalanceLock>) {
    forall i :: 0 <= i < |locks| ==> !Rivalrous(locks[i].id)
  }

  /** An unchecked exchange of a lock the account holds keeps the rule exactly when it gives up
      the rivalrous lock, locks nothing or something harmless or already there, or the account
      holds nothing rivalrous. */
  lemma ExchangeKeepsIff(locks: seq<BalanceLock>, from: LockId, to: LockId, amount: nat)
    requires OneRivalrous(locks) && DistinctIds(locks) && from in Ids(locks)
    ensures OneRivalrous(Exchange(locks, from, to, amount)) <==>
              Rivalrous(from) || amount == 0 || !Rivalrous(to) || to in Ids(locks) || NothingRivalrous(locks)
    ensures Rivalrous(from) ==> DistinctIds(Exchange(locks, from, to, amount))
  {
    var rest := RemoveLock(locks, from);
    RemoveLockKeeps(locks, from);
    if Rivalrous(from) || NothingRivalrous(locks) {
      NoRivalLeft(locks, from);
      SetLockKeeps(rest, to, amount);
    } else if amount == 0 {
      assert SetLock(rest, to, amount) == rest;
    } else if !Rivalrous(to) {
      SetLockKeeps(rest, to, amount);
    } else if to in Ids(locks) {
      OthersRemain(locks, from, to);
      SetLockKeeps(rest, to, amount);
    } else {
      RivalAdded(locks, from, to, amount);
    }
  }

  lemma OthersRemain(locks: seq<BalanceLock>, from: LockId, id: LockId)
    requires id != from
    ensures id in Ids(RemoveLock(locks, from)) <==> id in Ids(locks)
  {
    var src := RemoveLockSubsequence(locks, from);
    var rest := RemoveLock(locks, from);
    if k :| 0 <= k < |rest| && Ids(rest)[k] == id {
      assert Ids(locks)[src[k]] == id;
    }
    if i :| 0 <= i < |locks| && Ids(locks)[i] == id {
      OtherLockStays(locks, from, i);
      var k :| 0 <= k < |rest| && rest[k] == locks[i];
      assert Ids(rest)[k] == id;
    }
  }

  /** A rivalrous lock that stays behind meets the new one. */
  lemma RivalAdded(locks: seq<BalanceLock>, from: LockId, to: LockId, amount: nat)
    requires !NothingRivalrous(locks) && !Rivalrous(from) && Rivalrous(to) && to !in Ids(locks) && amount != 0
    ensures !OneRivalrous(Exchange(locks, from, to, amount))
  {
    var rest := RemoveLock(locks, from);
    var i :| 0 <= i < |locks| && Rivalrous(locks[i].id);
    OtherLockStays(locks, from, i);
    var k :| 0 <= k < |rest| && rest[k] == locks[i];
    OthersRemain(locks, from, to);
    var after := SetLock(rest, to, amount);
    assert after[k] == rest[k] && after[|rest|].id == to;
  }

  /** Without the one rivalrous lock nothing conflicts. */
  lemma NoRivalLeft(locks: seq<BalanceLock>, from: LockId)
    requires OneRivalrous(locks) && from in Ids(locks)
    requires Rivalrous(from) || NothingRivalrous(locks)
    ensures forall id :: !AreLocksConflicting(id, Ids(RemoveLock(locks, from)))
  {
    var rest := RemoveLock(locks, from);
    var src := RemoveLockSubsequence(locks, from);
    var at :| 0 <= at < |locks| && Ids(locks)[at] == from;
    forall k | 0 <= k < |rest| ensures !Rivalrous(Ids(rest)[k]) {
      assert rest[k] == locks[src[k]] && locks[at].id == from;
    }
  }

  /** A slashed lock goes back where no rival can be: its own id was the only rivalrous one. */
  lemma SlashKeeps(a: Account, id: LockId, cut: Option<nat>)
    requires OneRivalrous(a.locks) && DistinctIds(a.locks) && Find(a.locks, id).Some?
    ensures OneRivalrous(Slash(a, id, cut).0.locks) && DistinctIds(Slash(a, id, cut).0.locks)
  {
    var at := Find(a.locks, id).value;
    var rest := RemoveLock(a.locks, id);
    RemoveLockKeeps(a.locks, id);
    assert !AreLocksConflicting(id, Ids(rest));
    if cut.Some? && a.locks[at].amount > cut.value {
      SetLockKeeps(rest, id, a.locks[at].amount - cut.value);
    }
  }

  /** The locks an operation may set, change or remove. */
  predicate Touches(op: Op, id: LockId) {
    match op
    case Stake(own, _) => own == id
    case Bond(_) => id == STAKING
    case Restake(own, _) => own == id
    case Unlock(own) => own == id
    case SlashStake(own, _) => own == id
    case LockFreely(own, _) => own == id
    case Elect(_) => id == CANDIDACY || id == COUNCILOR
  }

  lemma SetLockOthers(locks: seq<BalanceLock>, id: LockId, amount: nat, other: LockId)
    requires other != id
    ensures other in Ids(SetLock(locks, id, amount)) <==> other in Ids(locks)
  {
    var after := SetLock(locks, id, amount);
    if i :| 0 <= i < |locks| && Ids(locks)[i] == other {
      assert Ids(after)[i] == other;
    }
    if i :| 0 <= i < |after| && Ids(after)[i] == other {
      assert Ids(locks)[i] == other;
    }
  }

  /** Every other lock is there afterwards exactly if it was there before. */
  lemma ApplyLeavesOthers(a: Account, op: Op, other: LockId)
    requires !Touches(op, other)
    ensures other in Ids(Apply(a, op).locks) <==> other in Ids(a.locks)
  {
    match op
    case Stake(id, amount) => SetLockOthers(a.locks, id, amount, other);
    case Bond(amount) => SetLockOthers(a.locks, STAKING, amount, other);
    case Restake(id, amount) =>
      OthersRemain(a.locks, id, other);
      SetLockOthers(a.locks, id, amount, other);
    case Unlock(id) => OthersRemain(a.locks, id, other);
    case SlashStake(id, cut) => SlashLeavesOthers(a, id, cut, other);
    case LockFreely(id, amount) => SetLockOthers(a.locks, id, amount, other);
    case Elect(stake) =>
      OthersRemain(a.locks, CANDIDACY, other);
      SetLockOthers(RemoveLock(a.locks, CANDIDACY), COUNCILOR, stake, other);
  }

  lemma SlashLeavesOthers(a: Account, id: LockId, cut: Option<nat>, other: LockId)
    requires other != id
    ensures other in Ids(Slash(a, id, cut).0.locks) <==> other in Ids(a.locks)
  {
    var rest := RemoveLock(a.locks, id);
    OthersRemain(a.locks, id, other);
    if Find(a.locks, id).Some? {
      var stake := a.locks[Find(a.locks, id).value].amount;
      if cut.Some? && stake > cut.value {
        SetLockOthers(rest, id, stake - cut.value, other);
      }
    }
  }

  // ---------------------------------------------------------------- what each operation does

  /** The locks with other ids, their amounts included, are the same. */
  ghost predicate SameBut(before: seq<BalanceLock>, after: seq<BalanceLock>, id: LockId) {
    forall lock: BalanceLock :: lock.id != id ==> (lock in after <==> lock in before)
  }

  /** The last lock with the id is the one `Find` meets. */
  lemma FindLast(front: seq<BalanceLock>, last: BalanceLock, id: LockId)
    ensures Find(front + [last], id) == if last.id == id then Some(|front|) else Find(front, id)
  {
    assert (front + [last])[..|front|] == front;
  }

  lemma {:induction false} FindAfterUpdate(locks: seq<BalanceLock>, id: LockId, amount: nat)
    requires Find(locks, id).Some?
    ensures Find(locks[Find(locks, id).value := BalanceLock(id, amount)], id) == Find(locks, id)
    decreases |locks|
  {
    var front, last := locks[..|locks| - 1], locks[|locks| - 1];
    assert locks == front + [last];
    FindLast(front, last, id);
    var i := Find(locks, id).value;
    var updated := locks[i := BalanceLock(id, amount)];
    if last.id == id {
      assert updated == front + [BalanceLock(id, amount)];
      FindLast(front, BalanceLock(id, amount), id);
    } else {
      FindAfterUpdate(front, id, amount);
      assert updated == front[i := BalanceLock(id, amount)] + [last];
      FindLast(front[i := BalanceLock(id, amount)], last, id);
    }
  }

  /** `set_lock` makes the stake the amount asked and leaves every other lock with its amount. */
  lemma SetLockEffect(a: Account, id: LockId, amount: nat)
    requires amount > 0
    ensures CurrentStake(a.(locks := SetLock(a.locks, id, amount)), id) == amount
    ensures SameBut(a.locks, SetLock(a.locks, id, amount), id)
  {
    var after := SetLock(a.locks, id, amount);
    if Find(a.locks, id).Some? {
      FindAfterUpdate(a.locks, id, amount);
      var at := Find(a.locks, id).value;
      forall lock: BalanceLock | lock.id != id ensures lock in after <==> lock in a.locks {
        if i :| 0 <= i < |a.locks| && a.locks[i] == lock { assert after[i] == lock; }
        if i :| 0 <= i < |after| && after[i] == lock { assert a.locks[i] == lock; }
      }
    } else {
      FindLast(a.locks, BalanceLock(id, amount), id);
    }
  }

  /** `remove_lock` leaves no lock of the id and every other one with its amount. */
  lemma RemoveLockEffect(a: Account, id: LockId)
    ensures id !in Ids(RemoveLock(a.locks, id)) && SameBut(a.locks, RemoveLock(a.locks, id), id)
    ensures CurrentStake(a.(locks := RemoveLock(a.locks, id)), id) == 0
  {
    var rest := RemoveLock(a.locks, id);
    var src := RemoveLockSubsequence(a.locks, id);
    forall i | 0 <= i < |rest| ensures Ids(rest)[i] != id && rest[i] in a.locks {
      assert rest[i] == a.locks[src[i]];
    }
    forall lock: BalanceLock | lock.id != id && lock in a.locks ensures lock in rest {
      var k :| 0 <= k < |a.locks| && a.locks[k] == lock;
      OtherLockStays(a.locks, id, k);
    }
  }

  /** A stake is admitted exactly when nothing rivals it and the balance covers it; then it is
      the amount asked, and otherwise the account is as it was. */
  lemma StakeEffect(a: Account, id: LockId, amount: nat)
    ensures var admitted := (!Rivalrous(id) || NothingRivalrous(a.locks)) && 0 < amount <= a.free;
            var b := Apply(a, Stake(id, amount));
            && (admitted ==> CurrentStake(b, id) == amount && SameBut(a.locks, b.locks, id) && b.free == a.free)
            && (!admitted ==> b == a)
  {
    ConflictIff(a.locks, id);
    if amount > 0 {
      SetLockEffect(a, id, amount);
    }
  }

  lemma ConflictIff(locks: seq<BalanceLock>, id: LockId)
    ensures AreLocksConflicting(id, Ids(locks)) <==> Rivalrous(id) && !NothingRivalrous(locks)
  {
    if i :| 0 <= i < |locks| && Rivalrous(locks[i].id) {
      assert Rivalrous(Ids(locks)[i]);
    }
  }

  /** Nominators and validators bond exactly on accounts without a rivalrous lock. */
  lemma BondEffect(a: Account, amount: nat)
    ensures CanBond(a.locks) <==> NothingRivalrous(a.locks)
    ensures var b := Apply(a, Bond(amount));
            && (NothingRivalrous(a.locks) && amount > 0 ==>
                  CurrentStake(b, STAKING) == amount && SameBut(a.locks, b.locks, STAKING) && b.free == a.free)
            && (!NothingRivalrous(a.locks) || amount == 0 ==> b == a)
  {
    ConflictIff(a.locks, STAKING);
    assert Rivalrous(STAKING);
    if amount > 0 {
      SetLockEffect(a, STAKING, amount);
    }
  }

  /** `set_stake` makes the stake the amount asked, zero included, unless the balance is below it;
      taking away what is not there changes nothing. */
  lemma SetStakeEffect(a: Account, id: LockId, stake: nat)
    ensures stake == 0 && CurrentStake(a, id) == 0 ==> SetStake(a, id, stake) == Ok(a)
    ensures SetStake(a, id, stake).Ok? <==> stake == 0 || stake <= a.free
    ensures SetStake(a, id, stake).Ok? ==>
              var b := SetStake(a, id, stake).value;
              CurrentStake(b, id) == stake && SameBut(a.locks, b.locks, id) && b.free == a.free
  {
    RemoveLockEffect(a, id);
    if stake > 0 {
      SetLockEffect(a, id, stake);
    }
  }

  lemma RestakeEffect(a: Account, id: LockId, amount: nat)
    ensures var b := Apply(a, Restake(id, amount));
            && (id in Ids(a.locks) && (amount == 0 || amount <= a.free) ==>
                  CurrentStake(b, id) == amount && SameBut(a.locks, b.locks, id) && b.free == a.free)
            && (id !in Ids(a.locks) || (amount > 0 && amount > a.free) ==> b == a)
  {
    SetStakeEffect(a, id, amount);
  }

  lemma UnlockEffect(a: Account, id: LockId)
    ensures var b := Apply(a, Unlock(id));
            id !in Ids(b.locks) && SameBut(a.locks, b.locks, id) && b.free == a.free
  {
    RemoveLockEffect(a, id);
  }

  lemma LockFreelyEffect(a: Account, id: LockId, amount: nat)
    ensures var b := Apply(a, LockFreely(id, amount));
            && (!Rivalrous(id) && amount > 0 ==>
                  CurrentStake(b, id) == amount && SameBut(a.locks, b.locks, id) && b.free == a.free)
            && (Rivalrous(id) || amount == 0 ==> b == a)
  {
    if amount > 0 {
      SetLockEffect(a, id, amount);
    }
  }

  lemma SameButTransitive(x: seq<BalanceLock>, y: seq<BalanceLock>, z: seq<BalanceLock>, id: LockId)
    requires SameBut(x, y, id) && SameBut(y, z, id)
    ensures SameBut(x, z, id)
  {
  }

  lemma SlashLocks(a: Account, id: LockId, cut: Option<nat>)
    ensures SameBut(a.locks, Slash(a, id, cut).0.locks, id)
    ensures Slash(a, id, cut).1 == CurrentStake(a, id) ==> id !in Ids(Slash(a, id, cut).0.locks)
  {
    var rest := a.(locks := RemoveLock(a.locks, id));
    RemoveLockEffect(a, id);
    if Find(a.locks, id).Some? {
      var stake := CurrentStake(a, id);
      if cut.Some? && stake > cut.value {
        SetLockEffect(rest, id, stake - cut.value);
        SameButTransitive(a.locks, rest.locks, SetLock(rest.locks, id, stake - cut.value), id);
      }
    }
  }

  /** A slash takes what was asked, at most the stake; a full one leaves no lock. */
  lemma SlashEffect(a: Account, id: LockId, cut: Option<nat>)
    ensures var (b, slashed) := Slash(a, id, cut);
            var stake := CurrentStake(a, id);
            && slashed == (if cut.Some? then Min(cut.value, stake) else stake)
            && (slashed == stake ==> id !in Ids(b.locks))
            && SameBut(a.locks, b.locks, id)
            && Apply(a, SlashStake(id, cut)) == b
  {
    SlashLocks(a, id, cut);
  }

  /** Every lock but two is the same. */
  ghost predicate SameButTwo(before: seq<BalanceLock>, after: seq<BalanceLock>, id: LockId, other: LockId) {
    forall lock: BalanceLock :: lock.id != id && lock.id != other ==> (lock in after <==> lock in before)
  }

  lemma ExchangeEffect(a: Account, from: LockId, to: LockId, amount: nat)
    requires from != to && amount > 0
    ensures var after := Exchange(a.locks, from, to, amount);
            && from !in Ids(after) && CurrentStake(a.(locks := after), to) == amount
            && SameButTwo(a.locks, after, from, to)
  {
    var rest := a.(locks := RemoveLock(a.locks, from));
    RemoveLockEffect(a, from);
    SetLockEffect(rest, to, amount);
    SetLockOthers(rest.locks, to, amount, from);
  }

  /** An elected candidate's lock is gone, the councilor's is there with the stake, and every
      other lock is as it was; without a candidacy nothing happens. */
  lemma ElectEffect(a: Account, stake: nat)
    requires stake > 0
    ensures var b := Apply(a, Elect(stake));
            && (CANDIDACY in Ids(a.locks) ==>
                  && CANDIDACY !in Ids(b.locks) && CurrentStake(b, COUNCILOR) == stake && b.free == a.free
                  && SameButTwo(a.locks, b.locks, CANDIDACY, COUNCILOR))
            && (CANDIDACY !in Ids(a.locks) ==> b == a)
  {
    CouncilLocksDiffer();
    ExchangeEffect(a, CANDIDACY, COUNCILOR, stake);
    if CANDIDACY in Ids(a.locks) {
      assert Apply(a, Elect(stake)) == a.(locks := Exchange(a.locks, CANDIDACY, COUNCILOR, stake));
    }
  }

  lemma CouncilLocksDiffer()
    ensures CANDIDACY != COUNCILOR
  {
    assert CANDIDACY[1] != COUNCILOR[1];
  }

  /** What an operation takes from the balance: a slash up to what is there, all others nothing. */
  function Burned(a: Account, op: Op): nat {
    match op
    case SlashStake(id, cut) => Min(a.free, Slash(a, id, cut).1)
    case _ => 0
  }

  lemma ApplyConserves(a: Account, op: Op)
    ensures Apply(a, op).free + Burned(a, op) == a.free
  {
  }

  /** Over every run of stakes, bonds, restakes, unlocks, slashes, unchecked harmless locks and
      elections, an account that starts with at most one rivalrous lock never holds two. */
  lemma {:induction false} NeverTwoRivalrousLocks(a: Account, ops: seq<Op>)
    requires OneRivalrous(a.locks) && DistinctIds(a.locks)
    ensures OneRivalrous(ApplyAll(a, ops).locks) && DistinctIds(ApplyAll(a, ops).locks)
    decreases |ops|
  {
    if ops == [] {
    } else {
      ApplyKeeps(a, ops[0]);
      NeverTwoRivalrousLocks(Apply(a, ops[0]), ops[1..]);
    }
  }

  /** `set_stake` does no conflict check, so on a sound account it keeps the rule exactly when
      it is refused or zero, the stake is already there, or the comparator would have agreed. */
  lemma SetStakeKeepsIff(a: Account, id: LockId, stake: nat)
    requires OneRivalrous(a.locks) && DistinctIds(a.locks)
    ensures (SetStake(a, id, stake).Ok? ==> OneRivalrous(SetStake(a, id, stake).value.locks))
       <==> (stake == 0 || a.free < stake || id in Ids(a.locks) || !AreLocksConflicting(id, Ids(a.locks)))
  {
    RemoveLockKeeps(a.locks, id);
    if id in Ids(a.locks) || !AreLocksConflicting(id, Ids(a.locks)) {
      SetLockKeeps(a.locks, id, stake);
    } else if stake != 0 && stake <= a.free {
      var i :| 0 <= i < |Ids(a.locks)| && Rivalrous(Ids(a.locks)[i]);
      var r := SetLock(a.locks, id, stake);
      assert r[i].id == Ids(a.locks)[i] && r[|a.locks|].id == id;
    }
  }

  /** What a slash reports is exactly what the stake lost, never more than was asked, and the
      balance falls by the same amount, or to zero when it holds less. */
  lemma SlashConserves(a: Account, id: LockId, cut: Option<nat>)
    ensures var (b, slashed) := Slash(a, id, cut);
            && CurrentStake(b, id) + slashed == CurrentStake(a, id)
            && (cut.Some? ==> slashed <= cut.value)
            && b.free == Monus(a.free, slashed)
  {
    var rest := RemoveLock(a.locks, id);
    var src := RemoveLockSubsequence(a.locks, id);
    assert forall i :: 0 <= i < |rest| ==> Ids(rest)[i] != id;
    if Find(a.locks, id).Some? {
      var stake := a.locks[Find(a.locks, id).value].amount;
      if cut.Some? && stake > cut.value {
        assert SetLock(rest, id, stake - cut.value) == rest + [BalanceLock(id, stake - cut.value)];
      }
    }
  }

  // ---------------------------------------------------------------- order of admission

  /** Stakes requested one after another on a fresh account, none refused. */
  predicate Admitted(ids: seq<LockId>) {
    ids == [] || (Admitted(ids[..|ids| - 1]) && !AreLocksConflicting(ids[|ids| - 1], ids[..|ids| - 1]))
  }

  function RivalrousCount(ids: seq<LockId>): nat {
    Ordering.CountIf(Rivalrous, ids)
  }

  /** Admission depends only on how many of the requested locks are rivalrous. */
  lemma {:induction false} AdmittedIffAtMostOneRivalrous(ids: seq<LockId>)
    ensures Admitted(ids) <==> RivalrousCount(ids) <= 1
    decreases |ids|
  {
    if ids == [] {
    } else {
      AdmittedIffAtMostOneRivalrous(ids[..|ids| - 1]);
      Ordering.CountNone(Rivalrous, ids[..|ids| - 1]);
    }
  }

  function Stakes(ids: seq<LockId>): (ops: seq<Op>)
    ensures |ops| == |ids|
  {
    seq(|ids|, i requires 0 <= i < |ids| => Stake(ids[i], 1))
  }

  lemma {:induction false} ApplyAllThen(a: Account, ops: seq<Op>, op: Op)
    ensures ApplyAll(a, ops + [op]) == Apply(ApplyAll(a, ops), op)
    decreases |ops|
  {
    if ops == [] {
      assert [op][1..] == [];
      assert ApplyAll(a, ops + [op]) == ApplyAll(Apply(a, op), []);
    } else {
      assert (ops + [op])[1..] == ops[1..] + [op];
      ApplyAllThen(Apply(a, ops[0]), ops[1..], op);
    }
  }

  ghost predicate NoneTwice(ids: seq<LockId>) {
    forall i, j :: 0 <= i < j < |ids| ==> ids[i] != ids[j]
  }

  lemma NoneTwiceInFront(front: seq<LockId>, x: LockId)
    requires NoneTwice(front + [x])
    ensures NoneTwice(front) && x !in front
  {
    var ids := front + [x];
    forall i | 0 <= i < |front| ensures front[i] != x {
      assert ids[i] == front[i] && ids[|front|] == x;
    }
    assert forall i :: 0 <= i < |front| ==> front[i] == ids[i];
  }

  /** A fresh account on which the ids were staked one after another. */
  ghost function Staked(free: nat, ids: seq<LockId>): Account {
    ApplyAll(Account(free, []), Stakes(ids))
  }

  /** It holds exactly those locks, in order, just when the list is admitted. */
  ghost predicate LockedIffAdmitted(free: nat, ids: seq<LockId>, a: Account) {
    a.free == free && |a.locks| <= |ids| && (Ids(a.locks) == ids <==> Admitted(ids))
  }

  /** On a fresh account, staking distinct ids one after another leaves exactly those locks, in
      order, just when the list is admitted. */
  lemma {:induction false} AdmittedIffAllLocked(free: nat, ids: seq<LockId>)
    requires free > 0 && NoneTwice(ids)
    ensures LockedIffAdmitted(free, ids, Staked(free, ids))
    decreases |ids|
  {
    if ids == [] {
      assert Stakes(ids) == [];
    } else {
      var front, x := ids[..|ids| - 1], ids[|ids| - 1];
      assert ids == front + [x];
      NoneTwiceInFront(front, x);
      AdmittedIffAllLocked(free, front);
      AdmittedThen(free, front, x);
    }
  }

  lemma AdmittedThen(free: nat, front: seq<LockId>, x: LockId)
    requires free > 0 && x !in front && LockedIffAdmitted(free, front, Staked(free, front))
    ensures LockedIffAdmitted(free, front + [x], Staked(free, front + [x]))
  {
    assert (front + [x])[..|front|] == front;
    OneMoreStake(Account(free, []), front, x);
  }

  lemma OneMoreStake(start: Account, front: seq<LockId>, x: LockId)
    requires var b := ApplyAll(start, Stakes(front)); b.free > 0 && |b.locks| <= |front|
    requires x !in front
    ensures var a, b := ApplyAll(start, Stakes(front + [x])), ApplyAll(start, Stakes(front));
            && a.free == b.free && |a.locks| <= |front| + 1
            && (Ids(a.locks) == front + [x] <==> Ids(b.locks) == front && !AreLocksConflicting(x, front))
  {
    assert Stakes(front + [x]) == Stakes(front) + [Stake(x, 1)];
    ApplyAllThen(start, Stakes(front), Stake(x, 1));
    LastStake(ApplyAll(start, Stakes(front)), front, x);
  }

  /** One more stake on an account that holds at most the locks `front`. */
  lemma LastStake(b: Account, front: seq<LockId>, x: LockId)
    requires b.free > 0 && |b.locks| <= |front| && x !in front
    ensures var a := Apply(b, Stake(x, 1));
            && a.free == b.free && |a.locks| <= |front| + 1
            && (Ids(a.locks) == front + [x] <==> Ids(b.locks) == front && !AreLocksConflicting(x, front))
  {
    var a := Apply(b, Stake(x, 1));
    if AreLocksConflicting(x, Ids(b.locks)) {
      assert |Ids(a.locks)| < |front + [x]|;
    } else if Find(b.locks, x).Some? {
      assert |Ids(a.locks)| < |front + [x]|;
    } else {
      assert Ids(a.locks) == Ids(b.locks) + [x];
      if Ids(a.locks) == front + [x] {
        assert Ids(b.locks) == (front + [x])[..|front|];
      }
    }
  }

  /** A list of locks is admitted in one order exactly when it is admitted in every order. */
  lemma AdmissionIgnoresOrder(s: seq<LockId>, t: seq<LockId>)
    requires multiset(s) == multiset(t)
    ensures Admitted(s) <==> Admitted(t)
  {
    AdmittedIffAtMostOneRivalrous(s);
    AdmittedIffAtMostOneRivalrous(t);
    Ordering.CountOfPermutation(Rivalrous, s, t);
  }
}
