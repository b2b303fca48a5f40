/**
 * The state that the command line tool keeps in one JSON file, shared by any number of
 * processes: boot-time creation, locked read-merge-write, and the metadata cache that is read
 * outside the lock and written back whole.
 */
module PreservedState {
  import opened Wrappers

  datatype Field = ApiUri | QueryNodeUri | DefaultWorkingGroup | MetadataCache | Other(name: string)

  /** A JavaScript value as far as the state object needs one. */
  datatype Value = Undefined | Null | Text(text: string) | Record(entries: map<string, string>)

  type State = map<Field, Value>

  const DEFAULT_STATE: State := map[
    ApiUri := Text(""),
    QueryNodeUri := Undefined,
    DefaultWorkingGroup := Text("storageProviders"),
    MetadataCache := Record(map[])
  ]

  // ---------------------------------------------------------------- JSON and object spreading

  /** Property lookup: an absent property reads as undefined. */
  function Look(s: State, f: Field): Value {
    if f in s then s[f] else Undefined
  }

  /** What survives `JSON.stringify`: undefined properties are dropped. */
  function Stringify(s: State): State {
    map f | f in s && s[f] != Undefined :: s[f]
  }

  ghost predicate IsJson(s: State) {
    forall f :: f in s ==> s[f] != Undefined
  }

  /** `{ ...defaults, ...file }`: what `getPreservedState` returns. */
  function Merge(defaults: State, file: State): State {
    defaults + file
  }

  /** The file that `setPreservedState(update)` leaves when it runs alone. */
  function Commit(defaults: State, file: State, update: State): State {
    Stringify(Merge(defaults, file) + update)
  }

  // ---------------------------------------------------------------- the interleaved processes

  /** Where a process stands; everything between two constructors is one atomic step. */
  datatype Pc =
    | Booting                                                // before `existsSync`
    | Creating                                               // the file was missing when looked for
    | Ready
    | CacheLoaded(cache: map<string, string>, aliased: bool) // `metadataCache` destructured, no lock
    | Waiting(update: State)                                 // before `lockFile.lock`
    | Locked(update: State)                                  // lock taken, nothing read
    | HaveRead(update: State, before: State)                 // before `writeFileSync`
    | Written(failed: bool)                                  // before `unlock`
    | Stopped
    | StoppedHolding                                         // the read under the lock threw

  /** Each process has its own DEFAULT_STATE object, which aliasing can mutate. */
  datatype Process = Process(pc: Pc, defaults: State)

  /** `commits` is the history of updates whose write succeeded, in order. */
  datatype Sys = Sys(file: Option<State>, lock: Option<nat>, procs: map<nat, Process>, commits: seq<State>)

  datatype Action =
    | CheckFile(p: nat)
    | CreateFile(p: nat)
    | StartUpdate(p: nat, update: State)
    | LoadCache(p: nat)
    | KeepCache(p: nat, key: string)
    | FillCache(p: nat, key: string)
    | Acquire(p: nat)
    | LockFails(p: nat)
    | ReadOld(p: nat)
    | ReadFails(p: nat)
    | Write(p: nat)
    | WriteFails(p: nat)
    | Release(p: nat)

  function Initial(file: Option<State>, pids: set<nat>): Sys {
    Sys(file, None, map p | p in pids :: Process(Booting, DEFAULT_STATE), [])
  }

  function Goto(s: Sys, p: nat, pc: Pc): Sys
    requires p in s.procs
  {
    s.(procs := s.procs[p := s.procs[p].(pc := pc)])
  }

  /** `metadata` is the chain oracle: the metadata that belongs to a genesis-and-version key. */
  function Step(metadata: string -> string, s: Sys, a: Action): Option<Sys> {
    if a.p !in s.procs then None else
    var p := a.p;
    var me := s.procs[p];
    match (a, me.pc)
    case (CheckFile(_), Booting) =>
      Some(Goto(s, p, if s.file.Some? then Ready else Creating))
    case (CreateFile(_), Creating) =>
      Some(Goto(s, p, Ready).(file := Some(Stringify(me.defaults))))
    case (StartUpdate(_, update), Ready) =>
      if MetadataCache in update then None else Some(Goto(s, p, Waiting(update)))
    case (LoadCache(_), Ready) =>
      if s.file.None? then None else
      var seen := Look(Merge(me.defaults, s.file.value), MetadataCache);
      if !seen.Record? then None
      else Some(Goto(s, p, CacheLoaded(seen.entries, MetadataCache !in s.file.value)))
    case (KeepCache(_, key), CacheLoaded(cache, _)) =>
      if key in cache then Some(Goto(s, p, Ready)) else None
    case (FillCache(_, key), CacheLoaded(cache, aliased)) =>
      if key in cache then None else
      var filled := Record(cache[key := metadata(key)]);
      var defaults := if aliased then me.defaults[MetadataCache := filled] else me.defaults;
      Some(s.(procs := s.procs[p := Process(Waiting(map[MetadataCache := filled]), defaults)]))
    case (Acquire(_), Waiting(update)) =>
      if s.lock.Some? || s.file.None? then None
      else Some(Goto(s, p, Locked(update)).(lock := Some(p)))
    case (LockFails(_), Waiting(_)) =>
      Some(Goto(s, p, Stopped))
    case (ReadOld(_), Locked(update)) =>
      if s.file.None? then None
      else Some(Goto(s, p, HaveRead(update, Merge(me.defaults, s.file.value))))
    case (ReadFails(_), Locked(_)) =>
      Some(Goto(s, p, StoppedHolding))
    case (Write(_), HaveRead(update, before)) =>
      Some(Goto(s, p, Written(false)).(file := Some(Stringify(before + update)), commits := s.commits + [update]))
    case (WriteFails(_), HaveRead(_, _)) =>
      Some(Goto(s, p, Written(true)))
    case (Release(_), Written(failed)) =>
      Some(Goto(s, p, if failed then Stopped else Ready).(lock := None))
    case _ => None
  }

  /** A run is any list of actions each of which is enabled where it occurs. */
  function Run(metadata: string -> string, s: Sys, acts: seq<Action>): Option<Sys>
    decreases |acts|
  {
    if acts == [] then Some(s)
    else match Step(metadata, s, acts[0])
      case None => None
      case Some(next) => Run(metadata, next, acts[1..])
  }

  // ---------------------------------------------------------------- mutual exclusion

  predicate Critical(pc: Pc) {
    pc.Locked? || pc.HaveRead? || pc.Written? || pc.StoppedHolding?
  }

  ghost predicate Exclusive(s: Sys) {
    && (forall p :: p in s.procs && Critical(s.procs[p].pc) ==> s.lock == Some(p))
    && (s.lock.Some? ==> s.lock.value in s.procs && Critical(s.procs[s.lock.value].pc))
  }

  lemma StepKeepsExclusive(metadata: string -> string, s: Sys, a: Action)
    requires Exclusive(s) && Step(metadata, s, a).Some?
    ensures Exclusive(Step(metadata, s, a).value)
  {
  }

  lemma {:induction false} RunKeepsExclusive(metadata: string -> string, s: Sys, acts: seq<Action>)
    requires Exclusive(s) && Run(metadata, s, acts).Some?
    ensures Exclusive(Run(metadata, s, acts).value)
    decreases |acts|
  {
    if acts == [] {
    } else {
      StepKeepsExclusive(metadata, s, acts[0]);
      RunKeepsExclusive(metadata, Step(metadata, s, acts[0]).value, acts[1..]);
    }
  }

  /** In every run at most one process stands between lock and unlock, and the lock is its. */
  lemma AtMostOneInside(
      metadata: string -> string, file: Option<State>, pids: set<nat>, acts: seq<Action>, p: nat, q: nat)
    requires Run(metadata, Initial(file, pids), acts).Some?
    ensures var s := Run(metadata, Initial(file, pids), acts).value;
            && (p in s.procs && Critical(s.procs[p].pc) ==> s.lock == Some(p))
            && (p in s.procs && q in s.procs && Critical(s.procs[p].pc) && Critical(s.procs[q].pc) ==> p == q)
  {
    RunKeepsExclusive(metadata, Initial(file, pids), acts);
  }

  /** While a process whose locked read threw keeps the lock, nobody commits again. */
  lemma {:induction false} FailedReadBlocksCommits(metadata: string -> string, s: Sys, acts: seq<Action>, p: nat)
    requires Exclusive(s) && p in s.procs && s.procs[p].pc == StoppedHolding
    requires Run(metadata, s, acts).Some?
    ensures var t := Run(metadata, s, acts).value; t.commits == s.commits && t.lock == Some(p)
    decreases |acts|
  {
    if acts == [] {
    } else {
      StepKeepsExclusive(metadata, s, acts[0]);
      FailedReadBlocksCommits(metadata, Step(metadata, s, acts[0]).value, acts[1..], p);
    }
  }

  /** A read that throws under the lock keeps it for good: whatever the others do afterwards,
      the lock stays with the process and nothing is committed any more. */
  lemma FailedReadKeepsLock(metadata: string -> string, s: Sys, p: nat, acts: seq<Action>)
    requires Exclusive(s) && Step(metadata, s, ReadFails(p)).Some?
    requires Run(metadata, Step(metadata, s, ReadFails(p)).value, acts).Some?
    ensures var t := Run(metadata, Step(metadata, s, ReadFails(p)).value, acts).value;
            t.lock == Some(p) && t.commits == s.commits
    ensures forall i :: 0 <= i < |acts| ==> acts[i].p != p
  {
    var failed := Step(metadata, s, ReadFails(p)).value;
    StepKeepsExclusive(metadata, s, ReadFails(p));
    FailedReadBlocksCommits(metadata, failed, acts, p);
    EndedNeverActs(metadata, failed, acts, p);
  }

  // ---------------------------------------------------------------- where each exit leads

  /** The command has exited: no run goes on with the process. */
  ghost predicate Ended(metadata: string -> string, s: Sys, p: nat) {
    forall acts: seq<Action> :: Run(metadata, s, acts).Some? ==> forall i :: 0 <= i < |acts| ==> acts[i].p != p
  }

  lemma {:induction false} EndedNeverActs(metadata: string -> string, s: Sys, acts: seq<Action>, p: nat)
    requires p in s.procs && (s.procs[p].pc.Stopped? || s.procs[p].pc.StoppedHolding?)
    requires Run(metadata, s, acts).Some?
    ensures forall i :: 0 <= i < |acts| ==> acts[i].p != p
    decreases |acts|
  {
    if acts == [] {
    } else {
      EndedNeverActs(metadata, Step(metadata, s, acts[0]).value, acts[1..], p);
      assert forall i :: 1 <= i < |acts| ==> acts[i] == acts[1..][i - 1];
    }
  }

  lemma StoppedHasEnded(metadata: string -> string, s: Sys, p: nat)
    requires p in s.procs && s.procs[p].pc.Stopped?
    ensures Ended(metadata, s, p)
  {
    forall acts: seq<Action> | Run(metadata, s, acts).Some? ensures forall i :: 0 <= i < |acts| ==> acts[i].p != p {
      EndedNeverActs(metadata, s, acts, p);
    }
  }

  /** File, lock and history are as they were. */
  ghost predicate SameStore(s: Sys, t: Sys) {
    t.file == s.file && t.lock == s.lock && t.commits == s.commits
  }

  /** A lock that cannot be taken ends the command and changes nothing. */
  lemma FailedLockEnds(metadata: string -> string, s: Sys, p: nat)
    requires Step(metadata, s, LockFails(p)).Some?
    ensures var t := Step(metadata, s, LockFails(p)).value; SameStore(s, t) && Ended(metadata, t, p)
  {
    StoppedHasEnded(metadata, Step(metadata, s, LockFails(p)).value, p);
  }

  /** A write that throws changes nothing; all the process can still do is give the lock back,
      and that ends the command. */
  lemma FailedWriteEnds(metadata: string -> string, s: Sys, p: nat)
    requires Step(metadata, s, WriteFails(p)).Some?
    ensures var t := Step(metadata, s, WriteFails(p)).value;
            && SameStore(s, t)
            && (forall a: Action :: a.p == p && Step(metadata, t, a).Some? ==> a == Release(p))
            && Step(metadata, t, Release(p)).Some?
            && var u := Step(metadata, t, Release(p)).value;
            && u.lock.None? && u.file == s.file && u.commits == s.commits && Ended(metadata, u, p)
  {
    var t := Step(metadata, s, WriteFails(p)).value;
    StoppedHasEnded(metadata, Step(metadata, t, Release(p)).value, p);
  }

  /** The process is free to run its command: any update of ordinary fields may start. */
  ghost predicate MayUpdate(metadata: string -> string, s: Sys, p: nat) {
    forall update: State :: MetadataCache !in update ==> Step(metadata, s, StartUpdate(p, update)).Some?
  }

  /** A waiting process gets the lock exactly when nobody holds it and there is a file. */
  lemma LockNeedsFile(metadata: string -> string, s: Sys, p: nat, update: State)
    requires Step(metadata, s, StartUpdate(p, update)).Some?
    ensures var t := Step(metadata, s, StartUpdate(p, update)).value;
            && SameStore(s, t)
            && (Step(metadata, t, Acquire(p)).Some? <==> s.lock.None? && s.file.Some?)
            && (Step(metadata, t, Acquire(p)).Some? ==> Step(metadata, t, Acquire(p)).value.lock == Some(p))
  {
  }

  /** What a file just created reads as: the defaults, the undefined one included. */
  lemma FreshFileReads(name: string)
    ensures var read := Merge(DEFAULT_STATE, Stringify(DEFAULT_STATE));
            && Look(read, ApiUri) == Text("") && Look(read, QueryNodeUri) == Undefined
            && Look(read, DefaultWorkingGroup) == Text("storageProviders")
            && Look(read, MetadataCache) == Record(map[]) && Look(read, Other(name)) == Undefined
            && QueryNodeUri !in Stringify(DEFAULT_STATE) && ApiUri in Stringify(DEFAULT_STATE)
  {
  }

  /** Booting: with a file the process goes straight on, without one it must first write the
      defaults. */
  lemma BootChecksForFile(metadata: string -> string, s: Sys, p: nat)
    requires Step(metadata, s, CheckFile(p)).Some?
    ensures var t := Step(metadata, s, CheckFile(p)).value;
            && SameStore(s, t)
            && (s.file.Some? ==> MayUpdate(metadata, t, p))
            && (s.file.None? ==>
                  && (forall a: Action :: a.p == p && Step(metadata, t, a).Some? ==> a == CreateFile(p))
                  && Step(metadata, t, CreateFile(p)).Some?
                  && var u := Step(metadata, t, CreateFile(p)).value;
                  && u.file == Some(Stringify(s.procs[p].defaults)) && MayUpdate(metadata, u, p))
  {
  }

  /** A loaded cache is kept exactly if it has the key, and the command goes on with nothing
      changed; otherwise exactly the missing entry is added, on the default object itself when
      the file lacks the field, and the whole cache waits to be written. */
  lemma CacheKeptOrFilled(metadata: string -> string, s: Sys, p: nat, key: string)
    requires Step(metadata, s, LoadCache(p)).Some?
    ensures s.file.Some? && Look(Merge(s.procs[p].defaults, s.file.value), MetadataCache).Record?
    ensures var t := Step(metadata, s, LoadCache(p)).value;
            var cache := Look(Merge(s.procs[p].defaults, s.file.value), MetadataCache).entries;
            var kept, filled := Step(metadata, t, KeepCache(p, key)), Step(metadata, t, FillCache(p, key));
            && SameStore(s, t)
            && (kept.Some? <==> key in cache) && (filled.Some? <==> key !in cache)
            && (kept.Some? ==> SameStore(s, kept.value) && MayUpdate(metadata, kept.value, p)
                               && kept.value.procs[p].defaults == s.procs[p].defaults)
            && (filled.Some? ==>
                  && SameStore(s, filled.value)
                  && filled.value.procs[p].pc == Waiting(map[MetadataCache := Record(cache[key := metadata(key)])])
                  && Look(filled.value.procs[p].defaults, MetadataCache)
                     == if MetadataCache in s.file.value then Look(s.procs[p].defaults, MetadataCache)
                        else Record(cache[key := metadata(key)]))
  {
  }

  // ---------------------------------------------------------------- no update is lost

  /** What a field should read after a list of commits: the last update that mentions it wins,
      an explicit undefined falls back to the default, and an untouched field keeps its base. */
  function LastWrite(base: State, commits: seq<State>, f: Field): Value {
    if commits == [] then Look(base, f)
    else
      var u := commits[|commits| - 1];
      if f !in u then LastWrite(base, commits[..|commits| - 1], f)
      else if u[f] == Undefined then Look(DEFAULT_STATE, f)
      else u[f]
  }

  function InitialView(file: Option<State>): State {
    match file
    case None => DEFAULT_STATE
    case Some(content) => Merge(DEFAULT_STATE, content)
  }

  /** The file, read back, is exactly the commits applied in order, field by field. */
  ghost predicate NothingLost(s: Sys, base: State) {
    s.file.Some? ==>
      forall f :: Look(Merge(DEFAULT_STATE, s.file.value), f) == LastWrite(base, s.commits, f)
  }

  /** The default object differs from DEFAULT_STATE at most in an aliased metadata cache, and
      then nothing this process still writes can let the difference show. */
  ghost predicate SafeDefaults(me: Process, file: State) {
    && me.defaults.Keys == DEFAULT_STATE.Keys
    && (forall f :: f in DEFAULT_STATE && f != MetadataCache ==> me.defaults[f] == DEFAULT_STATE[f])
    && (me.defaults != DEFAULT_STATE ==>
          || MetadataCache in file
          || me.pc.Stopped? || me.pc.StoppedHolding? || me.pc == Written(true)
          || ((me.pc.Waiting? || me.pc.Locked? || me.pc.HaveRead?) && MetadataCache in me.pc.update))
  }

  ghost predicate CacheNeverUndefined(pc: Pc) {
    pc.Waiting? || pc.Locked? || pc.HaveRead? ==>
      Look(pc.update, MetadataCache) != Undefined || MetadataCache !in pc.update
  }

  ghost predicate ProcessOk(me: Process, file: State) {
    && !me.pc.Creating?
    && SafeDefaults(me, file)
    && CacheNeverUndefined(me.pc)
    && (me.pc.HaveRead? ==> me.pc.before == Merge(me.defaults, file))
  }

  /** The invariant once the file exists and nobody is about to create it. */
  ghost predicate Serial(s: Sys, base: State) {
    && Exclusive(s)
    && s.file.Some? && IsJson(s.file.value)
    && NothingLost(s, base)
    && forall p :: p in s.procs ==> ProcessOk(s.procs[p], s.file.value)
  }

  /** Before the only process has created the file. */
  ghost predicate LonelyBoot(s: Sys) {
    && s.file.None? && s.lock.None? && s.commits == []
    && (forall p, q :: p in s.procs && q in s.procs ==> p == q)
    && (forall p :: p in s.procs ==>
          (s.procs[p].pc.Booting? || s.procs[p].pc.Creating?) && s.procs[p].defaults == DEFAULT_STATE)
  }

  /** One commit read back: mentioned fields take the update, the rest stay as they read. */
  lemma CommitReadsBack(defaults: State, file: State, update: State, f: Field)
    requires IsJson(file) && defaults.Keys == DEFAULT_STATE.Keys
    requires forall g :: g in DEFAULT_STATE && g != MetadataCache ==> defaults[g] == DEFAULT_STATE[g]
    requires defaults == DEFAULT_STATE || MetadataCache in file || Look(update, MetadataCache) != Undefined
    ensures Look(Merge(DEFAULT_STATE, Commit(defaults, file, update)), f)
         == if f !in update then Look(Merge(DEFAULT_STATE, file), f)
            else if update[f] == Undefined then Look(DEFAULT_STATE, f)
            else update[f]
  {
  }

  lemma WriteLosesNothing(metadata: string -> string, s: Sys, p: nat, base: State)
    requires Serial(s, base) && Step(metadata, s, Write(p)).Some?
    ensures NothingLost(Step(metadata, s, Write(p)).value, base)
  {
    var t := Step(metadata, s, Write(p)).value;
    var me := s.procs[p];
    assert ProcessOk(me, s.file.value);
    assert t.file.value == Commit(me.defaults, s.file.value, me.pc.update);
    assert t.commits[..|t.commits| - 1] == s.commits;
    forall f ensures Look(Merge(DEFAULT_STATE, t.file.value), f) == LastWrite(base, t.commits, f) {
      CommitReadsBack(me.defaults, s.file.value, me.pc.update, f);
    }
  }

  /** A bystander of a write: it holds no lock, so it has read nothing under one. */
  lemma BystanderStaysOk(me: Process, file: State, written: State)
    requires ProcessOk(me, file) && !me.pc.HaveRead? && (MetadataCache in file ==> MetadataCache in written)
    ensures ProcessOk(me, written)
  {
  }

  lemma WriteKeepsSerial(metadata: string -> string, s: Sys, p: nat, base: State)
    requires Serial(s, base) && Step(metadata, s, Write(p)).Some?
    ensures Serial(Step(metadata, s, Write(p)).value, base)
  {
    var t := Step(metadata, s, Write(p)).value;
    StepKeepsExclusive(metadata, s, Write(p));
    WriteLosesNothing(metadata, s, p, base);
    assert ProcessOk(s.procs[p], s.file.value);
    forall q | q in t.procs ensures ProcessOk(t.procs[q], t.file.value) {
      if q != p {
        assert ProcessOk(s.procs[q], s.file.value);
        assert !Critical(s.procs[q].pc);
        BystanderStaysOk(s.procs[q], s.file.value, t.file.value);
      }
    }
  }

  lemma QuietStep(metadata: string -> string, s: Sys, a: Action)
    requires s.file.Some? && IsJson(s.file.value) && !a.Write?
    requires a.p in s.procs && ProcessOk(s.procs[a.p], s.file.value) && Step(metadata, s, a).Some?
    ensures var t := Step(metadata, s, a).value;
            && t.file == s.file && t.commits == s.commits && t.procs.Keys == s.procs.Keys
            && (forall q :: q in s.procs && q != a.p ==> t.procs[q] == s.procs[q])
            && ProcessOk(t.procs[a.p], t.file.value)
  {
  }

  lemma StepKeepsSerial(metadata: string -> string, s: Sys, a: Action, base: State)
    requires Serial(s, base) && Step(metadata, s, a).Some?
    ensures Serial(Step(metadata, s, a).value, base)
  {
    if a.Write? {
      WriteKeepsSerial(metadata, s, a.p, base);
    } else {
      StepKeepsExclusive(metadata, s, a);
      QuietStep(metadata, s, a);
    }
  }

  lemma LonelyStep(metadata: string -> string, s: Sys, a: Action)
    requires LonelyBoot(s) && Step(metadata, s, a).Some?
    ensures var t := Step(metadata, s, a).value; LonelyBoot(t) || Serial(t, DEFAULT_STATE)
  {
    var t := Step(metadata, s, a).value;
    if a.CreateFile? {
      assert forall f :: Look(Merge(DEFAULT_STATE, t.file.value), f) == Look(DEFAULT_STATE, f);
    }
  }

  lemma {:induction false} RunKeepsSerial(metadata: string -> string, s: Sys, acts: seq<Action>, base: State)
    requires Serial(s, base) || (LonelyBoot(s) && base == DEFAULT_STATE)
    requires Run(metadata, s, acts).Some?
    ensures NothingLost(Run(metadata, s, acts).value, base)
    decreases |acts|
  {
    if acts == [] {
    } else {
      var t := Step(metadata, s, acts[0]).value;
      if Serial(s, base) {
        StepKeepsSerial(metadata, s, acts[0], base);
      } else {
        LonelyStep(metadata, s, acts[0]);
      }
      RunKeepsSerial(metadata, t, acts[1..], base);
    }
  }

  /** Two processes that both found no file: one creates it and commits, the other then
      overwrites it with the defaults. */
  function LosingRun(a: nat, b: nat, update: State): seq<Action> {
    [CheckFile(a)] + [CheckFile(b)] + [CreateFile(b)] + [StartUpdate(b, update)] + LockedSection(b) + [CreateFile(a)]
  }

  lemma {:induction false} RunConcat(metadata: string -> string, s: Sys, first: seq<Action>, second: seq<Action>)
    ensures Run(metadata, s, first + second)
         == match Run(metadata, s, first) case None => None case Some(t) => Run(metadata, t, second)
    decreases |first|
  {
    if first == [] {
      assert first + second == second;
    } else {
      assert (first + second)[1..] == first[1..] + second;
      if Step(metadata, s, first[0]).Some? {
        RunConcat(metadata, Step(metadata, s, first[0]).value, first[1..], second);
      }
    }
  }

  lemma OneStep(metadata: string -> string, s: Sys, a: Action)
    ensures Run(metadata, s, [a]) == Step(metadata, s, a)
  {
    if Step(metadata, s, a).Some? {
      assert [a][1..] == [];
      assert Run(metadata, Step(metadata, s, a).value, []) == Some(Step(metadata, s, a).value);
    }
  }

  lemma ThenStep(metadata: string -> string, s: Sys, acts: seq<Action>, a: Action)
    requires Run(metadata, s, acts).Some?
    ensures Run(metadata, s, acts + [a]) == Step(metadata, Run(metadata, s, acts).value, a)
  {
    RunConcat(metadata, s, acts, [a]);
    OneStep(metadata, Run(metadata, s, acts).value, a);
  }

  /** The locked part of `setPreservedState`, from `lockFile.lock` to `unlock`. */
  function LockedSection(p: nat): seq<Action> {
    [Acquire(p)] + [ReadOld(p)] + [Write(p)] + [Release(p)]
  }

  lemma GotoTwice(s: Sys, p: nat, via: Pc, end: Pc)
    requires p in s.procs
    ensures Goto(Goto(s, p, via), p, end) == Goto(s, p, end)
  {
    assert s.procs[p := s.procs[p].(pc := via)][p := s.procs[p].(pc := end)] == s.procs[p := s.procs[p].(pc := end)];
  }

  lemma AcquireThenRead(metadata: string -> string, s: Sys, p: nat, update: State)
    requires p in s.procs && s.procs[p].pc == Waiting(update) && s.lock.None? && s.file.Some?
    ensures Run(metadata, s, [Acquire(p)] + [ReadOld(p)])
         == Some(Goto(s, p, HaveRead(update, Merge(s.procs[p].defaults, s.file.value))).(lock := Some(p)))
  {
    var locked := Goto(s, p, Locked(update)).(lock := Some(p));
    var read := HaveRead(update, Merge(s.procs[p].defaults, s.file.value));
    assert Run(metadata, s, [Acquire(p)]) == Some(locked) by { OneStep(metadata, s, Acquire(p)); }
    assert Step(metadata, locked, ReadOld(p)) == Some(Goto(locked, p, read));
    ThenStep(metadata, s, [Acquire(p)], ReadOld(p));
    GotoTwice(s, p, Locked(update), read);
  }

  lemma WriteThenRelease(metadata: string -> string, s: Sys, p: nat, update: State, before: State)
    requires p in s.procs && s.procs[p].pc == HaveRead(update, before)
    ensures Run(metadata, s, [Write(p)] + [Release(p)])
         == Some(Goto(s, p, Ready).(
                   lock := None, file := Some(Stringify(before + update)), commits := s.commits + [update]))
  {
    OneStep(metadata, s, Write(p));
    ThenStep(metadata, s, [Write(p)], Release(p));
    GotoTwice(s, p, Written(false), Ready);
  }

  /** A locked section that no other process interrupts is one atomic commit. */
  lemma UninterruptedSection(metadata: string -> string, s: Sys, p: nat, update: State)
    requires p in s.procs && s.procs[p].pc == Waiting(update) && s.lock.None? && s.file.Some?
    ensures Run(metadata, s, LockedSection(p))
         == Some(Goto(s, p, Ready).(
                   file := Some(Commit(s.procs[p].defaults, s.file.value, update)), commits := s.commits + [update]))
  {
    var before := Merge(s.procs[p].defaults, s.file.value);
    var mid := Goto(s, p, HaveRead(update, before)).(lock := Some(p));
    AcquireThenRead(metadata, s, p, update);
    WriteThenRelease(metadata, mid, p, update, before);
    GotoTwice(s, p, HaveRead(update, before), Ready);
    RunConcat(metadata, s, [Acquire(p)] + [ReadOld(p)], [Write(p)] + [Release(p)]);
    assert LockedSection(p) == ([Acquire(p)] + [ReadOld(p)]) + ([Write(p)] + [Release(p)]);
  }

  lemma UpdateLostByLateCreation(metadata: string -> string, pids: set<nat>, a: nat, b: nat, update: State)
    requires a in pids && b in pids && a != b && MetadataCache !in update
    ensures var r := Run(metadata, Initial(None, pids), LosingRun(a, b, update));
            r.Some? && r.value.commits == [update] && r.value.file == Some(Stringify(DEFAULT_STATE))
  {
    var s := Initial(None, pids);
    var boot := [CheckFile(a)];
    OneStep(metadata, s, CheckFile(a));
    ThenStep(metadata, s, boot, CheckFile(b));
    boot := boot + [CheckFile(b)];
    ThenStep(metadata, s, boot, CreateFile(b));
    boot := boot + [CreateFile(b)];
    ThenStep(metadata, s, boot, StartUpdate(b, update));
    boot := boot + [StartUpdate(b, update)];
    UninterruptedSection(metadata, Run(metadata, s, boot).value, b, update);
    RunConcat(metadata, s, boot, LockedSection(b));
    ThenStep(metadata, s, boot + LockedSection(b), CreateFile(a));
  }

  /** The exact condition for "no update is ever lost": the state file was already there, or
      there is at most one process to create it. */
  lemma UpdatesNeverLostIff(metadata: string -> string, file: Option<State>, pids: set<nat>)
    requires file.Some? ==> IsJson(file.value)
    ensures (forall acts :: Run(metadata, Initial(file, pids), acts).Some?
                        ==> NothingLost(Run(metadata, Initial(file, pids), acts).value, InitialView(file)))
       <==> (file.Some? || forall a, b :: a in pids && b in pids ==> a == b)
  {
    var s := Initial(file, pids);
    if file.Some? || forall a, b :: a in pids && b in pids ==> a == b {
      forall acts | Run(metadata, s, acts).Some?
        ensures NothingLost(Run(metadata, s, acts).value, InitialView(file))
      {
        RunKeepsSerial(metadata, s, acts, InitialView(file));
      }
    } else {
      var a, b :| a in pids && b in pids && a != b;
      var update: State := map[ApiUri := Text("ws://node")];
      UpdateLostByLateCreation(metadata, pids, a, b, update);
      var t := Run(metadata, s, LosingRun(a, b, update)).value;
      assert LastWrite(DEFAULT_STATE, t.commits, ApiUri) == Text("ws://node");
      assert !NothingLost(t, InitialView(file));
    }
  }

  // ---------------------------------------------------------------- the metadata cache

  ghost predicate TrueEntries(metadata: string -> string, cache: map<string, string>) {
    forall key :: key in cache ==> cache[key] == metadata(key)
  }

  /** Every cache entry in a state object is the metadata of its own key. */
  ghost predicate TrueCache(metadata: string -> string, s: State) {
    Look(s, MetadataCache).Record? ==> TrueEntries(metadata, Look(s, MetadataCache).entries)
  }

  ghost predicate TrueProcess(metadata: string -> string, me: Process) {
    && TrueCache(metadata, me.defaults)
    && (me.pc.CacheLoaded? ==> TrueEntries(metadata, me.pc.cache))
    && (me.pc.Waiting? || me.pc.Locked? || me.pc.HaveRead? ==> TrueCache(metadata, me.pc.update))
    && (me.pc.HaveRead? ==> TrueCache(metadata, me.pc.before))
  }

  ghost predicate TrueSys(metadata: string -> string, s: Sys) {
    && (s.file.Some? ==> TrueCache(metadata, s.file.value))
    && forall p :: p in s.procs ==> TrueProcess(metadata, s.procs[p])
  }

  lemma StepKeepsTrue(metadata: string -> string, s: Sys, a: Action)
    requires TrueSys(metadata, s) && Step(metadata, s, a).Some?
    ensures TrueSys(metadata, Step(metadata, s, a).value)
  {
    var t := Step(metadata, s, a).value;
    assert TrueProcess(metadata, s.procs[a.p]);
    assert TrueProcess(metadata, t.procs[a.p]);
    assert forall q :: q in t.procs && q != a.p ==> t.procs[q] == s.procs[q];
  }

  lemma {:induction false} RunKeepsTrue(metadata: string -> string, s: Sys, acts: seq<Action>)
    requires TrueSys(metadata, s) && Run(metadata, s, acts).Some?
    ensures TrueSys(metadata, Run(metadata, s, acts).value)
    decreases |acts|
  {
    if acts == [] {
    } else {
      StepKeepsTrue(metadata, s, acts[0]);
      RunKeepsTrue(metadata, Step(metadata, s, acts[0]).value, acts[1..]);
    }
  }

  /** In every run of any number of processes, boot races included, each entry of the cache on
      disk is the metadata of its own key. */
  lemma CacheEntriesStayTrue(metadata: string -> string, file: Option<State>, pids: set<nat>, acts: seq<Action>)
    requires file.Some? ==> TrueCache(metadata, file.value)
    requires Run(metadata, Initial(file, pids), acts).Some?
    ensures var s := Run(metadata, Initial(file, pids), acts).value;
            s.file.Some? ==> TrueCache(metadata, s.file.value)
  {
    RunKeepsTrue(metadata, Initial(file, pids), acts);
  }

  // ---------------------------------------------------------------- no cache entry is lost

  /** The cache entries a file holds. */
  function EntriesIn(file: Option<State>): map<string, string> {
    if file.Some? && Look(file.value, MetadataCache).Record? then Look(file.value, MetadataCache).entries else map[]
  }

  ghost predicate Kept(before: map<string, string>, after: map<string, string>) {
    forall key :: key in before ==> key in after && after[key] == before[key]
  }

  /** The cache a reader gets: the file's, or the default when the file lacks the field. */
  function MergedCache(content: State): Value {
    Look(Merge(DEFAULT_STATE, content), MetadataCache)
  }

  /** What a process is about to write over the cache contains all of the file's entries. */
  ghost predicate HoldsAll(me: Process, file: Option<State>) {
    && (me.pc.CacheLoaded? ==> Kept(EntriesIn(file), me.pc.cache))
    && ((me.pc.Waiting? || me.pc.Locked? || me.pc.HaveRead?) && MetadataCache in me.pc.update ==>
          me.pc.update[MetadataCache].Record? && Kept(EntriesIn(file), me.pc.update[MetadataCache].entries))
    && (me.pc.HaveRead? ==> file.Some? && me.pc.before == Merge(me.defaults, file.value))
    && (me.pc.Creating? ==> file.None?)
  }

  ghost predicate Lonely(s: Sys) {
    && (forall p, q :: p in s.procs && q in s.procs ==> p == q)
    && (forall p :: p in s.procs ==> HoldsAll(s.procs[p], s.file))
  }

  lemma LonelyKeeps(metadata: string -> string, s: Sys, a: Action)
    requires Lonely(s) && Step(metadata, s, a).Some?
    ensures var t := Step(metadata, s, a).value; Lonely(t) && Kept(EntriesIn(s.file), EntriesIn(t.file))
  {
    var t := Step(metadata, s, a).value;
    assert HoldsAll(s.procs[a.p], s.file);
    assert t.procs.Keys == s.procs.Keys;
    if a.Write? {
      assert t.file.value == Stringify(s.procs[a.p].pc.before + s.procs[a.p].pc.update);
    }
    assert HoldsAll(t.procs[a.p], t.file);
  }

  /** The cache field holds something that is not a record, so no process fills it. */
  ghost predicate NeverACache(s: Sys) {
    && s.file.Some? && MetadataCache in s.file.value
    && !s.file.value[MetadataCache].Record? && s.file.value[MetadataCache] != Undefined
    && forall p :: p in s.procs ==>
         var me := s.procs[p];
         && !me.pc.CacheLoaded? && !me.pc.Creating?
         && (me.pc.Waiting? || me.pc.Locked? || me.pc.HaveRead? ==> MetadataCache !in me.pc.update)
         && (me.pc.HaveRead? ==> Look(me.pc.before, MetadataCache) == s.file.value[MetadataCache])
  }

  lemma NeverACacheKeeps(metadata: string -> string, s: Sys, a: Action)
    requires NeverACache(s) && Step(metadata, s, a).Some?
    ensures var t := Step(metadata, s, a).value;
            NeverACache(t) && Look(t.file.value, MetadataCache) == Look(s.file.value, MetadataCache)
  {
  }

  lemma {:induction false} RunKeepsEntries(metadata: string -> string, s: Sys, acts: seq<Action>)
    requires Lonely(s) || NeverACache(s)
    requires Run(metadata, s, acts).Some?
    ensures var t := Run(metadata, s, acts).value;
            (Lonely(t) || NeverACache(t)) && Kept(EntriesIn(s.file), EntriesIn(t.file))
    decreases |acts|
  {
    if acts == [] {
    } else {
      if Lonely(s) {
        LonelyKeeps(metadata, s, acts[0]);
      } else {
        NeverACacheKeeps(metadata, s, acts[0]);
      }
      RunKeepsEntries(metadata, Step(metadata, s, acts[0]).value, acts[1..]);
    }
  }

  /** Both processes read the cache before either writes its own entry back. */
  function BothLoad(a: nat, b: nat): seq<Action> {
    [CheckFile(a)] + [CheckFile(b)] + [LoadCache(a)] + [LoadCache(b)]
  }

  function RacingFills(a: nat, b: nat, k: string): seq<Action> {
    BothLoad(a, b) + ([FillCache(a, k)] + LockedSection(a))
  }

  /** The whole-record write back drops the entry another process committed in between, also
      when the file had no cache and each process had aliased its own defaults. */
  lemma CacheEntryOverwritten(
      metadata: string -> string, content: State, pids: set<nat>, a: nat, b: nat, k: string, l: string)
    requires a in pids && b in pids && a != b && k != l
    requires IsJson(content) && MergedCache(content).Record?
    requires k !in MergedCache(content).entries && l !in MergedCache(content).entries
    ensures var cache := MergedCache(content).entries;
            var first := Run(metadata, Initial(Some(content), pids), RacingFills(a, b, k));
            && first.Some? && EntriesIn(first.value.file) == cache[k := metadata(k)]
            && var both := Run(metadata, first.value, [FillCache(b, l)] + LockedSection(b));
            && both.Some? && EntriesIn(both.value.file) == cache[l := metadata(l)]
  {
    var s := Initial(Some(content), pids);
    var cache := MergedCache(content).entries;
    var loaded := BothLoaded(metadata, content, pids, a, b);
    FillAndCommit(metadata, loaded, a, k);
    RunConcat(metadata, s, BothLoad(a, b), [FillCache(a, k)] + LockedSection(a));
    var first := Run(metadata, s, RacingFills(a, b, k)).value;
    assert first.procs[b].pc == loaded.procs[b].pc;
    FillAndCommit(metadata, first, b, l);
  }

  lemma BothLoaded(metadata: string -> string, content: State, pids: set<nat>, a: nat, b: nat) returns (loaded: Sys)
    requires a in pids && b in pids && a != b && MergedCache(content).Record?
    ensures Run(metadata, Initial(Some(content), pids), BothLoad(a, b)) == Some(loaded)
    ensures loaded.file == Some(content) && loaded.lock.None? && a in loaded.procs && b in loaded.procs
    ensures loaded.procs[a].pc.CacheLoaded? && loaded.procs[a].pc.cache == MergedCache(content).entries
    ensures loaded.procs[b].pc == loaded.procs[a].pc
  {
    var s := Initial(Some(content), pids);
    var acts := [CheckFile(a)];
    OneStep(metadata, s, CheckFile(a));
    ThenStep(metadata, s, acts, CheckFile(b));
    acts := acts + [CheckFile(b)];
    ThenStep(metadata, s, acts, LoadCache(a));
    acts := acts + [LoadCache(a)];
    ThenStep(metadata, s, acts, LoadCache(b));
    loaded := Run(metadata, s, acts + [LoadCache(b)]).value;
  }

  /** Fill the loaded cache and write it back with nobody in between. */
  lemma FillAndCommit(metadata: string -> string, s: Sys, p: nat, key: string)
    requires p in s.procs && s.lock.None? && s.file.Some?
    requires s.procs[p].pc.CacheLoaded? && key !in s.procs[p].pc.cache
    ensures var r := Run(metadata, s, [FillCache(p, key)] + LockedSection(p));
            && r.Some? && r.value.file.Some? && r.value.lock.None? && r.value.procs.Keys == s.procs.Keys
            && EntriesIn(r.value.file) == s.procs[p].pc.cache[key := metadata(key)]
            && forall q :: q in s.procs && q != p ==> r.value.procs[q] == s.procs[q]
  {
    OneStep(metadata, s, FillCache(p, key));
    var filled := Step(metadata, s, FillCache(p, key)).value;
    UninterruptedSection(metadata, filled, p, filled.procs[p].pc.update);
    RunConcat(metadata, s, [FillCache(p, key)], LockedSection(p));
  }

  /** Without a file: `b` creates it and commits an entry, then `a` creates it again. */
  function LateCreation(a: nat, b: nat): seq<Action> {
    [CheckFile(a)] + [CheckFile(b)] + [CreateFile(b)] + [LoadCache(b)]
  }

  lemma OnlyOneCreated(metadata: string -> string, pids: set<nat>, a: nat, b: nat) returns (loaded: Sys)
    requires a in pids && b in pids && a != b
    ensures Run(metadata, Initial(None, pids), LateCreation(a, b)) == Some(loaded)
    ensures loaded.file.Some? && loaded.lock.None? && a in loaded.procs && b in loaded.procs
    ensures loaded.procs[a] == Process(Creating, DEFAULT_STATE)
    ensures loaded.procs[b].pc.CacheLoaded? && loaded.procs[b].pc.cache == map[]
  {
    var s := Initial(None, pids);
    var acts := [CheckFile(a)];
    OneStep(metadata, s, CheckFile(a));
    ThenStep(metadata, s, acts, CheckFile(b));
    acts := acts + [CheckFile(b)];
    ThenStep(metadata, s, acts, CreateFile(b));
    acts := acts + [CreateFile(b)];
    ThenStep(metadata, s, acts, LoadCache(b));
    loaded := Run(metadata, s, acts + [LoadCache(b)]).value;
  }

  lemma EntryLostByLateCreation(metadata: string -> string, pids: set<nat>, a: nat, b: nat, k: string)
    requires a in pids && b in pids && a != b
    ensures var acts := LateCreation(a, b) + ([FillCache(b, k)] + LockedSection(b));
            var first := Run(metadata, Initial(None, pids), acts);
            && first.Some? && EntriesIn(first.value.file) == map[k := metadata(k)]
            && var both := Run(metadata, first.value, [CreateFile(a)]);
            && both.Some? && EntriesIn(both.value.file) == map[]
  {
    var s := Initial(None, pids);
    var loaded := OnlyOneCreated(metadata, pids, a, b);
    FillAndCommit(metadata, loaded, b, k);
    RunConcat(metadata, s, LateCreation(a, b), [FillCache(b, k)] + LockedSection(b));
    var first := Run(metadata, s, LateCreation(a, b) + ([FillCache(b, k)] + LockedSection(b))).value;
    assert first.procs[a] == loaded.procs[a];
    OneStep(metadata, first, CreateFile(a));
  }

  /** Longer than every key: there is always a chain whose metadata nobody has cached. */
  lemma {:induction false} UnusedLength(keys: set<string>) returns (n: nat)
    ensures forall key :: key in keys ==> |key| < n
    decreases |keys|
  {
    if keys == {} {
      n := 0;
    } else {
      var key :| key in keys;
      n := UnusedLength(keys - {key});
      n := if |key| < n then n else |key| + 1;
    }
  }

  /** From this start, an entry that is on disk at some point of a run is there ever after. */
  ghost predicate EntriesNeverLost(metadata: string -> string, file: Option<State>, pids: set<nat>) {
    forall s, acts, more ::
      Run(metadata, Initial(file, pids), acts) == Some(s) && Run(metadata, s, more).Some? ==>
        Kept(EntriesIn(s.file), EntriesIn(Run(metadata, s, more).value.file))
  }

  /** The exact condition for "no cache entry is ever lost": there is at most one process, or
      the file is there with something that is not a cache, which nobody then writes. */
  lemma EntriesNeverLostIff(metadata: string -> string, file: Option<State>, pids: set<nat>)
    requires file.Some? ==> IsJson(file.value)
    ensures EntriesNeverLost(metadata, file, pids) <==>
              || (forall a, b :: a in pids && b in pids ==> a == b)
              || (file.Some? && !MergedCache(file.value).Record?)
  {
    var start := Initial(file, pids);
    if (forall a, b :: a in pids && b in pids ==> a == b) || (file.Some? && !MergedCache(file.value).Record?) {
      assert Lonely(start) || NeverACache(start);
      forall s, acts, more | Run(metadata, start, acts) == Some(s) && Run(metadata, s, more).Some?
        ensures Kept(EntriesIn(s.file), EntriesIn(Run(metadata, s, more).value.file))
      {
        RunKeepsEntries(metadata, start, acts);
        RunKeepsEntries(metadata, s, more);
      }
    } else {
      var a, b :| a in pids && b in pids && a != b;
      AnEntryIsLost(metadata, file, pids, a, b);
    }
  }

  lemma AnEntryIsLost(metadata: string -> string, file: Option<State>, pids: set<nat>, a: nat, b: nat)
    requires file.Some? ==> IsJson(file.value) && MergedCache(file.value).Record?
    requires a in pids && b in pids && a != b
    ensures !EntriesNeverLost(metadata, file, pids)
  {
    if file.None? {
      EntryLostByLateCreation(metadata, pids, a, b, "");
      var acts := LateCreation(a, b) + ([FillCache(b, "")] + LockedSection(b));
      LostOnTheWay(metadata, file, pids, acts, [CreateFile(a)], "");
    } else {
      var n := UnusedLength(MergedCache(file.value).entries.Keys);
      var k, l: string := seq(n, i => 'x'), seq(n + 1, i => 'x');
      assert |k| != |l|;
      CacheEntryOverwritten(metadata, file.value, pids, a, b, k, l);
      LostOnTheWay(metadata, file, pids, RacingFills(a, b, k), [FillCache(b, l)] + LockedSection(b), k);
    }
  }

  lemma LostOnTheWay(
      metadata: string -> string, file: Option<State>, pids: set<nat>,
      acts: seq<Action>, more: seq<Action>, key: string)
    requires Run(metadata, Initial(file, pids), acts).Some?
    requires var s := Run(metadata, Initial(file, pids), acts).value;
             && key in EntriesIn(s.file)
             && Run(metadata, s, more).Some? && key !in EntriesIn(Run(metadata, s, more).value.file)
    ensures !EntriesNeverLost(metadata, file, pids)
  {
    var s := Run(metadata, Initial(file, pids), acts).value;
    assert !Kept(EntriesIn(s.file), EntriesIn(Run(metadata, s, more).value.file));
  }

  // ---------------------------------------------------------------- one process, as written

  datatype StateError = LockError | ReadError | WriteError

  /** The state file and its lock as one command object sees them. */
  class StateFile {
    var content: Option<State>
    var locked: bool

    /** What is on disk is JSON, so it holds no undefined property. */
    ghost predicate Valid()
      reads this
    {
      content.Some? ==> IsJson(content.value)
    }

    constructor (content: Option<State>)
      requires content.Some? ==> IsJson(content.value)
      ensures Valid() && this.content == content && !locked
    {
      this.content := content;
      locked := false;
    }

    /** `initStateFs`: afterwards there is a file, and it reads as it did before, a missing one as
        the defaults although JSON drops the undefined ones. */
    method InitStateFs()
      requires Valid()
      modifies this`content
      ensures Valid()
      ensures old(content).Some? ==> content == old(content)
      ensures content.Some? && Merge(DEFAULT_STATE, content.value) == InitialView(old(content))
    {
      if content.None? {
        content := Some(Stringify(DEFAULT_STATE));
      }
    }

    method GetPreservedState(readFails: bool) returns (r: Result<State, StateError>)
      ensures r.Ok? <==> content.Some? && !readFails
      ensures r.Ok? ==> r.value == Merge(DEFAULT_STATE, content.value)
      ensures r.Err? ==> r.error == ReadError
    {
      if readFails || content.None? {
        return Err(ReadError);
      }
      return Ok(Merge(DEFAULT_STATE, content.value));
    }

    /** The lock cannot be taken when it is held or there is no file; it is given back on
        success and when the write fails; a read that throws keeps it. */
    method SetPreservedState(update: State, readFails: bool, writeFails: bool) returns (r: Result<(), StateError>)
      requires Valid()
      modifies this
      ensures Valid()
      ensures old(locked) || old(content).None? ==>
                r == Err(LockError) && content == old(content) && locked == old(locked)
      ensures !old(locked) && old(content).Some? && readFails ==>
                r == Err(ReadError) && content == old(content) && locked
      ensures !old(locked) && old(content).Some? && !readFails && writeFails ==>
                r == Err(WriteError) && content == old(content) && !locked
      ensures !old(locked) && old(content).Some? && !readFails && !writeFails ==> r.Ok? && !locked
      ensures r.Ok? ==>
                && old(content).Some? && content.Some?
                && forall f :: Look(Merge(DEFAULT_STATE, content.value), f)
                            == LastWrite(Merge(DEFAULT_STATE, old(content).value), [update], f)
    {
      if locked || content.None? {
        return Err(LockError);
      }
      locked := true;
      var read := GetPreservedState(readFails);
      if read.Err? {
        return Err(read.error);
      }
      var newState := read.value + update;
      if writeFails {
        locked := false;
        return Err(WriteError);
      }
      forall f
        ensures Look(Merge(DEFAULT_STATE, Stringify(newState)), f)
             == LastWrite(Merge(DEFAULT_STATE, content.value), [update], f)
      {
        CommitReadsBack(DEFAULT_STATE, content.value, update, f);
      }
      content := Some(Stringify(newState));
      locked := false;
      return Ok(());
    }
  }
}
