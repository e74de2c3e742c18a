/**
 The authorization store of the remote API (`update_policy_store`,
 `save_policy_store_unlocked` and `load_policy_store` in `src/remote_api.rs`) as a
 state machine: any number of processes, each stopping anywhere, share one file
 and one exclusive lock.
 */
module PolicyStore {
  import opened Wrappers
  import opened ClientPolicies

  type Store = map<string, Policy>

  // ---- what one update does to the store ----------------------------------------------------

  datatype Update =
    | Create(id: string)
    | Change(client: string, op: Op)
    | GrantAccounts(grantee: string, accounts: seq<string>)
    | Revoke(revoked: string)

  datatype Refusal = ClientNotFound | Refused(failure: Failure)

  function GrantAll(p: Policy, accounts: seq<string>): Policy {
    if |accounts| == 0 then p
    else GrantStatus(GrantAll(p, accounts[..|accounts| - 1]), accounts[|accounts| - 1])
  }

  /** The closure each operation hands to `update_policy_store`. */
  function Perform(store: Store, u: Update): Result<Store, Refusal> {
    match u
    case Create(id) => Ok(store[id := FRESH])
    case Change(id, op) =>
      if id !in store then Err(ClientNotFound)
      else (match Attempt(store[id], op)
        case Ok(p) => Ok(store[id := p])
        case Err(e) => Err(Refused(e)))
    case GrantAccounts(id, accounts) =>
      if id !in store then Err(ClientNotFound) else Ok(store[id := GrantAll(store[id], accounts)])
    case Revoke(id) =>
      if id !in store then Err(ClientNotFound) else Ok(store - {id})
  }

  /** The meaning of a history: the updates, one after the other, each of which must succeed. */
  function Serial(initial: Store, updates: seq<Update>): Result<Store, Refusal> {
    if |updates| == 0 then Ok(initial)
    else
      match Serial(initial, updates[..|updates| - 1])
      case Ok(store) => Perform(store, updates[|updates| - 1])
      case Err(e) => Err(e)
  }

  // ---- processes, the lock and the files -----------------------------------------------------

  type Pid = nat

  /** A file written only in part is `Torn`. */
  datatype Content = Whole(store: Store) | Torn

  datatype Stage =
    | Waiting // the lock file is open, the lock is not held
    | Locked
    | Loaded(snapshot: Store)
    | Updated(changed: Store)
    | Written(unsaved: Store) // the temporary file is complete
    | Saved // renamed, the lock not yet released

  datatype Process = Process(update: Update, stage: Stage)

  datatype Commit = Commit(turn: nat, update: Update)

  /** What a reader got, and how many updates had been committed by then. */
  datatype Sighting = Sighting(commits: nat, result: Option<Store>)

  datatype State = State(
    file: Option<Content>, // clients.json
    temporary: map<Pid, Content>, // clients.<pid>.tmp
    holder: Option<Pid>,
    processes: map<Pid, Process>,
    turns: seq<Update>, // history: the updates in the order they took the lock
    commits: seq<Commit>, // history: the renames, with the turn each belongs to
    sightings: seq<Sighting>) // history: what readers were given

  function Start(file: Option<Content>, temporary: map<Pid, Content>): State {
    State(file, temporary, None, map[], [], [], [])
  }

  /** `None` is a parse error; a missing file is the empty store. */
  function Load(file: Option<Content>): Option<Store> {
    match file
    case None => Some(map[])
    case Some(Whole(store)) => Some(store)
    case Some(Torn) => None
  }

  datatype Action =
    | Begin(pid: Pid, update: Update)
    | Acquire(pid: Pid)
    | LoadStore(pid: Pid)
    | ApplyUpdate(pid: Pid)
    | WriteTemporary(pid: Pid)
    | Rename(pid: Pid)
    | Stop(pid: Pid, leftover: Option<Content>) // crash, error or return; what is left of its temporary file
    | Read

  function Unlocked(holder: Option<Pid>, pid: Pid): Option<Pid> {
    if holder == Some(pid) then None else holder
  }

  function At(s: State, pid: Pid, stage: Stage): State
    requires pid in s.processes
  {
    s.(processes := s.processes[pid := s.processes[pid].(stage := stage)])
  }

  /** The process is gone: its lock is released, and nothing else is undone. */
  function Gone(s: State, pid: Pid): State {
    s.(processes := s.processes - {pid}, holder := Unlocked(s.holder, pid))
  }

  /** One step, or `None` where it cannot be taken. */
  function Step(s: State, a: Action): Option<State> {
    match a
    case Read =>
      Some(s.(sightings := s.sightings + [Sighting(|s.commits|, Load(s.file))]))
    case Begin(pid, update) =>
      if pid in s.processes then None
      else Some(s.(processes := s.processes[pid := Process(update, Waiting)]))
    case Stop(pid, leftover) =>
      if pid !in s.processes then None
      else
        var gone := Gone(s, pid);
        (match s.processes[pid].stage
        case Updated(_) =>
          // the file is created anew, so one left by an earlier process stays as it is
          if pid in s.temporary || leftover.None? then Some(gone)
          else Some(gone.(temporary := s.temporary[pid := leftover.value]))
        case Written(_) =>
          Some(gone.(temporary := if leftover.None? then s.temporary - {pid} else s.temporary[pid := leftover.value]))
        case _ => Some(gone))
    case Acquire(pid) =>
      if pid !in s.processes || s.processes[pid].stage != Waiting || s.holder != None then None
      else Some(At(s, pid, Locked).(holder := Some(pid), turns := s.turns + [s.processes[pid].update]))
    case LoadStore(pid) =>
      if pid !in s.processes || s.processes[pid].stage != Locked then None
      else if Load(s.file).None? then Some(Gone(s, pid))
      else Some(At(s, pid, Loaded(Load(s.file).value)))
    case ApplyUpdate(pid) =>
      if pid !in s.processes || !s.processes[pid].stage.Loaded? then None
      else (match Perform(s.processes[pid].stage.snapshot, s.processes[pid].update)
        case Err(_) => Some(Gone(s, pid))
        case Ok(changed) => Some(At(s, pid, Updated(changed))))
    case WriteTemporary(pid) =>
      if pid !in s.processes || !s.processes[pid].stage.Updated? || pid in s.temporary then None
      else
        var store := s.processes[pid].stage.changed;
        Some(At(s, pid, Written(store)).(temporary := s.temporary[pid := Whole(store)]))
    case Rename(pid) =>
      if pid !in s.processes || !s.processes[pid].stage.Written? || pid !in s.temporary || |s.turns| == 0 then None
      else
        Some(At(s, pid, Saved).(
        file := Some(s.temporary[pid]),
        temporary := s.temporary - {pid},
        commits := s.commits + [Commit(|s.turns| - 1, s.processes[pid].update)]))
  }

  function Run(s: State, actions: seq<Action>): Option<State> {
    if |actions| == 0 then Some(s)
    else
      match Run(s, actions[..|actions| - 1])
      case Some(t) => Step(t, actions[|actions| - 1])
      case None => None
  }

  // ---- the invariant ---------------------------------------------------------------------------

  ghost function Updates(commits: seq<Commit>): seq<Update> {
    seq(|commits|, i requires 0 <= i < |commits| => commits[i].update)
  }

  /** The store after the first `n` commits. */
  ghost function CommittedStore(initial: Store, s: State, n: nat): Result<Store, Refusal>
    requires n <= |s.commits|
  {
    Serial(initial, Updates(s.commits[..n]))
  }

  /** Commits happen in lock order, at most one a turn. */
  ghost predicate InLockOrder(s: State) {
    && (forall i :: 0 <= i < |s.commits| ==>
                      s.commits[i].turn < |s.turns| && s.commits[i].update == s.turns[s.commits[i].turn])
    && (forall i, j :: 0 <= i < j < |s.commits| ==> s.commits[i].turn < s.commits[j].turn)
  }

  /** The file is whole, and holds the committed updates applied one after the other. */
  ghost predicate FileIsSerial(initial: Store, s: State) {
    && Load(s.file).Some?
    && CommittedStore(initial, s, |s.commits|) == Ok(Load(s.file).value)
  }

  ghost predicate SightingsAreCommitted(initial: Store, s: State) {
    && (forall i :: 0 <= i < |s.sightings| ==>
                      && s.sightings[i].commits <= |s.commits|
                      && s.sightings[i].result.Some?
                      && CommittedStore(initial, s, s.sightings[i].commits) == Ok(s.sightings[i].result.value))
    && (forall i, j :: 0 <= i < j < |s.sightings| ==> s.sightings[i].commits <= s.sightings[j].commits)
  }

  /** Everyone past the lock holds it, and what the holder computed is about the file as it is now. */
  ghost predicate HolderIsCurrent(s: State) {
    && (s.holder.Some? ==> s.holder.value in s.processes)
    && (forall pid :: pid in s.processes ==> (s.processes[pid].stage == Waiting <==> s.holder != Some(pid)))
    && (s.holder.Some? ==>
          var p := s.processes[s.holder.value];
          && |s.turns| > 0 && s.turns[|s.turns| - 1] == p.update
          && (p.stage != Saved && |s.commits| > 0 ==> s.commits[|s.commits| - 1].turn < |s.turns| - 1)
          && (p.stage.Loaded? ==> Load(s.file) == Some(p.stage.snapshot))
          && (p.stage.Updated? ==> Load(s.file).Some? && Perform(Load(s.file).value, p.update) == Ok(p.stage.changed))
          && (p.stage.Written? ==>
                && Load(s.file).Some? && Perform(Load(s.file).value, p.update) == Ok(p.stage.unsaved)
                && s.holder.value in s.temporary && s.temporary[s.holder.value] == Whole(p.stage.unsaved)))
  }

  ghost predicate Inv(initial: Store, s: State) {
    FileIsSerial(initial, s) && SightingsAreCommitted(initial, s) && InLockOrder(s) && HolderIsCurrent(s)
  }

  lemma StepKeepsHolder(initial: Store, s: State, a: Action)
    requires Inv(initial, s) && Step(s, a).Some?
    ensures HolderIsCurrent(Step(s, a).value)
  {
    hide Perform, Serial, FileIsSerial, SightingsAreCommitted;
    if a.Stop? { StopKeepsHolder(s, a.pid, a.leftover); }
  }

  lemma StopKeepsHolder(s: State, pid: Pid, leftover: Option<Content>)
    requires HolderIsCurrent(s) && Step(s, Stop(pid, leftover)).Some?
    ensures HolderIsCurrent(Step(s, Stop(pid, leftover)).value)
  {
    hide Perform;
    var t := Step(s, Stop(pid, leftover)).value;
    assert t.processes == s.processes - {pid} && t.holder == Unlocked(s.holder, pid);
    assert t.file == s.file && t.commits == s.commits && t.turns == s.turns;
    assert forall other :: other != pid && other in s.temporary ==>
                             other in t.temporary && t.temporary[other] == s.temporary[other];
  }

  lemma StepKeepsOrder(initial: Store, s: State, a: Action)
    requires Inv(initial, s) && Step(s, a).Some?
    ensures InLockOrder(Step(s, a).value)
  {
    hide Perform, Serial, FileIsSerial, SightingsAreCommitted, Load;
    var t := Step(s, a).value;
    if a.Rename? { assert s.holder == Some(a.pid); }
    assert s.turns <= t.turns;
  }

  /** Later commits do not change what an earlier prefix of them meant. */
  lemma PrefixIsStable(initial: Store, s: State, t: State, n: nat)
    requires n <= |s.commits| && s.commits <= t.commits
    ensures CommittedStore(initial, s, n) == CommittedStore(initial, t, n)
  {
    assert s.commits[..n] == t.commits[..n];
  }

  lemma StepKeepsFile(initial: Store, s: State, a: Action)
    requires Inv(initial, s) && Step(s, a).Some?
    ensures FileIsSerial(initial, Step(s, a).value) && s.commits <= Step(s, a).value.commits
  {
    hide Perform;
    var t := Step(s, a).value;
    if a.Rename? {
      var p := s.processes[a.pid];
      assert s.holder == Some(a.pid);
      assert s.commits[..|s.commits|] == s.commits && t.commits[..|t.commits|] == t.commits;
      assert Updates(t.commits) == Updates(s.commits) + [p.update];
      assert Updates(t.commits)[..|s.commits|] == Updates(s.commits);
    }
  }

  lemma StepKeepsSightings(initial: Store, s: State, a: Action)
    requires Inv(initial, s) && Step(s, a).Some?
    ensures SightingsAreCommitted(initial, Step(s, a).value)
  {
    hide Perform, Serial;
    var t := Step(s, a).value;
    StepKeepsFile(initial, s, a);
    forall i | 0 <= i < |t.sightings|
      ensures && t.sightings[i].commits <= |t.commits| && t.sightings[i].result.Some?
              && CommittedStore(initial, t, t.sightings[i].commits) == Ok(t.sightings[i].result.value)
    {
      if i < |s.sightings| { PrefixIsStable(initial, s, t, s.sightings[i].commits); }
    }
  }

  lemma StepKeepsInv(initial: Store, s: State, a: Action)
    requires Inv(initial, s) && Step(s, a).Some?
    ensures Inv(initial, Step(s, a).value)
  {
    hide HolderIsCurrent, InLockOrder, FileIsSerial, SightingsAreCommitted, Step;
    StepKeepsHolder(initial, s, a);
    StepKeepsOrder(initial, s, a);
    StepKeepsFile(initial, s, a);
    StepKeepsSightings(initial, s, a);
  }

  /**
   Linearizability: in every interleaving of any number of processes, with any of
   them stopping between any two steps, the file is the committed updates applied one
   after the other in lock order, and every reader was given such a store, whole, none
   older than one an earlier reader saw.
   */
  lemma {:induction false} RunKeepsInv(file: Option<Content>, temporary: map<Pid, Content>, actions: seq<Action>)
    requires Load(file).Some? && Run(Start(file, temporary), actions).Some?
    ensures Inv(Load(file).value, Run(Start(file, temporary), actions).value)
  {
    if |actions| > 0 {
      RunKeepsInv(file, temporary, actions[..|actions| - 1]);
      var s := Run(Start(file, temporary), actions[..|actions| - 1]).value;
      StepKeepsInv(Load(file).value, s, actions[|actions| - 1]);
    }
  }

  // ---- revocation is final -----------------------------------------------------------------------

  /** After a revocation of `id`, and no later creation of it, no update brings it back. */
  lemma {:induction false} NothingBringsBack(initial: Store, updates: seq<Update>, k: nat, id: string)
    requires k < |updates| && updates[k] == Revoke(id)
    requires forall i :: k < i < |updates| ==> updates[i] != Create(id)
    requires Serial(initial, updates).Ok?
    ensures id !in Serial(initial, updates).value
  {
    if k < |updates| - 1 {
      var before := updates[..|updates| - 1];
      NothingBringsBack(initial, before, k, id);
      assert updates[|updates| - 1] != Create(id);
    }
  }

  /**
   Once the revocation of a client is committed, the client is absent from the file
   and from every later sighting, whatever any process loaded or was about to write
   before, as long as the same id is not created again.
   */
  lemma RevocationIsFinal(
    file: Option<Content>, temporary: map<Pid, Content>, actions: seq<Action>, k: nat, id: string)
    requires Load(file).Some? && Run(Start(file, temporary), actions).Some?
    requires var s := Run(Start(file, temporary), actions).value;
             && k < |s.commits| && s.commits[k].update == Revoke(id)
             && forall i :: k < i < |s.commits| ==> s.commits[i].update != Create(id)
    ensures var s := Run(Start(file, temporary), actions).value;
            && Load(s.file).Some? && id !in Load(s.file).value
            && forall i :: 0 <= i < |s.sightings| && s.sightings[i].commits > k ==>
                             s.sightings[i].result.Some? && id !in s.sightings[i].result.value
  {
    hide Step, Perform;
    var initial := Load(file).value;
    RunKeepsInv(file, temporary, actions);
    var s := Run(Start(file, temporary), actions).value;
    RevokedFrom(initial, s, k, id, |s.commits|);
    forall i | 0 <= i < |s.sightings| && s.sightings[i].commits > k
      ensures s.sightings[i].result.Some? && id !in s.sightings[i].result.value
    {
      RevokedFrom(initial, s, k, id, s.sightings[i].commits);
    }
  }

  lemma RevokedFrom(initial: Store, s: State, k: nat, id: string, n: nat)
    requires k < n <= |s.commits| && s.commits[k].update == Revoke(id)
    requires forall i :: k < i < |s.commits| ==> s.commits[i].update != Create(id)
    requires CommittedStore(initial, s, n).Ok?
    ensures id !in CommittedStore(initial, s, n).value
  {
    NothingBringsBack(initial, Updates(s.commits[..n]), k, id);
  }

  // ---- every client stays well formed ----------------------------------------------------------------

  ghost predicate AllWellFormed(store: Store) {
    forall id :: id in store ==> WellFormed(store[id])
  }

  lemma {:induction false} GrantAllRefines(p: Policy, accounts: seq<string>)
    requires WellFormed(p)
    ensures var q := GrantAll(p, accounts);
            && WellFormed(q) && StatusSet(q) == StatusSet(p) + (set a | a in accounts) && q.items == p.items
  {
    hide GrantStatus, StatusSet, WellFormed;
    if |accounts| > 0 {
      GrantAllRefines(p, accounts[..|accounts| - 1]);
      GrantStatusRefines(GrantAll(p, accounts[..|accounts| - 1]), accounts[|accounts| - 1]);
      assert forall a :: a in accounts <==> a in accounts[..|accounts| - 1] || a == accounts[|accounts| - 1];
    }
  }

  lemma AttemptKeepsWellFormed(p: Policy, op: Op)
    requires WellFormed(p) && Attempt(p, op).Ok?
    ensures WellFormed(Attempt(p, op).value)
  {
    match op
    case OpGrantFields(account, item, fields) => GrantFieldsRefines(p, account, item, fields);
    case OpGrantStatus(account) => GrantStatusRefines(p, account);
    case OpRevokeStatus(which) => RevokeStatusRefines(p, which);
    case OpRevokeFields(item, fields) => RevokeFieldsRefines(p, item, fields);
  }

  /** The client an update names. */
  function Named(u: Update): string {
    match u
    case Create(id) => id
    case Change(id, _) => id
    case GrantAccounts(id, _) => id
    case Revoke(id) => id
  }

  /** An update leaves every client but its own alone, and keeps every client well formed. */
  lemma PerformKeepsWellFormed(store: Store, u: Update)
    requires AllWellFormed(store) && Perform(store, u).Ok?
    ensures AllWellFormed(Perform(store, u).value)
    ensures Perform(store, u).value - {Named(u)} == store - {Named(u)}
  {
    hide WellFormed, Attempt, GrantAll;
    match u
    case Create(_) => LegacyIsWellFormed(FRESH);
    case Change(id, op) => AttemptKeepsWellFormed(store[id], op);
    case GrantAccounts(id, accounts) => GrantAllRefines(store[id], accounts);
    case Revoke(_) =>
  }

  lemma {:induction false} SerialKeepsWellFormed(initial: Store, updates: seq<Update>)
    requires AllWellFormed(initial) && Serial(initial, updates).Ok?
    ensures AllWellFormed(Serial(initial, updates).value)
  {
    if |updates| > 0 {
      var before := updates[..|updates| - 1];
      SerialKeepsWellFormed(initial, before);
      PerformKeepsWellFormed(Serial(initial, before).value, updates[|updates| - 1]);
    }
  }

  /** No interleaving and no crash ever lets a reader see a policy that is not well formed. */
  lemma SightingsAreWellFormed(file: Option<Content>, temporary: map<Pid, Content>, actions: seq<Action>, i: nat)
    requires Load(file).Some? && AllWellFormed(Load(file).value) && Run(Start(file, temporary), actions).Some?
    requires i < |Run(Start(file, temporary), actions).value.sightings|
    ensures var seen := Run(Start(file, temporary), actions).value.sightings[i].result;
            seen.Some? && AllWellFormed(seen.value)
  {
    hide Step, Perform, AllWellFormed;
    RunKeepsInv(file, temporary, actions);
    var s := Run(Start(file, temporary), actions).value;
    SerialKeepsWellFormed(Load(file).value, Updates(s.commits[..s.sightings[i].commits]));
  }

  // ---- what an update does to its client ---------------------------------------------------------------

  /** The fields of items that one client may read, by the store. */
  ghost predicate ClientReads(store: Store, id: string, item: string, field: Field) {
    id in store && MayRead(store[id], item, field)
  }

  /** The accounts whose status one client may read, by the store. */
  ghost function ClientSees(store: Store, id: string): set<string> {
    if id in store then StatusSet(store[id]) else {}
  }

  /** Whether this update, if it succeeds, grants that field of that item to that client. */
  predicate GrantsField(u: Update, id: string, item: string, field: Field) {
    u.Change? && u.client == id && u.op.OpGrantFields? && u.op.item == item && field in u.op.fields
  }

  /** Whether it takes it away: by a revocation of the field, the item or the client, or by starting afresh. */
  predicate RevokesField(u: Update, id: string, item: string, field: Field) {
    match u
    case Create(other) => other == id
    case Revoke(other) => other == id
    case GrantAccounts(_, _) => false
    case Change(other, OpRevokeFields(revoked, fields)) =>
      other == id && revoked == item && (fields == [] || field in fields)
    case Change(_, _) => false
  }

  /** Whether it grants the status of that account to that client. */
  predicate GrantsStatus(u: Update, id: string, account: string) {
    match u
    case GrantAccounts(other, accounts) => other == id && account in accounts
    case Change(other, OpGrantStatus(granted)) => other == id && granted == account
    case _ => false
  }

  predicate RevokesStatus(u: Update, id: string, account: string) {
    match u
    case Create(other) => other == id
    case Revoke(other) => other == id
    case Change(other, OpRevokeStatus(which)) => other == id && (which.None? || which.value == account)
    case _ => false
  }

  /** When an update succeeds, by what the client may do before it. */
  ghost predicate Succeeds(store: Store, u: Update) {
    match u
    case Create(_) => true
    case Revoke(id) => id in store
    case GrantAccounts(id, _) => id in store
    case Change(id, op) =>
      && id in store
      && match op {
           case OpGrantFields(account, _, fields) =>
             fields != [] && (store[id].account == None || store[id].account == Some(account))
           case OpRevokeFields(item, _) => exists field :: MayRead(store[id], item, field)
           case _ => true
         }
  }

  lemma HasFields(p: Policy, item: string)
    requires WellFormed(p)
    ensures item in p.items <==> exists field :: MayRead(p, item, field)
  {
    if item in p.items { assert MayRead(p, item, p.items[item][0]); }
  }

  lemma SucceedsExactly(store: Store, u: Update)
    requires AllWellFormed(store)
    ensures Perform(store, u).Ok? <==> Succeeds(store, u)
  {
    if u.Change? && u.client in store {
      var p := store[u.client];
      hide WellFormed, GrantFields, RevokeFields, GrantStatus, RevokeStatus;
      match u.op
      case OpGrantFields(account, item, fields) => GrantFieldsRefines(p, account, item, fields);
      case OpRevokeFields(item, fields) =>
        RevokeFieldsRefines(p, item, fields);
        HasFields(p, item);
      case _ =>
    }
  }

  lemma AttemptMeans(p: Policy, op: Op, item: string, field: Field, account: string)
    requires WellFormed(p) && Attempt(p, op).Ok?
    ensures var q, u := Attempt(p, op).value, Change("", op);
            && (MayRead(q, item, field) <==>
                  GrantsField(u, "", item, field) || (MayRead(p, item, field) && !RevokesField(u, "", item, field)))
            && (account in StatusSet(q) <==>
                  GrantsStatus(u, "", account) || (account in StatusSet(p) && !RevokesStatus(u, "", account)))
  {
    hide WellFormed, GrantFields, RevokeFields, GrantStatus, RevokeStatus, StatusSet;
    match op
    case OpGrantFields(scope, granted, fields) => GrantFieldsRefines(p, scope, granted, fields);
    case OpGrantStatus(granted) => GrantStatusRefines(p, granted);
    case OpRevokeStatus(which) => RevokeStatusRefines(p, which);
    case OpRevokeFields(revoked, fields) => RevokeFieldsRefines(p, revoked, fields);
  }

  lemma FreshGivesNothing(item: string, field: Field)
    ensures !MayRead(FRESH, item, field) && StatusSet(FRESH) == {}
  {
    GrantedIs(FRESH);
  }

  /**
   What any client may do after an update that succeeds: exactly what it could do
   before, with what the update grants and without what it takes away. So a fresh
   client may do nothing, and each kind of grant leaves the other alone.
   */
  lemma PerformMeans(store: Store, u: Update, id: string, item: string, field: Field, account: string)
    requires AllWellFormed(store) && Perform(store, u).Ok?
    ensures var after := Perform(store, u).value;
            && (ClientReads(after, id, item, field) <==>
                  || GrantsField(u, id, item, field)
                  || (ClientReads(store, id, item, field) && !RevokesField(u, id, item, field)))
            && (account in ClientSees(after, id) <==>
                  || GrantsStatus(u, id, account)
                  || (account in ClientSees(store, id) && !RevokesStatus(u, id, account)))
            && (id in after <==> u == Create(id) || (id in store && u != Revoke(id)))
  {
    hide WellFormed, Attempt, MayRead, StatusSet, GrantAll;
    match u
    case Create(_) => FreshGivesNothing(item, field);
    case Change(client, op) => AttemptMeans(store[client], op, item, field, account);
    case GrantAccounts(grantee, accounts) =>
      GrantAllRefines(store[grantee], accounts);
      SameItems(store[grantee], GrantAll(store[grantee], accounts), item, field);
    case Revoke(_) =>
  }

  lemma SameItems(p: Policy, q: Policy, item: string, field: Field)
    requires q.items == p.items
    ensures MayRead(q, item, field) <==> MayRead(p, item, field)
  {
  }

  /** The account a client's items are scoped to, after an update of that client. */
  lemma PerformScope(store: Store, u: Update)
    requires AllWellFormed(store) && Perform(store, u).Ok?
    requires !u.Create? && !u.Revoke? && u != GrantAccounts(Named(u), [])
    ensures var p, q := store[Named(u)], Perform(store, u).value[Named(u)];
            q.account ==
              if u.Change? && u.op.OpGrantFields? then Some(u.op.account)
              else if q.items == map[] && (GrantsAny(u) || StatusSet(q) == {}) then None
              else p.account
  {
    hide WellFormed, StatusSet, Attempt, GrantAll;
    match u
    case Change(id, op) => AttemptScope(store[id], op);
    case GrantAccounts(id, accounts) => GrantAllScope(store[id], accounts);
  }

  lemma AttemptScope(p: Policy, op: Op)
    requires WellFormed(p) && Attempt(p, op).Ok?
    ensures var q := Attempt(p, op).value;
            q.account ==
              if op.OpGrantFields? then Some(op.account)
              else if q.items == map[] && (op.OpGrantStatus? || StatusSet(q) == {}) then None
              else p.account
  {
    hide WellFormed, StatusSet, GrantFields, RevokeFields, GrantStatus, RevokeStatus;
    match op
    case OpGrantFields(account, item, fields) => GrantFieldsRefines(p, account, item, fields);
    case OpGrantStatus(account) => GrantStatusRefines(p, account);
    case OpRevokeStatus(which) => RevokeStatusRefines(p, which);
    case OpRevokeFields(item, fields) => RevokeFieldsRefines(p, item, fields);
  }

  predicate GrantsAny(u: Update) {
    u.GrantAccounts? || (u.Change? && u.op.OpGrantStatus?)
  }

  lemma {:induction false} GrantAllScope(p: Policy, accounts: seq<string>)
    requires WellFormed(p) && |accounts| > 0
    ensures GrantAll(p, accounts).items == p.items
    ensures GrantAll(p, accounts).account == if p.items == map[] then None else p.account
  {
    hide WellFormed, GrantStatus, StatusSet;
    var init, last := accounts[..|accounts| - 1], accounts[|accounts| - 1];
    GrantAllRefines(p, init);
    GrantStatusRefines(GrantAll(p, init), last);
    if |init| > 0 { GrantAllScope(p, init); }
  }

  /** After an update that takes a field away, and no later one that grants it, it stays away. */
  lemma {:induction false} FieldStaysRevoked(
    initial: Store, updates: seq<Update>, k: nat, id: string, item: string, field: Field)
    requires AllWellFormed(initial) && Serial(initial, updates).Ok?
    requires k < |updates| && RevokesField(updates[k], id, item, field)
    requires forall i :: k < i < |updates| ==> !GrantsField(updates[i], id, item, field)
    ensures !ClientReads(Serial(initial, updates).value, id, item, field)
  {
    hide Perform, AllWellFormed, ClientReads, RevokesField, GrantsField;
    var before, last := updates[..|updates| - 1], updates[|updates| - 1];
    SerialKeepsWellFormed(initial, before);
    PerformMeans(Serial(initial, before).value, last, id, item, field, "");
    RevokingGrantsNothing(updates[k], id, item, field);
    if k < |updates| - 1 { FieldStaysRevoked(initial, before, k, id, item, field); }
  }

  lemma RevokingGrantsNothing(u: Update, id: string, item: string, field: Field)
    ensures RevokesField(u, id, item, field) ==> !GrantsField(u, id, item, field)
  {
  }

  /** The same for the status of an account. */
  lemma {:induction false} StatusStaysRevoked(initial: Store, updates: seq<Update>, k: nat, id: string, account: string)
    requires AllWellFormed(initial) && Serial(initial, updates).Ok?
    requires k < |updates| && RevokesStatus(updates[k], id, account)
    requires forall i :: k < i < |updates| ==> !GrantsStatus(updates[i], id, account)
    ensures account !in ClientSees(Serial(initial, updates).value, id)
  {
    hide Perform, AllWellFormed, ClientSees, RevokesStatus, GrantsStatus;
    var before, last := updates[..|updates| - 1], updates[|updates| - 1];
    SerialKeepsWellFormed(initial, before);
    PerformMeans(Serial(initial, before).value, last, id, "", "", account);
    assert RevokesStatus(updates[k], id, account) ==> !GrantsStatus(updates[k], id, account) by {
      RevokingStatusGrantsNone(updates[k], id, account);
    }
    if k < |updates| - 1 { StatusStaysRevoked(initial, before, k, id, account); }
  }

  lemma RevokingStatusGrantsNone(u: Update, id: string, account: string)
    ensures RevokesStatus(u, id, account) ==> !GrantsStatus(u, id, account)
  {
  }

  /**
   Once an update that takes a field away is committed, and no later one grants it, no
   later sighting in any interleaving lets the client read it; nor see an account's
   status once that was taken away.
   */
  lemma RevokedGrantsStayAway(
    file: Option<Content>, temporary: map<Pid, Content>, actions: seq<Action>, k: nat, i: nat,
    id: string, item: string, field: Field, account: string)
    requires Load(file).Some? && AllWellFormed(Load(file).value) && Run(Start(file, temporary), actions).Some?
    requires var s := Run(Start(file, temporary), actions).value;
             i < |s.sightings| && k < s.sightings[i].commits <= |s.commits|
    ensures var s := Run(Start(file, temporary), actions).value;
            var seen := s.sightings[i].result;
            && seen.Some?
            && (RevokesField(s.commits[k].update, id, item, field)
                && (forall j :: k < j < |s.commits| ==> !GrantsField(s.commits[j].update, id, item, field)) ==>
                  !ClientReads(seen.value, id, item, field))
            && (RevokesStatus(s.commits[k].update, id, account)
                && (forall j :: k < j < |s.commits| ==> !GrantsStatus(s.commits[j].update, id, account)) ==>
                  account !in ClientSees(seen.value, id))
  {
    hide Step, Perform, AllWellFormed, RevokesField, GrantsField, RevokesStatus, GrantsStatus, ClientReads, ClientSees;
    RunKeepsInv(file, temporary, actions);
    var s := Run(Start(file, temporary), actions).value;
    var updates := Updates(s.commits[..s.sightings[i].commits]);
    if RevokesField(s.commits[k].update, id, item, field)
       && (forall j :: k < j < |s.commits| ==> !GrantsField(s.commits[j].update, id, item, field))
    {
      FieldStaysRevoked(Load(file).value, updates, k, id, item, field);
    }
    if RevokesStatus(s.commits[k].update, id, account)
       && (forall j :: k < j < |s.commits| ==> !GrantsStatus(s.commits[j].update, id, account))
    {
      StatusStaysRevoked(Load(file).value, updates, k, id, account);
    }
  }

  // ---- an update alone ------------------------------------------------------------------------------

  /** The steps of one call of `update_policy_store` that meets no error. */
  function Call(pid: Pid, u: Update): seq<Action> {
    [Begin(pid, u), Acquire(pid), LoadStore(pid), ApplyUpdate(pid), WriteTemporary(pid), Rename(pid), Stop(pid, None)]
  }

  /** A chain of steps is a run. */
  lemma {:induction false} RunsThrough(states: seq<State>, actions: seq<Action>)
    requires |states| == |actions| + 1
    requires forall i :: 0 <= i < |actions| ==> Step(states[i], actions[i]) == Some(states[i + 1])
    ensures Run(states[0], actions) == Some(states[|actions|])
  {
    hide Step;
    if |actions| > 0 { RunsThrough(states[..|actions|], actions[..|actions| - 1]); }
  }

  /** The states of a call up to the point where its closure has its answer. */
  ghost function Prepared(s: State, pid: Pid, u: Update, stage: Stage): State {
    s.(processes := s.processes[pid := Process(u, stage)], holder := Some(pid), turns := s.turns + [u])
  }

  /** A reader is never turned away, and is given the store with every update committed so far. */
  lemma ReadLeads(initial: Store, s: State)
    requires Inv(initial, s)
    ensures Step(s, Read).Some?
    ensures var t := Step(s, Read).value;
            && t == s.(sightings := t.sightings) && |t.sightings| == |s.sightings| + 1
            && t.sightings[..|s.sightings|] == s.sightings
            && t.sightings[|s.sightings|].result.Some?
            && Serial(initial, Updates(s.commits)) == Ok(t.sightings[|s.sightings|].result.value)
  {
    hide Serial, HolderIsCurrent, InLockOrder, SightingsAreCommitted;
    assert s.commits[..|s.commits|] == s.commits;
  }

  /**
   A process may stop anywhere. The store is as it was, the lock is free and the
   others go on; all that is left of it is the temporary file it was writing or had
   written, where one left by an earlier process of its number stays as it is.
   */
  lemma StopLeads(initial: Store, s: State, pid: Pid, leftover: Option<Content>)
    requires Inv(initial, s) && pid in s.processes
    ensures Step(s, Stop(pid, leftover)).Some?
    ensures var stage, t := s.processes[pid].stage, Step(s, Stop(pid, leftover)).value;
            && t == s.(temporary := t.temporary, holder := t.holder, processes := s.processes - {pid})
            && t.holder == (if stage.Waiting? then s.holder else None)
            && (forall other :: other != pid ==>
                                  (other in t.temporary <==> other in s.temporary)
                                  && (other in s.temporary ==> t.temporary[other] == s.temporary[other]))
            && (if stage.Written? || (stage.Updated? && pid !in s.temporary)
                then if leftover.Some? then pid in t.temporary && t.temporary[pid] == leftover.value
                     else pid !in t.temporary
                else t.temporary == s.temporary)
  {
    hide FileIsSerial, InLockOrder, SightingsAreCommitted, Perform;
  }

  lemma CallPrepares(s: State, pid: Pid, u: Update)
    requires pid !in s.processes && s.holder == None && Load(s.file).Some?
    ensures var waiting := s.(processes := s.processes[pid := Process(u, Waiting)]);
            && Step(s, Begin(pid, u)) == Some(waiting)
            && Step(waiting, Acquire(pid)) == Some(Prepared(s, pid, u, Locked))
            && Step(Prepared(s, pid, u, Locked), LoadStore(pid))
               == Some(Prepared(s, pid, u, Loaded(Load(s.file).value)))
  {
    hide Perform;
    assert s.processes[pid := Process(u, Waiting)][pid := Process(u, Locked)] == s.processes[pid := Process(u, Locked)];
    assert s.processes[pid := Process(u, Locked)][pid := Process(u, Loaded(Load(s.file).value))]
        == s.processes[pid := Process(u, Loaded(Load(s.file).value))];
  }

  /** The state a successful call leaves. */
  ghost function Installed(s: State, u: Update, store: Store): State {
    s.(file := Some(Whole(store)), turns := s.turns + [u], commits := s.commits + [Commit(|s.turns|, u)])
  }

  lemma CallSaves(s: State, pid: Pid, u: Update, store: Store)
    requires pid !in s.processes && pid !in s.temporary && s.holder == None && Load(s.file).Some?
    requires Perform(Load(s.file).value, u) == Ok(store)
    ensures var s3, s4 := Prepared(s, pid, u, Loaded(Load(s.file).value)), Prepared(s, pid, u, Updated(store));
            var s5 := Prepared(s, pid, u, Written(store)).(temporary := s.temporary[pid := Whole(store)]);
            var s6 := Installed(s, u, store).(processes := s.processes[pid := Process(u, Saved)], holder := Some(pid));
            && Step(s3, ApplyUpdate(pid)) == Some(s4) && Step(s4, WriteTemporary(pid)) == Some(s5)
            && Step(s5, Rename(pid)) == Some(s6) && Step(s6, Stop(pid, None)) == Some(Installed(s, u, store))
  {
    hide Perform;
    assert s.processes[pid := Process(u, Saved)] - {pid} == s.processes;
    assert s.temporary[pid := Whole(store)] - {pid} == s.temporary;
    assert forall a, b :: s.processes[pid := Process(u, a)][pid := Process(u, b)] == s.processes[pid := Process(u, b)];
  }

  lemma LeftoverBlocks(s: State, pid: Pid, u: Update, store: Store)
    requires pid !in s.processes && pid in s.temporary && s.holder == None && Load(s.file).Some?
    requires Perform(Load(s.file).value, u) == Ok(store)
    ensures Run(s, Call(pid, u)[..5]) == None
  {
    hide Perform;
    CallPrepares(s, pid, u);
    var s3, s4 := Prepared(s, pid, u, Loaded(Load(s.file).value)), Prepared(s, pid, u, Updated(store));
    assert Step(s3, ApplyUpdate(pid)) == Some(s4) by {
      assert forall a, b ::
          s.processes[pid := Process(u, a)][pid := Process(u, b)] == s.processes[pid := Process(u, b)];
    }
    assert Step(s4, WriteTemporary(pid)) == None;
    hide Step;
    RunsThrough(
      [s, s.(processes := s.processes[pid := Process(u, Waiting)]), Prepared(s, pid, u, Locked), s3, s4],
      Call(pid, u)[..4]);
    assert Call(pid, u)[..5][..4] == Call(pid, u)[..4];
  }

  lemma {:induction false} NoRunAfterNone(s: State, actions: seq<Action>, n: nat)
    requires n <= |actions| && Run(s, actions[..n]) == None
    ensures Run(s, actions) == None
  {
    hide Step;
    if n == |actions| {
      assert actions[..n] == actions;
    } else {
      assert actions[..|actions| - 1][..n] == actions[..n];
      NoRunAfterNone(s, actions[..|actions| - 1], n);
    }
  }

  /**
   From any state with the lock free, a call whose closure succeeds goes through,
   uninterrupted, exactly if no file of an earlier process of its number is left over,
   and then installs just what the closure makes of the current store.
   */
  lemma CallInstalls(s: State, pid: Pid, u: Update, store: Store)
    requires pid !in s.processes && s.holder == None && Load(s.file).Some?
    requires Perform(Load(s.file).value, u) == Ok(store)
    ensures Run(s, Call(pid, u)).Some? <==> pid !in s.temporary
    ensures pid !in s.temporary ==> Run(s, Call(pid, u)) == Some(Installed(s, u, store))
  {
    hide Perform, Step;
    if pid in s.temporary {
      LeftoverBlocks(s, pid, u, store);
      NoRunAfterNone(s, Call(pid, u), 5);
    } else {
      CallPrepares(s, pid, u);
      CallSaves(s, pid, u, store);
      RunsThrough(
        [s, s.(processes := s.processes[pid := Process(u, Waiting)]), Prepared(s, pid, u, Locked),
         Prepared(s, pid, u, Loaded(Load(s.file).value)), Prepared(s, pid, u, Updated(store)),
         Prepared(s, pid, u, Written(store)).(temporary := s.temporary[pid := Whole(store)]),
         Installed(s, u, store).(processes := s.processes[pid := Process(u, Saved)], holder := Some(pid)),
         Installed(s, u, store)],
        Call(pid, u));
    }
  }

  /** A call whose closure fails writes nothing and leaves the lock free. */
  lemma FailedCallWritesNothing(s: State, pid: Pid, u: Update)
    requires pid !in s.processes && s.holder == None && Load(s.file).Some?
    requires Perform(Load(s.file).value, u).Err?
    ensures Run(s, Call(pid, u)[..4]) == Some(s.(turns := s.turns + [u]))
  {
    hide Perform;
    CallPrepares(s, pid, u);
    var s3 := Prepared(s, pid, u, Loaded(Load(s.file).value));
    assert s.processes[pid := Process(u, Loaded(Load(s.file).value))] - {pid} == s.processes;
    assert Step(s3, ApplyUpdate(pid)) == Some(s.(turns := s.turns + [u]));
    RunsThrough(
      [s, s.(processes := s.processes[pid := Process(u, Waiting)]), Prepared(s, pid, u, Locked), s3,
       s.(turns := s.turns + [u])],
      Call(pid, u)[..4]);
  }
}
