/**
 What one remote API client may read (`ClientPolicy` and the `*_policy`
 functions in `src/remote_api.rs`). A field is its path token.
 */
module ClientPolicies {
  import opened Wrappers
  import opened StringOrder

  type Field = string

  datatype Failure = NoFields | OtherAccount | NoItemGrant

  /** The mutable fields of a client; its id, name and fingerprint never change. */
  datatype Policy = Policy(
    account: Option<string>,
    status: bool,
    statusAccounts: seq<string>,
    items: map<string, seq<Field>>)

  const FRESH := Policy(None, false, [], map[])

  function GrantedStatusAccounts(p: Policy): seq<string> {
    if !p.status then []
    else if p.statusAccounts == [] && p.account.Some? then SortDedup([p.account.value])
    else SortDedup(p.statusAccounts)
  }

  function PushMissing(allowed: seq<Field>, fields: seq<Field>): seq<Field> {
    if |fields| == 0 then allowed
    else
      var before := PushMissing(allowed, fields[..|fields| - 1]);
      var last := fields[|fields| - 1];
      if last in before then before else before + [last]
  }

  function Without(names: seq<string>, dropped: seq<string>): seq<string> {
    if |names| == 0 then []
    else
      var before := Without(names[..|names| - 1], dropped);
      var last := names[|names| - 1];
      if last in dropped then before else before + [last]
  }

  function ItemFields(p: Policy, item: string): seq<Field> {
    if item in p.items then p.items[item] else []
  }

  function GrantFields(p: Policy, account: string, item: string, fields: seq<Field>): Result<Policy, Failure> {
    if fields == [] then Err(NoFields)
    else if p.account.Some? && p.account.value != account then Err(OtherAccount)
    else Ok(p.(account := Some(account), items := p.items[item := PushMissing(ItemFields(p, item), fields)]))
  }

  function GrantStatus(p: Policy, account: string): Policy {
    var granted := GrantedStatusAccounts(p);
    p.(
    statusAccounts := if account in granted then granted else Sort(granted + [account]),
    account := if p.items == map[] then None else p.account,
    status := true)
  }

  function RevokeStatus(p: Policy, account: Option<string>): Policy {
    var left := if account.Some? then Without(GrantedStatusAccounts(p), [account.value]) else [];
    p.(
    statusAccounts := left,
    status := left != [],
    account := if left == [] && p.items == map[] then None else p.account)
  }

  function RevokeFields(p: Policy, item: string, fields: seq<Field>): Result<Policy, Failure> {
    if item !in p.items then Err(NoItemGrant)
    else
      var left := if fields == [] then [] else Without(p.items[item], fields);
      var items := if left == [] then p.items - {item} else p.items[item := left];
      Ok(p.(items := items, account := if items == map[] && !p.status then None else p.account))
  }

  // ---- the object that changes ---------------------------------------------------------

  class Client {
    var account: Option<string>
    var status: bool
    var statusAccounts: seq<string>
    var items: map<string, seq<Field>>

    ghost function Value(): Policy
      reads this
    {
      Policy(account, status, statusAccounts, items)
    }

    constructor (p: Policy)
      ensures Value() == p
    {
      account, status, statusAccounts, items := p.account, p.status, p.statusAccounts, p.items;
    }

    method Granted() returns (accounts: seq<string>)
      ensures accounts == GrantedStatusAccounts(Value())
    {
      if !status {
        return [];
      }
      accounts := statusAccounts;
      if status && accounts == [] {
        if account.Some? {
          accounts := accounts + [account.value];
          assert accounts == [account.value];
        }
      }
      accounts := Sort(accounts);
      accounts := Dedup(accounts);
    }

    method GrantFieldsPolicy(forAccount: string, item: string, fields: seq<Field>) returns (r: Result<(), Failure>)
      modifies this
      ensures GrantFields(old(Value()), forAccount, item, fields).Ok? ==>
                r == Ok(()) && Ok(Value()) == GrantFields(old(Value()), forAccount, item, fields)
      ensures GrantFields(old(Value()), forAccount, item, fields).Err? ==>
                && r == Err(GrantFields(old(Value()), forAccount, item, fields).error)
                && Value() == old(Value())
    {
      if fields == [] {
        return Err(NoFields);
      }
      if account.Some? && account.value != forAccount {
        return Err(OtherAccount);
      }
      account := Some(forAccount);
      var allowed := if item in items then items[item] else [];
      ghost var before := allowed;
      for i := 0 to |fields|
        invariant allowed == PushMissing(before, fields[..i])
        invariant items == old(items) && account == Some(forAccount) && status == old(status)
        invariant statusAccounts == old(statusAccounts)
      {
        assert fields[..i + 1][..i] == fields[..i];
        if fields[i] !in allowed {
          allowed := allowed + [fields[i]];
        }
      }
      assert fields[..|fields|] == fields;
      items := items[item := allowed];
      r := Ok(());
    }

    method GrantStatusPolicy(forAccount: string)
      modifies this
      ensures Value() == GrantStatus(old(Value()), forAccount)
    {
      statusAccounts := Granted();
      if items == map[] {
        account := None;
      }
      if forAccount !in statusAccounts {
        statusAccounts := statusAccounts + [forAccount];
        statusAccounts := Sort(statusAccounts);
      }
      status := true;
    }

    method RevokeStatusPolicy(forAccount: Option<string>)
      modifies this
      ensures Value() == RevokeStatus(old(Value()), forAccount)
    {
      statusAccounts := Granted();
      statusAccounts := if forAccount.Some? then Without(statusAccounts, [forAccount.value]) else [];
      status := statusAccounts != [];
      if !status && items == map[] {
        account := None;
      }
    }

    method RevokeFieldsPolicy(item: string, fields: seq<Field>) returns (r: Result<(), Failure>)
      modifies this
      ensures RevokeFields(old(Value()), item, fields).Ok? ==>
                r == Ok(()) && Ok(Value()) == RevokeFields(old(Value()), item, fields)
      ensures RevokeFields(old(Value()), item, fields).Err? ==> r == Err(NoItemGrant) && Value() == old(Value())
    {
      if item !in items {
        return Err(NoItemGrant);
      }
      if fields == [] {
        items := items - {item};
      } else {
        var allowed := Without(items[item], fields);
        items := if allowed == [] then items - {item} else items[item := allowed];
      }
      if items == map[] && !status {
        account := None;
      }
      r := Ok(());
    }
  }

  // ---- two independent sets --------------------------------------------------------------

  /** The accounts whose status the client may read. */
  ghost function StatusSet(p: Policy): set<string> {
    set a | a in GrantedStatusAccounts(p)
  }

  /** The fields the client may read, item by item. */
  ghost predicate MayRead(p: Policy, item: string, field: Field) {
    item in p.items && field in p.items[item]
  }

  /** What every reachable policy satisfies. */
  ghost predicate WellFormed(p: Policy) {
    && (p.status <==> StatusSet(p) != {})
    && (!p.status ==> p.statusAccounts == [])
    && NoDuplicates(p.statusAccounts)
    && (forall item :: item in p.items ==> p.items[item] != [] && NoDuplicates(p.items[item]))
    && (p.items != map[] ==> p.account.Some?)
  }

  /** A policy file from before status accounts existed: `account` doubles as the status scope. */
  ghost predicate IsLegacy(p: Policy) {
    && p.statusAccounts == []
    && (p.status || p.items != map[] ==> p.account.Some?)
    && forall item :: item in p.items ==> p.items[item] != [] && NoDuplicates(p.items[item])
  }

  lemma GrantedIs(p: Policy)
    ensures NoDuplicates(GrantedStatusAccounts(p)) && IsSorted(GrantedStatusAccounts(p))
    ensures forall a :: a in GrantedStatusAccounts(p) <==>
                          p.status && if p.statusAccounts == [] then p.account == Some(a) else a in p.statusAccounts
  {
    SortDedupIs(p.statusAccounts);
    if p.account.Some? { SortDedupIs([p.account.value]); }
  }

  lemma LegacyIsWellFormed(p: Policy)
    requires IsLegacy(p)
    ensures WellFormed(p)
  {
    GrantedIs(p);
    if p.status { assert p.account.value in StatusSet(p); }
  }

  lemma {:induction false} PushMissingIs(allowed: seq<Field>, fields: seq<Field>)
    requires NoDuplicates(allowed)
    ensures NoDuplicates(PushMissing(allowed, fields))
    ensures forall f :: f in PushMissing(allowed, fields) <==> f in allowed || f in fields
  {
    if |fields| > 0 {
      PushMissingIs(allowed, fields[..|fields| - 1]);
      assert forall f :: f in fields <==> f in fields[..|fields| - 1] || f == fields[|fields| - 1];
    }
  }

  lemma {:induction false} WithoutIs(names: seq<string>, dropped: seq<string>)
    ensures forall n :: n in Without(names, dropped) <==> n in names && n !in dropped
    ensures NoDuplicates(names) ==> NoDuplicates(Without(names, dropped))
  {
    if |names| > 0 {
      WithoutIs(names[..|names| - 1], dropped);
      assert forall n :: n in names <==> n in names[..|names| - 1] || n == names[|names| - 1];
    }
  }

  /** Granting fields adds exactly those of that item, and leaves the status accounts alone. */
  lemma GrantFieldsRefines(p: Policy, account: string, item: string, fields: seq<Field>)
    requires WellFormed(p)
    ensures GrantFields(p, account, item, fields).Err?
       <==> fields == [] || (p.account.Some? && p.account.value != account)
    ensures GrantFields(p, account, item, fields).Ok? ==>
              var q := GrantFields(p, account, item, fields).value;
              && WellFormed(q) && q.account == Some(account)
              && StatusSet(q) == StatusSet(p)
              && forall i, f :: MayRead(q, i, f) <==> MayRead(p, i, f) || (i == item && f in fields)
  {
    if GrantFields(p, account, item, fields).Ok? {
      var q := GrantFields(p, account, item, fields).value;
      GrantedIs(p);
      GrantedIs(q);
      PushMissingIs(ItemFields(p, item), fields);
      assert fields[0] in q.items[item];
      assert p.status && p.statusAccounts == [] ==> p.account.Some?;
      assert StatusSet(q) == StatusSet(p);
    }
  }

  /**
   Granting status adds exactly that account, and leaves every field grant alone; the
   scope goes unless an item needs it.
   */
  lemma GrantStatusRefines(p: Policy, account: string)
    requires WellFormed(p)
    ensures var q := GrantStatus(p, account);
            && WellFormed(q)
            && StatusSet(q) == StatusSet(p) + {account}
            && q.items == p.items && q.account == if p.items == map[] then None else p.account
  {
    var q, granted := GrantStatus(p, account), GrantedStatusAccounts(p);
    GrantedIs(p);
    GrantedIs(q);
    SortSorts(granted + [account]);
    if account !in granted { SortKeepsDistinct(granted, account); }
    assert account in q.statusAccounts;
    assert forall a :: a in q.statusAccounts <==> a in granted || a == account;
    assert StatusSet(q) == StatusSet(p) + {account};
  }

  /** Appending a new name and sorting keeps a list free of duplicates. */
  lemma SortKeepsDistinct(names: seq<string>, name: string)
    requires NoDuplicates(names) && name !in names
    ensures NoDuplicates(Sort(names + [name]))
  {
    DistinctSorts(names + [name]);
  }

  lemma {:induction false} DistinctSorts(s: seq<string>)
    requires NoDuplicates(s)
    ensures NoDuplicates(Sort(s))
  {
    if |s| > 0 {
      DistinctSorts(s[1..]);
      SortSorts(s[1..]);
      InsertSorted(s[0], Sort(s[1..]));
    }
  }

  /**
   Revoking status removes exactly that account, or all, and leaves every field grant
   alone; with the last grant of any kind the scope goes.
   */
  lemma RevokeStatusRefines(p: Policy, account: Option<string>)
    requires WellFormed(p)
    ensures var q := RevokeStatus(p, account);
            && WellFormed(q)
            && StatusSet(q) == (if account.Some? then StatusSet(p) - {account.value} else {})
            && q.items == p.items && q.account == if p.items == map[] && StatusSet(q) == {} then None else p.account
  {
    var q, granted := RevokeStatus(p, account), GrantedStatusAccounts(p);
    GrantedIs(p);
    GrantedIs(q);
    if account.Some? { WithoutIs(granted, [account.value]); }
    if q.statusAccounts != [] { assert q.statusAccounts[0] in StatusSet(q); }
  }

  /** Revoking fields removes exactly those of that item, or all of it, and leaves the status accounts alone. */
  lemma RevokeFieldsRefines(p: Policy, item: string, fields: seq<Field>)
    requires WellFormed(p)
    ensures RevokeFields(p, item, fields).Err? <==> item !in p.items
    ensures RevokeFields(p, item, fields).Ok? ==>
              var q := RevokeFields(p, item, fields).value;
              && WellFormed(q) && q.account == (if q.items == map[] && StatusSet(p) == {} then None else p.account)
              && StatusSet(q) == StatusSet(p)
              && forall i, f :: MayRead(q, i, f) <==> MayRead(p, i, f) && !(i == item && (fields == [] || f in fields))
  {
    if RevokeFields(p, item, fields).Ok? {
      var q := RevokeFields(p, item, fields).value;
      GrantedIs(p);
      GrantedIs(q);
      WithoutIs(p.items[item], fields);
      assert StatusSet(q) == StatusSet(p);
      assert item in q.items ==> item in p.items;
      assert q.items != map[] ==> p.items != map[];
    }
  }

  // ---- whole runs --------------------------------------------------------------------------

  datatype Op =
    | OpGrantFields(account: string, item: string, fields: seq<Field>)
    | OpGrantStatus(statusAccount: string)
    | OpRevokeStatus(which: Option<string>)
    | OpRevokeFields(revokedItem: string, revoked: seq<Field>)

  function Attempt(p: Policy, op: Op): Result<Policy, Failure> {
    match op
    case OpGrantFields(account, item, fields) => GrantFields(p, account, item, fields)
    case OpGrantStatus(account) => Ok(GrantStatus(p, account))
    case OpRevokeStatus(which) => Ok(RevokeStatus(p, which))
    case OpRevokeFields(item, fields) => RevokeFields(p, item, fields)
  }

  /** A failed operation changes nothing. */
  function Apply(p: Policy, op: Op): Policy {
    match Attempt(p, op)
    case Ok(q) => q
    case Err(_) => p
  }

  /** The policy with, for every readable field, the account it was granted under. */
  datatype Tracked = Tracked(policy: Policy, madeUnder: map<(string, Field), string>)

  ghost function Track(t: Tracked, op: Op): Tracked {
    var next := Apply(t.policy, op);
    match op
    case OpGrantFields(account, item, fields) =>
      if GrantFields(t.policy, account, item, fields).Ok?
      then Tracked(next, t.madeUnder + map f | f in fields :: (item, f) := account)
      else t
    case _ => Tracked(next, t.madeUnder)
  }

  ghost function TrackAll(t: Tracked, ops: seq<Op>): Tracked {
    if |ops| == 0 then t else Track(TrackAll(t, ops[..|ops| - 1]), ops[|ops| - 1])
  }

  ghost predicate Sound(t: Tracked) {
    && WellFormed(t.policy)
    && forall item, field :: MayRead(t.policy, item, field) ==>
                               && (item, field) in t.madeUnder
                               && t.policy.account == Some(t.madeUnder[(item, field)])
  }

  lemma TrackKeepsSound(t: Tracked, op: Op)
    requires Sound(t)
    ensures Sound(Track(t, op))
  {
    var p, q := t.policy, Apply(t.policy, op);
    match op
    case OpGrantFields(account, item, fields) => GrantFieldsRefines(p, account, item, fields);
    case OpGrantStatus(account) => GrantStatusRefines(p, account);
    case OpRevokeStatus(which) => RevokeStatusRefines(p, which);
    case OpRevokeFields(item, fields) => RevokeFieldsRefines(p, item, fields);
  }

  /**
   From a fresh client, or any legacy one whose grants were made under its
   account, every sequence of operations keeps the policy well formed, and every
   readable field was granted under the current account.
   */
  lemma {:induction false} RunsAreSound(t: Tracked, ops: seq<Op>)
    requires IsLegacy(t.policy)
    requires forall item, field :: MayRead(t.policy, item, field) ==>
                                     && (item, field) in t.madeUnder
                                     && t.policy.account == Some(t.madeUnder[(item, field)])
    ensures Sound(TrackAll(t, ops))
  {
    if |ops| == 0 {
      LegacyIsWellFormed(t.policy);
    } else {
      RunsAreSound(t, ops[..|ops| - 1]);
      TrackKeepsSound(TrackAll(t, ops[..|ops| - 1]), ops[|ops| - 1]);
    }
  }

  /**
   The condition on legacy clients is needed: with `status` set and no account at
   all, granting a field of an account also grants its status.
   */
  lemma StatusWithoutAccountLeaks(p: Policy, account: string, item: string, fields: seq<Field>)
    requires GrantFields(p, account, item, fields).Ok?
    ensures StatusSet(GrantFields(p, account, item, fields).value) == StatusSet(p)
       <==> !(p.status && p.statusAccounts == [] && p.account.None?)
  {
    var q := GrantFields(p, account, item, fields).value;
    GrantedIs(p);
    GrantedIs(q);
    if p.status && p.statusAccounts == [] && p.account.None? {
      assert account in StatusSet(q) && account !in StatusSet(p);
    } else {
      assert forall a :: a in StatusSet(q) <==> a in StatusSet(p);
    }
  }
}
