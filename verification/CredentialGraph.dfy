/**
 Which account's vault holds the master password of which other account
 (`credential_source_chain` and `credential_followers` in `src/config.rs`).
 */
module CredentialGraph {
  import opened Wrappers

  datatype Policy = Always | Never | OnDemand

  datatype Account = Account(name: string, policy: Policy, source: Option<string>)

  /** The configured accounts, and whether any legacy top-level field is set. */
  datatype Config = Config(configured: seq<Account>, legacy: bool) {
    /** The configured list, else one implicit account, else none. */
    function Accounts(): seq<Account> {
      if configured != [] then configured
      else if legacy then [Account("default", OnDemand, None)]
      else []
    }
  }

  /** The effective accounts: those configured, and if there are none, one named `default` for the legacy fields. */
  lemma AccountsExactly(config: Config, account: Account)
    ensures account in config.Accounts() <==>
              || account in config.configured
              || (|config.configured| == 0 && config.legacy && account.name == "default"
                  && account.policy == OnDemand && account.source == None)
    ensures |config.configured| > 0 ==> config.Accounts() == config.configured
    ensures |config.configured| == 0 ==> |config.Accounts()| == if config.legacy then 1 else 0
  {
  }

  datatype ChainError =
    | UnknownAccount(name: string)
    | SelfReference(name: string)
    | Cycle(name: string)

  /** The first account with that name. */
  function Find(accounts: seq<Account>, name: string): (r: Option<Account>)
    ensures r.Some? ==>
              exists i :: 0 <= i < |accounts| && accounts[i] == r.value && r.value.name == name
                          && forall j :: 0 <= j < i ==> accounts[j].name != name
    ensures r.None? ==> forall a :: a in accounts ==> a.name != name
  {
    if |accounts| == 0 then None
    else if accounts[0].name == name then Some(accounts[0])
    else Find(accounts[1..], name)
  }

  predicate Configured(accounts: seq<Account>, name: string) {
    Find(accounts, name).Some?
  }

  function SourceOf(accounts: seq<Account>, name: string): Option<string> {
    match Find(accounts, name)
    case Some(account) => account.source
    case None => None
  }

  // ---- walks along sources ---------------------------------------------------------

  predicate Distinct(p: seq<string>) {
    forall i, j :: 0 <= i < j < |p| ==> p[i] != p[j]
  }

  predicate IsWalk(accounts: seq<Account>, p: seq<string>) {
    && |p| >= 1
    && forall i :: 0 <= i < |p| - 1 ==> SourceOf(accounts, p[i]) == Some(p[i + 1])
  }

  function Last(p: seq<string>): string
    requires |p| >= 1
  {
    p[|p| - 1]
  }

  /** A walk that has met no name twice. */
  predicate IsTrail(accounts: seq<Account>, p: seq<string>) {
    IsWalk(accounts, p) && Distinct(p)
  }

  /** No longer trail continues this one. */
  predicate Stuck(accounts: seq<Account>, p: seq<string>)
    requires |p| >= 1
  {
    SourceOf(accounts, Last(p)).None? || SourceOf(accounts, Last(p)).value in p
  }

  /** How a walk that can go no further is reported. */
  function Verdict(accounts: seq<Account>, p: seq<string>): Result<seq<string>, ChainError>
    requires |p| >= 1
  {
    if !Configured(accounts, Last(p)) then Err(UnknownAccount(Last(p)))
    else if SourceOf(accounts, Last(p)).None? then Ok(p)
    else if SourceOf(accounts, Last(p)).value == Last(p) then Err(SelfReference(Last(p)))
    else Err(Cycle(p[0]))
  }

  /** Distinct names drawn from a list are no more than the list is long. */
  lemma {:induction false} Pigeonhole(accounts: seq<Account>, p: seq<string>)
    requires Distinct(p)
    requires forall i :: 0 <= i < |p| ==> Configured(accounts, p[i])
    ensures |p| <= |accounts|
  {
    if |accounts| == 0 {
      assert |p| > 0 ==> Configured(accounts, p[0]);
    } else if name: nat :| name < |p| && p[name] == accounts[0].name {
      var others := p[..name] + p[name + 1..];
      forall i | 0 <= i < |others| ensures Configured(accounts[1..], others[i]) {
        var k := if i < name then i else i + 1;
        assert others[i] == p[k] && p[k] != p[name];
        assert Configured(accounts, p[k]);
      }
      Pigeonhole(accounts[1..], others);
    } else {
      forall i | 0 <= i < |p| ensures Configured(accounts[1..], p[i]) {
        assert Configured(accounts, p[i]);
      }
      Pigeonhole(accounts[1..], p);
    }
  }

  /** Every name before the last is configured, so a trail is at most one longer than the list. */
  lemma TrailIsShort(accounts: seq<Account>, p: seq<string>)
    requires IsTrail(accounts, p)
    ensures |p| <= |accounts| + 1
    ensures Configured(accounts, Last(p)) ==> |p| <= |accounts|
  {
    var before := p[..|p| - 1];
    forall i | 0 <= i < |before| ensures Configured(accounts, before[i]) {
      assert SourceOf(accounts, p[i]) == Some(p[i + 1]);
    }
    Pigeonhole(accounts, before);
    if Configured(accounts, Last(p)) {
      forall i | 0 <= i < |p| ensures Configured(accounts, p[i]) {
        assert i < |p| - 1 ==> before[i] == p[i];
      }
      Pigeonhole(accounts, p);
    }
  }

  function Longest(accounts: seq<Account>, p: seq<string>): (trail: seq<string>)
    requires IsTrail(accounts, p)
    ensures IsTrail(accounts, trail) && Stuck(accounts, trail) && trail[0] == p[0]
    decreases |accounts| + 1 - |p|
  {
    TrailIsShort(accounts, p);
    if Stuck(accounts, p) then p
    else
      var longer := p + [SourceOf(accounts, Last(p)).value];
      TrailIsShort(accounts, longer);
      Longest(accounts, longer)
  }

  /** The chain of an account: the verdict on its longest trail. */
  function Chain(accounts: seq<Account>, start: string): Result<seq<string>, ChainError> {
    Verdict(accounts, Longest(accounts, [start]))
  }

  /** The loop of the source. Its depth guard is checked, and never decides. */
  method CredentialSourceChain(config: Config, start: string) returns (r: Result<seq<string>, ChainError>)
    ensures r == Chain(config.Accounts(), start)
  {
    var accounts := config.Accounts();
    var maxDepth := if |accounts| > 1 then |accounts| else 1;
    var chain, current := [start], start;
    while true
      invariant IsTrail(accounts, chain) && chain[0] == start && current == Last(chain)
      invariant Longest(accounts, [start]) == Longest(accounts, chain)
      decreases |accounts| + 1 - |chain|
    {
      TrailIsShort(accounts, chain);
      var account := Find(accounts, current);
      if account.None? {
        return Err(UnknownAccount(current));
      }
      if account.value.source.None? {
        return Ok(chain);
      }
      var source := account.value.source.value;
      if source == account.value.name {
        return Err(SelfReference(account.value.name));
      }
      if source in chain || |chain| > maxDepth {
        return Err(Cycle(start));
      }
      chain := chain + [source];
      current := source;
      TrailIsShort(accounts, chain);
    }
  }

  // ---- the classification is exact ------------------------------------------------------

  /** Walks from one name agree as far as both go. */
  lemma {:induction false} WalksAgree(accounts: seq<Account>, p: seq<string>, q: seq<string>, i: nat)
    requires IsWalk(accounts, p) && IsWalk(accounts, q) && p[0] == q[0]
    requires i < |p| && i < |q|
    ensures p[i] == q[i]
  {
    if i > 0 {
      WalksAgree(accounts, p, q, i - 1);
      assert SourceOf(accounts, p[i - 1]) == Some(p[i]) && SourceOf(accounts, q[i - 1]) == Some(q[i]);
    }
  }

  /** A walk that goes on past the end of another shows how that one continues. */
  lemma LongerWalk(accounts: seq<Account>, p: seq<string>, q: seq<string>)
    requires IsWalk(accounts, p) && IsWalk(accounts, q) && p[0] == q[0] && |q| > |p|
    ensures p == q[..|p|]
    ensures SourceOf(accounts, Last(p)) == Some(q[|p|])
  {
    forall i | 0 <= i < |p| ensures p[i] == q[i] { WalksAgree(accounts, p, q, i); }
    assert SourceOf(accounts, q[|p| - 1]) == Some(q[|p|]);
  }

  lemma LongerTrailUnsticks(accounts: seq<Account>, p: seq<string>, q: seq<string>)
    requires IsWalk(accounts, p) && IsTrail(accounts, q) && p[0] == q[0] && |q| > |p|
    ensures !Stuck(accounts, p)
  {
    LongerWalk(accounts, p, q);
    assert forall k :: 0 <= k < |p| ==> p[k] == q[k] != q[|p|];
  }

  lemma StuckIsLongest(accounts: seq<Account>, p: seq<string>, q: seq<string>)
    requires IsTrail(accounts, p) && IsTrail(accounts, q) && p[0] == q[0] && Stuck(accounts, p)
    ensures |q| <= |p|
  {
    if |q| > |p| { LongerTrailUnsticks(accounts, p, q); }
  }

  /** Every name starts exactly one trail that is stuck. */
  lemma OneStuckTrail(accounts: seq<Account>, p: seq<string>)
    requires IsTrail(accounts, p) && Stuck(accounts, p)
    ensures p == Longest(accounts, [p[0]])
  {
    var q := Longest(accounts, [p[0]]);
    StuckIsLongest(accounts, p, q);
    StuckIsLongest(accounts, q, p);
    forall i | 0 <= i < |p| ensures p[i] == q[i] { WalksAgree(accounts, p, q, i); }
  }

  /** Ok exactly for the duplicate-free path to an account with no source. */
  lemma OkExactly(accounts: seq<Account>, start: string, p: seq<string>)
    ensures Chain(accounts, start) == Ok(p) <==>
              && IsTrail(accounts, p) && p[0] == start
              && Configured(accounts, Last(p)) && SourceOf(accounts, Last(p)).None?
  {
    if IsTrail(accounts, p) && p[0] == start && Stuck(accounts, p) { OneStuckTrail(accounts, p); }
  }

  /** Unknown exactly when some walk reaches an unconfigured name. */
  lemma UnknownExactly(accounts: seq<Account>, start: string, name: string)
    ensures Chain(accounts, start) == Err(UnknownAccount(name)) <==>
              exists p :: IsTrail(accounts, p) && p[0] == start && Last(p) == name && !Configured(accounts, name)
  {
    if p :| IsTrail(accounts, p) && p[0] == start && Last(p) == name && !Configured(accounts, name) {
      OneStuckTrail(accounts, p);
    }
  }

  /** Self-reference exactly when some walk reaches an account that names itself. */
  lemma SelfReferenceExactly(accounts: seq<Account>, start: string, name: string)
    ensures Chain(accounts, start) == Err(SelfReference(name)) <==>
              exists p :: IsTrail(accounts, p) && p[0] == start && Last(p) == name
                       && SourceOf(accounts, name) == Some(name)
  {
    if p :| IsTrail(accounts, p) && p[0] == start && Last(p) == name && SourceOf(accounts, name) == Some(name) {
      OneStuckTrail(accounts, p);
    }
  }

  /** A cycle is reported exactly when a walk returns to a name it left at least two steps ago. */
  lemma CycleExactly(accounts: seq<Account>, start: string, name: string)
    ensures Chain(accounts, start) == Err(Cycle(name)) <==>
              && name == start
              && exists p :: IsTrail(accounts, p) && p[0] == start && ReturnsInto(accounts, p)
  {
    if p :| IsTrail(accounts, p) && p[0] == start && ReturnsInto(accounts, p) {
      OneStuckTrail(accounts, p);
      if name == start { assert Chain(accounts, start) == Err(Cycle(name)); }
    }
    if Chain(accounts, start) == Err(Cycle(name)) {
      assert ReturnsInto(accounts, Longest(accounts, [start]));
    }
  }

  predicate ReturnsInto(accounts: seq<Account>, p: seq<string>)
    requires |p| >= 1
  {
    exists i :: 0 <= i < |p| - 1 && SourceOf(accounts, Last(p)) == Some(p[i])
  }

  /** The depth guard alone never fires: whenever it is reached, the chain is within the depth. */
  lemma GuardNeverDecides(accounts: seq<Account>, chain: seq<string>)
    requires IsTrail(accounts, chain) && Configured(accounts, Last(chain))
    ensures !(|chain| > if |accounts| > 1 then |accounts| else 1)
  {
    TrailIsShort(accounts, chain);
  }

  // ---- followers ---------------------------------------------------------------------

  predicate Follows(account: Account, source: string) {
    account.policy != Never && account.source == Some(source)
  }

  function Followers(accounts: seq<Account>, source: string): seq<string> {
    if |accounts| == 0 then []
    else (if Follows(accounts[0], source) then [accounts[0].name] else []) + Followers(accounts[1..], source)
  }

  predicate DistinctNames(accounts: seq<Account>) {
    forall i, j :: 0 <= i < j < |accounts| ==> accounts[i].name != accounts[j].name
  }

  lemma {:induction false} FollowersAre(accounts: seq<Account>, source: string, name: string)
    ensures name in Followers(accounts, source) <==> exists a :: a in accounts && a.name == name && Follows(a, source)
  {
    if |accounts| > 0 {
      FollowersAre(accounts[1..], source, name);
      assert forall a :: a in accounts <==> a == accounts[0] || a in accounts[1..];
    }
  }

  predicate MayFollow(accounts: seq<Account>, name: string) {
    Configured(accounts, name) && Find(accounts, name).value.policy != Never
  }

  /** The followers are the accounts whose password lies in that account and that may be unlocked unasked. */
  lemma FollowersExactly(accounts: seq<Account>, source: string, name: string)
    ensures name in Followers(accounts, source) <==>
              exists i :: 0 <= i < |accounts| && accounts[i].name == name
                          && accounts[i].policy != Never && accounts[i].source == Some(source)
  {
    FollowersAre(accounts, source, name);
  }

  /** With distinct names, what is found of a name is its account. */
  lemma FoundExactly(accounts: seq<Account>, i: nat)
    requires DistinctNames(accounts) && i < |accounts|
    ensures Configured(accounts, accounts[i].name) && SourceOf(accounts, accounts[i].name) == accounts[i].source
    ensures MayFollow(accounts, accounts[i].name) <==> accounts[i].policy != Never
  {
    assert accounts[i] in accounts;
    var found := Find(accounts, accounts[i].name).value;
    var j :| 0 <= j < |accounts| && accounts[j] == found && found.name == accounts[i].name;
    assert i == j;
  }

  /** With distinct names, one step of following is one step of the chain, backwards. */
  lemma FollowerStep(accounts: seq<Account>, source: string, name: string)
    requires DistinctNames(accounts)
    ensures name in Followers(accounts, source)
       <==> MayFollow(accounts, name) && SourceOf(accounts, name) == Some(source)
  {
    FollowersAre(accounts, source, name);
    forall a | a in accounts && a.name == name ensures Find(accounts, name) == Some(a) {
      var found := Find(accounts, name).value;
      var i :| 0 <= i < |accounts| && accounts[i] == a;
      var j :| 0 <= j < |accounts| && accounts[j] == found;
      assert i == j;
    }
  }

  /** Each name follows the next one; the last is where following started. */
  ghost predicate FollowPath(accounts: seq<Account>, q: seq<string>) {
    |q| >= 1 && forall i :: 0 <= i < |q| - 1 ==> q[i] in Followers(accounts, q[i + 1])
  }

  /** Reached from `source` by following, any number of times but at least once. */
  ghost predicate ReachedFrom(accounts: seq<Account>, source: string, name: string) {
    exists q :: FollowPath(accounts, q) && |q| >= 2 && q[0] == name && Last(q) == source
  }

  /** The chain of `name` passes through `source`, and no account before it there is never unlocked unasked. */
  ghost predicate PassesThrough(accounts: seq<Account>, source: string, name: string) {
    var chain := Chain(accounts, name);
    && chain.Ok?
    && exists i :: 1 <= i < |chain.value| && chain.value[i] == source
                && forall j :: 0 <= j < i ==> MayFollow(accounts, chain.value[j])
  }

  lemma FollowPathIsWalk(accounts: seq<Account>, q: seq<string>)
    requires DistinctNames(accounts) && FollowPath(accounts, q)
    ensures IsWalk(accounts, q)
    ensures forall j :: 0 <= j < |q| - 1 ==> MayFollow(accounts, q[j])
  {
    forall i | 0 <= i < |q| - 1 ensures SourceOf(accounts, q[i]) == Some(q[i + 1]) && MayFollow(accounts, q[i]) {
      FollowerStep(accounts, q[i + 1], q[i]);
    }
  }

  /** No walk is longer than an Ok chain. */
  lemma WalkWithinChain(accounts: seq<Account>, chain: seq<string>, q: seq<string>)
    requires IsWalk(accounts, q) && Chain(accounts, q[0]) == Ok(chain)
    ensures |q| <= |chain| && q == chain[..|q|]
  {
    OkExactly(accounts, q[0], chain);
    if |q| > |chain| { LongerWalk(accounts, chain, q); }
    forall i | 0 <= i < |q| ensures q[i] == chain[i] { WalksAgree(accounts, chain, q, i); }
  }

  lemma ReachedPassesThrough(accounts: seq<Account>, source: string, name: string)
    requires DistinctNames(accounts) && ReachedFrom(accounts, source, name)
    requires Configured(accounts, name) ==> Chain(accounts, name).Ok?
    ensures PassesThrough(accounts, source, name)
  {
    hide Chain, Followers;
    var q :| FollowPath(accounts, q) && |q| >= 2 && q[0] == name && Last(q) == source;
    FollowPathIsWalk(accounts, q);
    assert MayFollow(accounts, q[0]);
    WalkWithinChain(accounts, Chain(accounts, name).value, q);
  }

  lemma WalkPrefix(accounts: seq<Account>, p: seq<string>, n: nat)
    requires IsWalk(accounts, p) && 1 <= n <= |p|
    ensures IsWalk(accounts, p[..n])
  {
    hide SourceOf;
  }

  lemma WalkIsFollowPath(accounts: seq<Account>, q: seq<string>)
    requires DistinctNames(accounts) && IsWalk(accounts, q)
    requires forall j :: 0 <= j < |q| - 1 ==> MayFollow(accounts, q[j])
    ensures FollowPath(accounts, q)
  {
    hide Followers, MayFollow, SourceOf;
    forall j | 0 <= j < |q| - 1 ensures q[j] in Followers(accounts, q[j + 1]) {
      FollowerStep(accounts, q[j + 1], q[j]);
    }
  }

  lemma PrefixReaches(accounts: seq<Account>, chain: seq<string>, i: nat)
    requires DistinctNames(accounts) && IsWalk(accounts, chain) && 1 <= i < |chain|
    requires forall j :: 0 <= j < i ==> MayFollow(accounts, chain[j])
    ensures ReachedFrom(accounts, chain[i], chain[0])
  {
    hide IsWalk, DistinctNames, FollowPath, MayFollow;
    var q := chain[..i + 1];
    WalkPrefix(accounts, chain, i + 1);
    WalkIsFollowPath(accounts, q);
    assert q[0] == chain[0] && Last(q) == chain[i];
  }

  lemma PassesThroughIsReached(accounts: seq<Account>, source: string, name: string)
    requires DistinctNames(accounts) && PassesThrough(accounts, source, name)
    ensures ReachedFrom(accounts, source, name)
  {
    hide ReachedFrom, Chain, IsWalk, DistinctNames, MayFollow;
    var chain := Chain(accounts, name).value;
    OkExactly(accounts, name, chain);
    var i :| 1 <= i < |chain| && chain[i] == source && forall j :: 0 <= j < i ==> MayFollow(accounts, chain[j]);
    PrefixReaches(accounts, chain, i);
  }

  /**
   The two directions of the graph agree: closing the followers of `source`
   transitively reaches exactly the accounts whose chain passes through it.
   */
  lemma FollowersMatchChains(accounts: seq<Account>, source: string, name: string)
    requires DistinctNames(accounts)
    requires Configured(accounts, name) ==> Chain(accounts, name).Ok?
    ensures ReachedFrom(accounts, source, name) <==> PassesThrough(accounts, source, name)
  {
    hide ReachedFrom, PassesThrough;
    if ReachedFrom(accounts, source, name) { ReachedPassesThrough(accounts, source, name); }
    if PassesThrough(accounts, source, name) { PassesThroughIsReached(accounts, source, name); }
  }
}
