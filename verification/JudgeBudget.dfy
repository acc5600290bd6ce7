/** The judge's token budget per project and minute: a Redis counter per project-minute
    (melp/judge/orchestrator.py). */
module JudgeBudget {

  const TTL := 120.0

  /** A request for tokens at a time, in seconds. */
  datatype Spend = Spend(project: string, at: real, tokens: nat)

  /** A Redis counter whose expiry was last set, to TTL seconds later, at time `touched`. */
  datatype Counter = Counter(used: nat, touched: real)

  type Key = (string, int)

  type Store = map<Key, Counter>

  /** `int(time.time()) // 60`. */
  function Minute(at: real): int { at.Floor / 60 }

  function KeyOf(s: Spend): Key { (s.project, Minute(s.at)) }

  /** What `incrby` returns: the live value plus the tokens. */
  function Used(store: Store, s: Spend): nat {
    s.tokens + if KeyOf(s) in store && s.at < store[KeyOf(s)].touched + TTL then store[KeyOf(s)].used else 0
  }

  function Stored(store: Store, s: Spend): Store { store[KeyOf(s) := Counter(Used(store, s), s.at)] }

  class Budget {
    var store: Store
    const perMinute: nat

    constructor (perMinute: nat)
      ensures store == map[] && this.perMinute == perMinute
    {
      this.perMinute := perMinute;
      store := map[];
    }

    /** `_budget_check_and_consume`: consumes first, then says whether the spend is allowed. */
    method CheckAndConsume(project: string, tokens: nat, at: real) returns (allowed: bool)
      modifies this
      ensures store == Stored(old(store), Spend(project, at, tokens))
      ensures allowed <==> Used(old(store), Spend(project, at, tokens)) <= perMinute
    {
      var bucket := (project, at.Floor / 60);
      var used := tokens;
      if bucket in store && at < store[bucket].touched + TTL {
        used := used + store[bucket].used;
      }
      store := store[bucket := Counter(used, at)];
      return used <= perMinute;
    }
  }

  // ---------- runs ----------

  /** The clock does not run backwards: a counter that Redis has dropped is not asked for again, so
      reading it as absent is what Redis does. */
  ghost predicate Monotone(spends: seq<Spend>) {
    forall k, l | 0 <= k < l < |spends| :: spends[k].at <= spends[l].at
  }

  /** The store after the first k spends, starting empty. */
  function After(spends: seq<Spend>, k: nat): Store
    requires k <= |spends|
  {
    if k == 0 then map[] else Stored(After(spends, k - 1), spends[k - 1])
  }

  predicate Allowed(spends: seq<Spend>, perMinute: nat, k: nat)
    requires k < |spends|
  {
    Used(After(spends, k), spends[k]) <= perMinute
  }

  /** A spend of the project in minute m: at a time from 60 m seconds on, before 60 m + 60. */
  predicate InMinute(s: Spend, key: Key) {
    s.project == key.0 && (60 * key.1) as real <= s.at < (60 * key.1 + 60) as real
  }

  lemma MinuteHolds(s: Spend, key: Key)
    ensures InMinute(s, key) <==> KeyOf(s) == key
  {
  }

  /** All tokens the first k spends asked for in a project-minute, refused ones included. */
  function Requested(spends: seq<Spend>, key: Key, k: nat): nat
    requires k <= |spends|
  {
    if k == 0 then 0
    else Requested(spends, key, k - 1) + if InMinute(spends[k - 1], key) then spends[k - 1].tokens else 0
  }

  /** The tokens among them that were granted. */
  function Granted(spends: seq<Spend>, perMinute: nat, key: Key, k: nat): nat
    requires k <= |spends|
  {
    if k == 0 then 0
    else Granted(spends, perMinute, key, k - 1)
         + if InMinute(spends[k - 1], key) && Allowed(spends, perMinute, k - 1) then spends[k - 1].tokens else 0
  }

  ghost predicate CounterOk(spends: seq<Spend>, key: Key, k: nat)
    requires k <= |spends|
  {
    var store := After(spends, k);
    if key in store then
      && store[key].used == Requested(spends, key, k)
      && Minute(store[key].touched) == key.1
    else
      Requested(spends, key, k) == 0
  }

  lemma SameMinute(x: real, y: real)
    requires Minute(x) == Minute(y)
    ensures y < x + TTL
  {
  }

  /** A counter lives through its minute, so it holds everything asked for in it. */
  lemma {:induction false} CounterIsOk(spends: seq<Spend>, key: Key, k: nat)
    requires Monotone(spends) && k <= |spends|
    ensures CounterOk(spends, key, k)
  {
    if k > 0 {
      CounterIsOk(spends, key, k - 1);
      var s, before := spends[k - 1], After(spends, k - 1);
      MinuteHolds(s, key);
      hide InMinute;
      if KeyOf(s) == key && key in before {
        SameMinute(before[key].touched, s.at);
      }
    }
  }

  /** A spend is allowed exactly when everything asked for so far in its project-minute, itself
      included, fits the budget. */
  lemma AllowedIff(spends: seq<Spend>, perMinute: nat, key: Key, k: nat)
    requires Monotone(spends) && k < |spends| && InMinute(spends[k], key)
    ensures Allowed(spends, perMinute, k) <==> Requested(spends, key, k + 1) <= perMinute
  {
    var s, store := spends[k], After(spends, k);
    CounterIsOk(spends, key, k);
    MinuteHolds(s, key);
    if key in store {
      SameMinute(store[key].touched, s.at);
    }
  }

  lemma {:induction false} RequestedGrows(spends: seq<Spend>, key: Key, k: nat, l: nat)
    requires k <= l <= |spends|
    ensures Requested(spends, key, k) <= Requested(spends, key, l)
  {
    if k < l { RequestedGrows(spends, key, k, l - 1); }
  }

  /** Within a project-minute the allowed spends come first: after a refusal nothing is allowed. */
  lemma AllowedFormPrefix(spends: seq<Spend>, perMinute: nat, key: Key, k: nat, l: nat)
    requires Monotone(spends) && k <= l < |spends| && InMinute(spends[k], key) && InMinute(spends[l], key)
    requires Allowed(spends, perMinute, l)
    ensures Allowed(spends, perMinute, k)
  {
    AllowedIff(spends, perMinute, key, k);
    AllowedIff(spends, perMinute, key, l);
    RequestedGrows(spends, key, k + 1, l + 1);
  }

  /** While everything fits, all of it is granted; the grants of a project-minute never exceed the
      budget. */
  lemma {:induction false} GrantsWithinBudget(spends: seq<Spend>, perMinute: nat, key: Key, k: nat)
    requires Monotone(spends) && k <= |spends|
    ensures Granted(spends, perMinute, key, k) <= perMinute
    ensures Requested(spends, key, k) <= perMinute ==> Granted(spends, perMinute, key, k) == Requested(spends, key, k)
  {
    hide Allowed;
    if k > 0 {
      GrantsWithinBudget(spends, perMinute, key, k - 1);
      if InMinute(spends[k - 1], key) { AllowedIff(spends, perMinute, key, k - 1); }
    }
  }

  lemma RequestedIncludes(spends: seq<Spend>, key: Key, k: nat)
    requires k < |spends| && InMinute(spends[k], key)
    ensures Requested(spends, key, k + 1) >= spends[k].tokens
  {
  }

  /** A refused spend still counts: after one request above the budget nothing is allowed in its
      project-minute any more, itself included. */
  lemma RefusalConsumes(spends: seq<Spend>, perMinute: nat, key: Key, k: nat, l: nat)
    requires Monotone(spends) && k <= l < |spends| && InMinute(spends[k], key) && InMinute(spends[l], key)
    requires spends[k].tokens > perMinute
    ensures !Allowed(spends, perMinute, l)
  {
    AllowedIff(spends, perMinute, key, l);
    RequestedIncludes(spends, key, k);
    RequestedGrows(spends, key, k + 1, l + 1);
  }
}
