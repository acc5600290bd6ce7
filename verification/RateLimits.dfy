/** The gateway's fixed-window rate limit: a Redis hash per project with one counter per second
    (melp/services/gateway/app.py). */
module RateLimits {

  const RATE_PER_S := 100

  /** A request reaching the limiter: its key (a project) and the time, in seconds. */
  datatype Hit = Hit(project: string, at: real)

  /** A Redis hash whose expiry was last set, to TTL seconds later, at time `touched`. */
  datatype Hash = Hash(fields: map<int, nat>, touched: real)

  const TTL := 2.0

  /** From its expiry on a hash reads as absent. */
  predicate Live(hash: Hash, at: real) { at < hash.touched + TTL }

  type Store = map<string, Hash>

  /** What `hincrby` and `expire(key, 2)` leave behind, and the count they return. */
  function Fields(store: Store, h: Hit): map<int, nat> {
    if h.project in store && Live(store[h.project], h.at) then store[h.project].fields else map[]
  }

  function Counted(store: Store, h: Hit): nat {
    var fields := Fields(store, h);
    1 + if h.at.Floor in fields then fields[h.at.Floor] else 0
  }

  function Stored(store: Store, h: Hit): Store {
    store[h.project := Hash(Fields(store, h)[h.at.Floor := Counted(store, h)], h.at)]
  }

  class Gateway {
    var store: Store

    constructor ()
      ensures store == map[]
    {
      store := map[];
    }

    /** `rate_limit`: `parts` are the segments of the path, `at` the current time. Only
        project-scoped paths are counted. */
    method RateLimit(parts: seq<string>, at: real) returns (admitted: bool)
      modifies this
      ensures var scoped := |parts| >= 3 && parts[0] == "v1" && parts[1] == "projects";
              if scoped then
                store == Stored(old(store), Hit(parts[2], at)) && (admitted <==> Counted(old(store), Hit(parts[2], at)) <= 100)
              else store == old(store) && admitted
    {
      if |parts| < 3 || parts[0] != "v1" || parts[1] != "projects" {
        return true;
      }
      var project := parts[2];
      var now := at.Floor;
      var fields: map<int, nat> := map[];
      if project in store && Live(store[project], at) {
        fields := store[project].fields;
      }
      var count := 1 + if now in fields then fields[now] else 0;
      store := store[project := Hash(fields[now := count], at)];
      return count <= RATE_PER_S;
    }
  }

  // ---------- runs ----------

  ghost predicate Monotone(hits: seq<Hit>) {
    forall k, l | 0 <= k < l < |hits| :: hits[k].at <= hits[l].at
  }

  /** The store after the first k hits, starting empty. */
  function After(hits: seq<Hit>, k: nat): Store
    requires k <= |hits|
  {
    if k == 0 then map[] else Stored(After(hits, k - 1), hits[k - 1])
  }

  /** Hit k is admitted. */
  predicate Admits(hits: seq<Hit>, k: nat)
    requires k < |hits|
  {
    Counted(After(hits, k), hits[k]) <= RATE_PER_S
  }

  predicate InSecond(h: Hit, project: string, second: int) {
    h.project == project && second as real <= h.at < (second + 1) as real
  }

  /** How many of the first k hits a project made in a second. */
  function HitsIn(hits: seq<Hit>, project: string, second: int, k: nat): nat
    requires k <= |hits|
  {
    if k == 0 then 0 else HitsIn(hits, project, second, k - 1) + if InSecond(hits[k - 1], project, second) then 1 else 0
  }

  /** How many of them were admitted. */
  function AdmittedIn(hits: seq<Hit>, project: string, second: int, k: nat): nat
    requires k <= |hits|
  {
    if k == 0 then 0
    else AdmittedIn(hits, project, second, k - 1)
         + if InSecond(hits[k - 1], project, second) && Admits(hits, k - 1) then 1 else 0
  }

  /** The hash of a project after k hits: touched by the last of them, with the exact count for
      that second and nothing for later seconds. */
  ghost predicate HashOk(hits: seq<Hit>, k: nat, project: string, hash: Hash)
    requires k <= |hits|
  {
    var second := hash.touched.Floor;
    && second in hash.fields && hash.fields[second] == HitsIn(hits, project, second, k)
    && (forall later: int | later > second :: later !in hash.fields)
    && (forall l | 0 <= l < k && hits[l].project == project :: hits[l].at <= hash.touched)
    && (exists l :: 0 <= l < k && hits[l].project == project && hits[l].at == hash.touched)
  }

  ghost predicate StoreOk(hits: seq<Hit>, k: nat, project: string)
    requires k <= |hits|
  {
    if project in After(hits, k) then HashOk(hits, k, project, After(hits, k)[project])
    else forall l | 0 <= l < k :: hits[l].project != project
  }

  lemma {:induction false} NoHits(hits: seq<Hit>, project: string, second: int, k: nat)
    requires k <= |hits|
    requires forall l | 0 <= l < k :: !InSecond(hits[l], project, second)
    ensures HitsIn(hits, project, second, k) == 0
  {
    if k > 0 { NoHits(hits, project, second, k - 1); }
  }

  lemma FloorMonotone(x: real, y: real)
    requires x <= y
    ensures x.Floor <= y.Floor
    ensures x.Floor == y.Floor ==> y < x + TTL
  {
  }

  lemma NoHitsSince(hits: seq<Hit>, project: string, last: real, second: int, k: nat)
    requires k <= |hits| && last.Floor < second
    requires forall l | 0 <= l < k && hits[l].project == project :: hits[l].at <= last
    ensures HitsIn(hits, project, second, k) == 0
  {
  }

  /** The count Redis returns is the number of hits in this second so far, this one included: expiry
      never drops the running second, and never keeps a stale one. */
  lemma CountIsExact(hits: seq<Hit>, k: nat)
    requires Monotone(hits) && k < |hits| && StoreOk(hits, k, hits[k].project)
    ensures Counted(After(hits, k), hits[k]) == HitsIn(hits, hits[k].project, hits[k].at.Floor, k) + 1
  {
    hide After, HitsIn;
    var store, h := After(hits, k), hits[k];
    if h.project in store {
      var last := store[h.project].touched;
      FloorMonotone(last, h.at);
      if last.Floor < h.at.Floor {
        NoHitsSince(hits, h.project, last, h.at.Floor, k);
      }
    } else {
      NoHits(hits, h.project, h.at.Floor, k);
    }
  }

  lemma HitsInStep(hits: seq<Hit>, project: string, second: int, k: nat)
    requires 0 < k <= |hits|
    ensures HitsIn(hits, project, second, k)
            == HitsIn(hits, project, second, k - 1) + if InSecond(hits[k - 1], project, second) then 1 else 0
  {
  }

  /** A counted hit leaves its project's hash in order. */
  lemma CountedHashOk(hits: seq<Hit>, k: nat)
    requires Monotone(hits) && k < |hits| && StoreOk(hits, k, hits[k].project)
    ensures var h := hits[k];
            HashOk(hits, k + 1, h.project, Stored(After(hits, k), h)[h.project])
  {
    var h := hits[k];
    CountIsExact(hits, k);
    HitsInStep(hits, h.project, h.at.Floor, k + 1);
    NothingLater(hits, k);
    TouchedHashOk(hits, k, Fields(After(hits, k), h), Counted(After(hits, k), h));
    hide HashOk, After, Fields, Counted;
  }

  lemma TouchedHashOk(hits: seq<Hit>, k: nat, fields: map<int, nat>, count: nat)
    requires Monotone(hits) && k < |hits| && count == HitsIn(hits, hits[k].project, hits[k].at.Floor, k + 1)
    requires forall second: int | second > hits[k].at.Floor :: second !in fields
    ensures HashOk(hits, k + 1, hits[k].project, Hash(fields[hits[k].at.Floor := count], hits[k].at))
  {
    hide HitsIn;
  }

  /** Before a hit its project's live hash holds nothing later than the hit. */
  lemma NothingLater(hits: seq<Hit>, k: nat)
    requires Monotone(hits) && k < |hits| && StoreOk(hits, k, hits[k].project)
    ensures forall second: int | second > hits[k].at.Floor :: second !in Fields(After(hits, k), hits[k])
  {
    hide After, HitsIn;
    var store, h := After(hits, k), hits[k];
    if h.project in store {
      FloorMonotone(store[h.project].touched, h.at);
    }
  }

  /** A hit of another project leaves this one's hash in order. */
  lemma OtherHashOk(hits: seq<Hit>, k: nat, project: string, hash: Hash)
    requires k < |hits| && hits[k].project != project && HashOk(hits, k, project, hash)
    ensures HashOk(hits, k + 1, project, hash)
  {
  }

  lemma {:induction false} StoreIsOk(hits: seq<Hit>, k: nat, project: string)
    requires Monotone(hits) && k <= |hits|
    ensures StoreOk(hits, k, project)
  {
    if k > 0 {
      StoreIsOk(hits, k - 1, project);
      assert After(hits, k) == Stored(After(hits, k - 1), hits[k - 1]);
      hide After, HitsIn, HashOk;
      if hits[k - 1].project == project {
        CountedHashOk(hits, k - 1);
      } else if project in After(hits, k - 1) {
        OtherHashOk(hits, k - 1, project, After(hits, k - 1)[project]);
      }
    }
  }

  lemma SecondIsFloor(h: Hit, project: string, second: int)
    ensures InSecond(h, project, second) <==> h.project == project && h.at.Floor == second
  {
  }

  /** A hit is admitted exactly when fewer than 100 of its project's hits came before it in its second. */
  lemma AdmitsIff(hits: seq<Hit>, project: string, second: int, k: nat)
    requires Monotone(hits) && k < |hits| && InSecond(hits[k], project, second)
    ensures Admits(hits, k) <==> HitsIn(hits, project, second, k) < 100
  {
    hide After, Counted, StoreOk, InSecond, HitsIn;
    SecondIsFloor(hits[k], project, second);
    StoreIsOk(hits, k, project);
    CountIsExact(hits, k);
  }

  lemma AdmittedInStep(hits: seq<Hit>, project: string, second: int, k: nat)
    requires 0 < k <= |hits|
    ensures AdmittedIn(hits, project, second, k)
            == AdmittedIn(hits, project, second, k - 1) + if InSecond(hits[k - 1], project, second) && Admits(hits, k - 1) then 1 else 0
  {
  }

  /** The gateway admits exactly the first 100 hits of every project and second. */
  lemma {:induction false} AdmitsFirstHundred(hits: seq<Hit>, project: string, second: int, k: nat)
    requires Monotone(hits) && k <= |hits|
    ensures var n := HitsIn(hits, project, second, k);
            AdmittedIn(hits, project, second, k) == if n <= 100 then n else 100
  {
    if k > 0 {
      hide *;
      AdmitsFirstHundred(hits, project, second, k - 1);
      HitsInStep(hits, project, second, k);
      AdmittedInStep(hits, project, second, k);
      if InSecond(hits[k - 1], project, second) { AdmitsIff(hits, project, second, k - 1); }
    }
  }

  /** How many of the first k hits of a project were admitted in the window [from, from + 1). */
  function AdmittedInWindow(hits: seq<Hit>, project: string, from: real, k: nat): nat
    requires k <= |hits|
  {
    if k == 0 then 0
    else AdmittedInWindow(hits, project, from, k - 1)
         + if hits[k - 1].project == project && from <= hits[k - 1].at < from + 1.0 && Admits(hits, k - 1) then 1 else 0
  }

  lemma {:induction false} WindowSpansTwoSeconds(hits: seq<Hit>, project: string, from: real, k: nat)
    requires k <= |hits|
    ensures AdmittedInWindow(hits, project, from, k)
            <= AdmittedIn(hits, project, from.Floor, k) + AdmittedIn(hits, project, from.Floor + 1, k)
  {
    if k > 0 { WindowSpansTwoSeconds(hits, project, from, k - 1); }
  }

  /** Any one-second window, aligned or not, admits at most 200 requests of a project. */
  lemma AnyWindowAdmits200(hits: seq<Hit>, project: string, from: real)
    requires Monotone(hits)
    ensures AdmittedInWindow(hits, project, from, |hits|) <= 200
  {
    WindowSpansTwoSeconds(hits, project, from, |hits|);
    AdmitsFirstHundred(hits, project, from.Floor, |hits|);
    AdmitsFirstHundred(hits, project, from.Floor + 1, |hits|);
  }

  // ---------- the bound is attained ----------

  /** 100 requests at half a second, 100 at a second and a quarter. */
  function Burst(project: string): seq<Hit> {
    seq(200, i requires 0 <= i < 200 => Hit(project, if i < 100 then 0.5 else 1.25))
  }

  lemma {:induction false} BurstCounts(project: string, k: nat)
    requires k <= 200
    ensures HitsIn(Burst(project), project, 0, k) == if k <= 100 then k else 100
    ensures HitsIn(Burst(project), project, 1, k) == if k <= 100 then 0 else k - 100
    ensures AdmittedInWindow(Burst(project), project, 0.5, k)
            == AdmittedIn(Burst(project), project, 0, k) + AdmittedIn(Burst(project), project, 1, k)
  {
    if k > 0 { BurstCounts(project, k - 1); }
  }

  /** 200 is the best bound for such a window. */
  lemma TwoHundredIsAttained(project: string)
    ensures Monotone(Burst(project)) && AdmittedInWindow(Burst(project), project, 0.5, |Burst(project)|) == 200
  {
    BurstCounts(project, 200);
    AdmitsFirstHundred(Burst(project), project, 0, 200);
    AdmitsFirstHundred(Burst(project), project, 1, 200);
  }
}
