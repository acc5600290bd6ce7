/** Levenshtein distance and the error rates built on it (melp/metrics/speech.py). */
module Speech {
  import opened Wrappers
  import opened EditScripts
  import opened Sums
  import opened Arith

  function Min(x: nat, y: nat): nat { if x <= y then x else y }

  function Max(x: nat, y: nat): nat { if x <= y then y else x }

  /** The table entry the program computes for the prefixes `a` and `b`. */
  function Distance<T(==)>(a: seq<T>, b: seq<T>): nat
    decreases |a| + |b|
  {
    if a == [] then |b|
    else if b == [] then |a|
    else if Last(a) == Last(b) then Distance(Init(a), Init(b))
    else 1 + Min(Distance(Init(a), Init(b)), Min(Distance(a, Init(b)), Distance(Init(a), b)))
  }

  /** Dropping one token of either side moves the distance by at most one. This is what makes it
      safe for a match to take the diagonal without looking at the two other cells. */
  lemma {:induction false} DistanceIsLipschitz<T>(a: seq<T>, b: seq<T>)
    ensures a != [] ==> Distance(a, b) <= 1 + Distance(Init(a), b) && Distance(Init(a), b) <= 1 + Distance(a, b)
    ensures b != [] ==> Distance(a, b) <= 1 + Distance(a, Init(b)) && Distance(a, Init(b)) <= 1 + Distance(a, b)
    decreases |a| + |b|
  {
    if a != [] {
      DistanceIsLipschitz(Init(a), b);
    }
    if b != [] {
      DistanceIsLipschitz(a, Init(b));
    }
  }

  /** No script is cheaper than the table entry. */
  lemma {:induction false} NoScriptIsCheaper<T>(s: seq<Edit<T>>, a: seq<T>, b: seq<T>)
    requires Turns(s, a, b)
    ensures Distance(a, b) <= Cost(s)
    decreases |s|
  {
    if s != [] {
      var a' := if Last(s).Insert? then a else Init(a);
      var b' := if Last(s).Delete? then b else Init(b);
      NoScriptIsCheaper(Init(s), a', b');
      DistanceIsLipschitz(a, b);
      DistanceIsLipschitz(a', b);
    }
  }

  /** A cheapest script, read off the table. */
  function BestScript<T(==)>(a: seq<T>, b: seq<T>): seq<Edit<T>>
    decreases |a| + |b|
  {
    if a == [] && b == [] then []
    else if a == [] then BestScript(a, Init(b)) + [Insert(Last(b))]
    else if b == [] then BestScript(Init(a), b) + [Delete]
    else if Last(a) == Last(b) then BestScript(Init(a), Init(b)) + [Keep]
    else if Distance(a, b) == 1 + Distance(Init(a), Init(b)) then
      BestScript(Init(a), Init(b)) + [Substitute(Last(b))]
    else if Distance(a, b) == 1 + Distance(a, Init(b)) then BestScript(a, Init(b)) + [Insert(Last(b))]
    else BestScript(Init(a), b) + [Delete]
  }

  lemma {:induction false} BestScriptAttains<T>(a: seq<T>, b: seq<T>)
    ensures Turns(BestScript(a, b), a, b) && Cost(BestScript(a, b)) == Distance(a, b)
    decreases |a| + |b|
  {
    var s := BestScript(a, b);
    if s != [] {
      var a' := if Last(s).Insert? then a else Init(a);
      var b' := if Last(s).Delete? then b else Init(b);
      BestScriptAttains(a', b');
      ExtendScript(BestScript(a', b'), Last(s), a, b);
    }
  }

  /** Adding one last edit to a script. */
  lemma ExtendScript<T>(s: seq<Edit<T>>, e: Edit<T>, a: seq<T>, b: seq<T>)
    requires e.Insert? || a != []
    requires e.Delete? || b != []
    requires Turns(s, if e.Insert? then a else Init(a), if e.Delete? then b else Init(b))
    requires match e
             case Keep => Last(a) == Last(b)
             case Delete => true
             case Insert(x) => x == Last(b)
             case Substitute(x) => x == Last(b)
    ensures Turns(s + [e], a, b) && Cost(s + [e]) == Cost(s) + EditCost(e)
  {
    SnocFacts(s, e);
    assert !e.Delete? ==> b == Init(b) + [Last(b)];
  }

  lemma DistanceIsOptimal<T(!new)>(a: seq<T>, b: seq<T>)
    ensures IsEditDistance(a, b, Distance(a, b))
  {
    BestScriptAttains(a, b);
    forall s | Turns(s, a, b)
      ensures Distance(a, b) <= Cost(s)
    {
      NoScriptIsCheaper(s, a, b);
    }
  }

  // ---------- the distance is a metric ----------

  lemma {:induction false} ZeroIffEqual<T>(a: seq<T>, b: seq<T>)
    ensures Distance(a, b) == 0 <==> a == b
    decreases |a| + |b|
  {
    if a != [] && b != [] {
      ZeroIffEqual(Init(a), Init(b));
      assert a == Init(a) + [Last(a)] && b == Init(b) + [Last(b)];
    }
  }

  lemma {:induction false} Symmetric<T>(a: seq<T>, b: seq<T>)
    ensures Distance(a, b) == Distance(b, a)
    decreases |a| + |b|
  {
    if a != [] && b != [] {
      Symmetric(Init(a), Init(b));
      Symmetric(a, Init(b));
      Symmetric(Init(a), b);
    }
  }

  lemma Triangle<T>(a: seq<T>, b: seq<T>, c: seq<T>)
    ensures Distance(a, c) <= Distance(a, b) + Distance(b, c)
  {
    BestScriptAttains(a, b);
    BestScriptAttains(b, c);
    ComposeRunsBoth(BestScript(a, b), BestScript(b, c), a, b, c);
    NoScriptIsCheaper(Compose(BestScript(a, b), BestScript(b, c)), a, c);
  }

  lemma {:induction false} LengthBounds<T>(a: seq<T>, b: seq<T>)
    ensures |a| - |b| <= Distance(a, b) && |b| - |a| <= Distance(a, b) <= Max(|a|, |b|)
    decreases |a| + |b|
  {
    if a != [] && b != [] {
      LengthBounds(Init(a), Init(b));
      LengthBounds(a, Init(b));
      LengthBounds(Init(a), b);
    }
  }

  // ---------- the program ----------

  /** The entry for row `i` and column `j` of the full table. */
  function Cell<T(==)>(a: seq<T>, b: seq<T>, i: nat, j: nat): nat
    requires i <= |a| && j <= |b|
  {
    Distance(a[..i], b[..j])
  }

  lemma CellStep<T>(a: seq<T>, b: seq<T>, i: nat, j: nat)
    requires 1 <= i <= |a| && 1 <= j <= |b|
    ensures Cell(a, b, i, j) ==
            if a[i - 1] == b[j - 1] then Cell(a, b, i - 1, j - 1)
            else 1 + Min(Cell(a, b, i - 1, j - 1), Min(Cell(a, b, i, j - 1), Cell(a, b, i - 1, j)))
  {
    assert Init(a[..i]) == a[..i - 1] && Init(b[..j]) == b[..j - 1];
  }

  lemma CellEdges<T>(a: seq<T>, b: seq<T>, i: nat, j: nat)
    requires i <= |a| && j <= |b|
    ensures Cell(a, b, 0, j) == j && Cell(a, b, i, 0) == i
    ensures Cell(a, b, |a|, |b|) == Distance(a, b)
    ensures a == [] ==> Distance(a, b) == |b|
    ensures b == [] ==> Distance(a, b) == |a|
  {
    assert a[..|a|] == a && b[..|b|] == b;
  }

  lemma FirstRow<T>(a: seq<T>, b: seq<T>)
    ensures forall k | 0 <= k <= |b| :: Cell(a, b, 0, k) == k
  {
  }

  ghost predicate IsRow<T>(a: seq<T>, b: seq<T>, i: nat, dp: seq<nat>)
    requires i <= |a|
  {
    |dp| == |b| + 1 && forall k | 0 <= k <= |b| :: dp[k] == Cell(a, b, i, k)
  }

  /** The inner loop of `_edit_distance`: row i - 1 becomes row i in place. */
  method NextRow<T(==)>(a: seq<T>, b: seq<T>, i: nat, dp: array<nat>)
    requires 1 <= i <= |a| && IsRow(a, b, i - 1, dp[..])
    modifies dp
    ensures IsRow(a, b, i, dp[..])
  {
    var n := |b|;
    CellEdges(a, b, i, 0);
    hide Distance, Cell;
    var prev := dp[0];
    dp[0] := i;
    for j := 1 to n + 1
      invariant prev == Cell(a, b, i - 1, j - 1)
      invariant forall k | 0 <= k < j :: dp[k] == Cell(a, b, i, k)
      invariant forall k | j <= k <= n :: dp[k] == Cell(a, b, i - 1, k)
    {
      var cur := dp[j];
      CellStep(a, b, i, j);
      if a[i - 1] == b[j - 1] {
        dp[j] := prev;
      } else {
        dp[j] := 1 + Min(prev, Min(dp[j - 1], dp[j]));
      }
      prev := cur;
    }
  }

  /** `_edit_distance`: one row, overwritten in place. */
  method EditDistance<T(==, !new)>(a: seq<T>, b: seq<T>) returns (d: nat)
    ensures d == Distance(a, b)
    ensures IsEditDistance(a, b, d)
  {
    var m, n := |a|, |b|;
    DistanceIsOptimal(a, b);
    CellEdges(a, b, 0, 0);
    FirstRow(a, b);
    hide Distance, Cell, IsEditDistance;
    if m == 0 {
      return n;
    }
    if n == 0 {
      return m;
    }
    var dp := new nat[n + 1](i => i);
    for i := 1 to m + 1
      invariant dp.Length == n + 1 && fresh(dp)
      invariant IsRow(a, b, i - 1, dp[..])
    {
      NextRow(a, b, i, dp);
    }
    return dp[n];
  }

  /** The per-example error rate: edits per reference token, with the empty reference set apart. */
  function Rate<T(==)>(pred: seq<T>, ref: seq<T>): real {
    if ref == [] then
      if pred == [] then 0.0 else 1.0
    else
      Distance(ref, pred) as real / |ref| as real
  }

  lemma RateFacts<T>(pred: seq<T>, ref: seq<T>)
    ensures Rate(pred, ref) >= 0.0
    ensures Rate(pred, ref) == 0.0 <==> pred == ref
    ensures |pred| <= |ref| ==> Rate(pred, ref) <= 1.0
  {
    if ref != [] {
      ZeroIffEqual(ref, pred);
      LengthBounds(ref, pred);
      QuotientSign(Distance(ref, pred) as real, |ref| as real);
      QuotientOne(Distance(ref, pred) as real, |ref| as real);
    }
  }

  /** The rate is edits per reference token; any prediction for an empty reference counts as all wrong. */
  lemma RateInEdits<T>(pred: seq<T>, ref: seq<T>)
    ensures ref != [] ==> Rate(pred, ref) * |ref| as real == Distance(ref, pred) as real
    ensures ref == [] && pred != [] ==> Rate(pred, ref) == 1.0
  {
    hide Distance;
    if ref != [] { Quotient(Distance(ref, pred) as real, |ref| as real); }
  }

  /** `wer` and `cer` after tokenisation. A length mismatch raises, as `zip(strict=True)` does. */
  method ErrorRate<T(==, !new)>(preds: seq<seq<T>>, refs: seq<seq<T>>) returns (r: Result<(real, seq<real>), string>)
    ensures r.Err? <==> |preds| != |refs|
    ensures r.Ok? ==>
      && |r.value.1| == |refs|
      && (forall i | 0 <= i < |refs| :: r.value.1[i] == Rate(preds[i], refs[i]))
      && r.value.0 == Mean(r.value.1)
    ensures r.Ok? ==> (r.value.0 == 0.0 <==> preds == refs)
  {
    if |preds| != |refs| {
      return Err("length mismatch");
    }
    var per: seq<real> := [];
    for i := 0 to |refs|
      invariant |per| == i
      invariant forall k | 0 <= k < i :: per[k] == Rate(preds[k], refs[k])
    {
      if refs[i] == [] {
        per := per + [if preds[i] == [] then 0.0 else 1.0];
        continue;
      }
      var d := EditDistance(refs[i], preds[i]);
      per := per + [d as real / |refs[i]| as real];
    }
    forall k | 0 <= k < |per|
      ensures per[k] >= 0.0 && (per[k] == 0.0 <==> preds[k] == refs[k])
    {
      RateFacts(preds[k], refs[k]);
    }
    MeanZeroIff(per);
    return Ok((Mean(per), per));
  }
}
