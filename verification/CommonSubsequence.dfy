/** Longest common subsequence (melp/metrics/text.py) and its bracket on the edit distance. */
module CommonSubsequence {
  import opened EditScripts
  import Speech

  // ---------- longest common subsequence ----------

  /** `ix` embeds `s` in `a`: increasing positions of `a` that spell `s`. */
  ghost predicate Embeds<T>(ix: seq<nat>, s: seq<T>, a: seq<T>) {
    && |ix| == |s|
    && (forall k | 0 <= k < |ix| :: ix[k] < |a| && a[ix[k]] == s[k])
    && (forall k, l | 0 <= k < l < |ix| :: ix[k] < ix[l])
  }

  ghost predicate IsSubsequence<T>(s: seq<T>, a: seq<T>) {
    exists ix :: Embeds(ix, s, a)
  }

  /** The table entry the program computes for the prefixes `a` and `b`. */
  function Lcs<T(==)>(a: seq<T>, b: seq<T>): nat
    decreases |a| + |b|
  {
    if a == [] || b == [] then 0
    else if Last(a) == Last(b) then Lcs(Init(a), Init(b)) + 1
    else Speech.Max(Lcs(Init(a), b), Lcs(a, Init(b)))
  }

  ghost predicate IsLcsLength<T(!new)>(a: seq<T>, b: seq<T>, n: nat) {
    && (exists s :: IsSubsequence(s, a) && IsSubsequence(s, b) && |s| == n)
    && (forall s :: IsSubsequence(s, a) && IsSubsequence(s, b) ==> |s| <= n)
  }

  lemma EmptyIsSubsequence<T>(a: seq<T>)
    ensures IsSubsequence([], a)
  {
    assert Embeds([], [], a);
  }

  lemma SubsequenceOfLonger<T>(s: seq<T>, a: seq<T>)
    requires a != [] && IsSubsequence(s, Init(a))
    ensures IsSubsequence(s, a)
  {
    var ix: seq<nat> :| Embeds(ix, s, Init(a));
    assert Embeds(ix, s, a);
  }

  lemma SubsequenceSnoc<T>(s: seq<T>, a: seq<T>)
    requires a != [] && IsSubsequence(s, Init(a))
    ensures IsSubsequence(s + [Last(a)], a)
  {
    var ix: seq<nat> :| Embeds(ix, s, Init(a));
    var longer: seq<nat> := ix + [|a| - 1];
    assert Embeds(longer, s + [Last(a)], a);
  }

  /** Peeling: either the last tokens match up, or the last token of `a` is not used. */
  lemma SubsequencePeel<T>(s: seq<T>, a: seq<T>)
    requires s != [] && IsSubsequence(s, a)
    ensures a != []
    ensures IsSubsequence(Init(s), Init(a))
    ensures Last(s) != Last(a) ==> IsSubsequence(s, Init(a))
  {
    var ix: seq<nat> :| Embeds(ix, s, a);
    var top := ix[|ix| - 1];
    assert a[top] == s[|s| - 1];
    assert forall k | 0 <= k < |ix| - 1 :: ix[k] < top;
    var shorter: seq<nat> := Init(ix);
    assert Embeds(shorter, Init(s), Init(a));
    if Last(s) != Last(a) {
      assert Embeds(ix, s, Init(a));
    }
  }

  lemma {:induction false} NoLongerCommonSubsequence<T>(s: seq<T>, a: seq<T>, b: seq<T>)
    requires IsSubsequence(s, a) && IsSubsequence(s, b)
    ensures |s| <= Lcs(a, b)
    decreases |a| + |b|
  {
    if s != [] {
      SubsequencePeel(s, a);
      SubsequencePeel(s, b);
      if Last(a) == Last(b) {
        NoLongerCommonSubsequence(Init(s), Init(a), Init(b));
      } else if Last(s) != Last(a) {
        NoLongerCommonSubsequence(s, Init(a), b);
      } else {
        NoLongerCommonSubsequence(s, a, Init(b));
      }
    }
  }

  lemma {:induction false} LcsWitness<T>(a: seq<T>, b: seq<T>) returns (s: seq<T>)
    ensures IsSubsequence(s, a) && IsSubsequence(s, b) && |s| == Lcs(a, b)
    decreases |a| + |b|
  {
    if a == [] || b == [] {
      EmptyIsSubsequence(a);
      EmptyIsSubsequence(b);
      s := [];
    } else if Last(a) == Last(b) {
      s := LcsWitness(Init(a), Init(b));
      SubsequenceSnoc(s, a);
      SubsequenceSnoc(s, b);
      s := s + [Last(a)];
    } else if Lcs(a, b) == Lcs(Init(a), b) {
      s := LcsWitness(Init(a), b);
      SubsequenceOfLonger(s, a);
    } else {
      s := LcsWitness(a, Init(b));
      SubsequenceOfLonger(s, b);
    }
  }

  lemma LcsIsOptimal<T(!new)>(a: seq<T>, b: seq<T>)
    ensures IsLcsLength(a, b, Lcs(a, b))
  {
    var s := LcsWitness(a, b);
    forall s | IsSubsequence(s, a) && IsSubsequence(s, b)
      ensures |s| <= Lcs(a, b)
    {
      NoLongerCommonSubsequence(s, a, b);
    }
  }

  /** The two programs bracket each other. */
  lemma {:induction false} LcsBracketsDistance<T>(a: seq<T>, b: seq<T>)
    ensures Lcs(a, b) <= |a| && Lcs(a, b) <= |b|
    ensures Speech.Max(|a|, |b|) - Lcs(a, b) <= Speech.Distance(a, b) <= |a| + |b| - 2 * Lcs(a, b)
    decreases |a| + |b|
  {
    if a != [] && b != [] {
      LcsBracketsDistance(Init(a), Init(b));
      LcsBracketsDistance(a, Init(b));
      LcsBracketsDistance(Init(a), b);
      LcsGrows(a, b);
    }
  }

  lemma LcsGrows<T>(a: seq<T>, b: seq<T>)
    requires a != [] && b != []
    ensures Lcs(Init(a), Init(b)) <= Lcs(a, b)
    ensures Lcs(a, Init(b)) <= Lcs(a, b) && Lcs(Init(a), b) <= Lcs(a, b)
  {
    var s := LcsWitness(Init(a), Init(b));
    SubsequenceOfLonger(s, a);
    SubsequenceOfLonger(s, b);
    NoLongerCommonSubsequence(s, a, b);
    s := LcsWitness(a, Init(b));
    SubsequenceOfLonger(s, b);
    NoLongerCommonSubsequence(s, a, b);
    s := LcsWitness(Init(a), b);
    SubsequenceOfLonger(s, a);
    NoLongerCommonSubsequence(s, a, b);
  }

  /** A full-length common subsequence is both sequences. */
  lemma LcsFullIffEqual<T>(a: seq<T>, b: seq<T>)
    ensures Lcs(a, b) == |a| == |b| <==> a == b
  {
    LcsBracketsDistance(a, b);
    Speech.ZeroIffEqual(a, b);
  }

  lemma LcsSymmetric<T>(a: seq<T>, b: seq<T>)
    ensures Lcs(a, b) == Lcs(b, a)
  {
  }

  function Cell<T(==)>(a: seq<T>, b: seq<T>, i: nat, j: nat): nat
    requires i <= |a| && j <= |b|
  {
    Lcs(a[..i], b[..j])
  }

  lemma CellStep<T>(a: seq<T>, b: seq<T>, i: nat, j: nat)
    requires 1 <= i <= |a| && 1 <= j <= |b|
    ensures Cell(a, b, i, j) ==
            if a[i - 1] == b[j - 1] then Cell(a, b, i - 1, j - 1) + 1
            else Speech.Max(Cell(a, b, i - 1, j), Cell(a, b, i, j - 1))
  {
    assert Init(a[..i]) == a[..i - 1] && Init(b[..j]) == b[..j - 1];
  }

  /** `_lcs_length`: the full table, filled row by row. */
  method LcsLength<T(==, !new)>(a: seq<T>, b: seq<T>) returns (r: nat)
    ensures r == Lcs(a, b)
    ensures IsLcsLength(a, b, r)
  {
    var m, n := |a|, |b|;
    LcsIsOptimal(a, b);
    if m == 0 || n == 0 {
      return 0;
    }
    var dp := new nat[m + 1, n + 1]((_, _) => 0);
    for i := 1 to m + 1
      invariant forall l, k | 0 <= l < i && 0 <= k <= n :: dp[l, k] == Cell(a, b, l, k)
      invariant forall l | 0 <= l <= m :: dp[l, 0] == 0
    {
      for j := 1 to n + 1
        invariant forall l, k | 0 <= l < i && 0 <= k <= n :: dp[l, k] == Cell(a, b, l, k)
        invariant forall l | 0 <= l <= m :: dp[l, 0] == 0
        invariant forall k | 0 <= k < j :: dp[i, k] == Cell(a, b, i, k)
      {
        CellStep(a, b, i, j);
        if a[i - 1] == b[j - 1] {
          dp[i, j] := dp[i - 1, j - 1] + 1;
        } else {
          dp[i, j] := Speech.Max(dp[i - 1, j], dp[i, j - 1]);
        }
      }
    }
    assert a[..m] == a && b[..n] == b;
    return dp[m, n];
  }
}
