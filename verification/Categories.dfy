/** `np.unique` and counting per category. */
module Categories {
  import opened Sums
  import opened Bins

  ghost predicate Increasing(u: seq<int>) {
    forall k, l | 0 <= k < l < |u| :: u[k] < u[l]
  }

  lemma IncreasingCons(x: int, u: seq<int>)
    requires Increasing(u) && forall v | v in u :: x < v
    ensures Increasing([x] + u)
  {
    var r := [x] + u;
    forall k, l | 0 <= k < l < |r|
      ensures r[k] < r[l]
    {
      assert r[l] == u[l - 1] && u[l - 1] in u;
    }
  }

  function Insert(x: int, u: seq<int>): (r: seq<int>)
    requires Increasing(u)
    ensures Increasing(r)
    ensures forall v :: v in r <==> v == x || v in u
  {
    if u == [] then [x]
    else if x < u[0] then [x] + u
    else if x == u[0] then u
    else
      var r := Insert(x, u[1..]);
      IncreasingCons(u[0], r);
      [u[0]] + r
  }

  /** `np.unique`: the distinct values, increasing. */
  function Unique(xs: seq<int>): (u: seq<int>)
    ensures Increasing(u)
    ensures forall v :: v in u <==> v in xs
  {
    if xs == [] then [] else Insert(xs[0], Unique(xs[1..]))
  }

  /** Category k holds the positions of x carrying its value. */
  function Carries(x: seq<int>, cats: seq<int>): (nat, nat) -> bool {
    (k: nat, i: nat) => k < |cats| && i < |x| && x[i] == cats[k]
  }

  lemma CategoriesPartition(x: seq<int>, cats: seq<int>)
    requires Increasing(cats) && forall i | 0 <= i < |x| :: x[i] in cats
    ensures Disjoint(|cats|, |x|, Carries(x, cats)) && Covers(|cats|, |x|, Carries(x, cats))
  {
    forall i: nat | i < |x|
      ensures HasBin(|cats|, Carries(x, cats), i)
    {
      var k :| 0 <= k < |cats| && cats[k] == x[i];
      assert Carries(x, cats)(k, i);
    }
  }

  function Is(x: seq<int>, v: int): nat -> real {
    (i: nat) => if i < |x| then Indicator(x[i] == v) else 0.0
  }

  /** How many entries of x equal v. */
  function CountOf(x: seq<int>, v: int): real { Sum(|x|, Is(x, v)) }

  lemma CountBounds(x: seq<int>, v: int)
    ensures 0.0 <= CountOf(x, v) <= |x| as real
    ensures CountOf(x, v) == 0.0 <==> v !in x
    ensures CountOf(x, v) == |x| as real <==> forall i | 0 <= i < |x| :: x[i] == v
  {
    SumNonNegative(|x|, Is(x, v));
    var others := (i: nat) => 1.0 - Is(x, v)(i);
    SumNonNegative(|x|, others);
    SumConst(|x|, 1.0, _ => 1.0);
    SumLinear(|x|, 1.0, _ => 1.0, -1.0, Is(x, v), others);
    forall i: nat | i < |x|
      ensures Is(x, v)(i) == Indicator(x[i] == v) && others(i) == Indicator(x[i] != v)
    {
    }
  }

  /** Over all categories the counts add up to the length. */
  lemma CountsAddUp(x: seq<int>, cats: seq<int>, counts: nat -> real)
    requires Increasing(cats) && forall i | 0 <= i < |x| :: x[i] in cats
    requires forall k: nat | k < |cats| :: counts(k) == CountOf(x, cats[k])
    ensures Sum(|cats|, counts) == |x| as real
  {
    CategoriesPartition(x, cats);
    var one := (i: nat) => 1.0;
    forall k: nat | k < |cats|
      ensures counts(k) == BinTotal(|x|, Carries(x, cats), one, k)
    {
      SumEq(|x|, Is(x, cats[k]), Row(Cell(Carries(x, cats), one), k));
    }
    BinTotalsAddUp(|cats|, |x|, Carries(x, cats), one, counts);
    SumConst(|x|, 1.0, one);
  }

  lemma CountOfIsSize(x: seq<int>, v: int)
    ensures CountOf(x, v) == |set i: nat | i < |x| && x[i] == v| as real
  {
    SumCounts(|x|, Is(x, v), set i: nat | i < |x| && x[i] == v);
  }

  function ByEntry(f: int -> real, x: seq<int>): nat -> real {
    (i: nat) => if i < |x| then f(x[i]) else 0.0
  }

  function ByCategory(f: int -> real, x: seq<int>, cats: seq<int>): nat -> real {
    (k: nat) => if k < |cats| then f(cats[k]) * CountOf(x, cats[k]) else 0.0
  }

  lemma CategoryTotal(f: int -> real, x: seq<int>, cats: seq<int>, k: nat)
    requires k < |cats|
    ensures BinTotal(|x|, Carries(x, cats), ByEntry(f, x), k) == f(cats[k]) * CountOf(x, cats[k])
  {
    var c := cats[k];
    SumScale(|x|, f(c), Is(x, c), Row(Cell(Carries(x, cats), ByEntry(f, x)), k));
  }

  /** Summing f over the entries is summing it over the categories, each with its count. */
  lemma SumByCategory(f: int -> real, x: seq<int>, cats: seq<int>)
    requires Increasing(cats) && forall i | 0 <= i < |x| :: x[i] in cats
    ensures Sum(|cats|, ByCategory(f, x, cats)) == Sum(|x|, ByEntry(f, x))
  {
    CategoriesPartition(x, cats);
    forall k: nat | k < |cats|
      ensures ByCategory(f, x, cats)(k) == BinTotal(|x|, Carries(x, cats), ByEntry(f, x), k)
    {
      CategoryTotal(f, x, cats, k);
    }
    BinTotalsAddUp(|cats|, |x|, Carries(x, cats), ByEntry(f, x), ByCategory(f, x, cats));
  }
}
