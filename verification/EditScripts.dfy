/** Edit scripts over token sequences: what "turning a into b" means, with no dynamic program in
    sight. Speech.dfy proves that the one-row program computes an optimum over these scripts. */
module EditScripts {
  import opened Wrappers

  /** One edit. A script is read left to right; `Keep`, `Delete` and `Substitute` consume a token. */
  datatype Edit<T> = Keep | Delete | Insert(x: T) | Substitute(x: T)

  function Init<T>(s: seq<T>): seq<T>
    requires s != []
  {
    s[..|s| - 1]
  }

  function Last<T>(s: seq<T>): T
    requires s != []
  {
    s[|s| - 1]
  }

  /** The result of running a script on exactly the tokens of `a`, or None when it does not fit. */
  function Apply<T>(s: seq<Edit<T>>, a: seq<T>): Option<seq<T>> {
    if s == [] then
      if a == [] then Some([]) else None
    else
      match Last(s)
      case Insert(x) => Append(Apply(Init(s), a), x)
      case Delete => if a == [] then None else Apply(Init(s), Init(a))
      case Keep => if a == [] then None else Append(Apply(Init(s), Init(a)), Last(a))
      case Substitute(x) => if a == [] then None else Append(Apply(Init(s), Init(a)), x)
  }

  function Append<T>(r: Option<seq<T>>, x: T): Option<seq<T>> {
    match r
    case None => None
    case Some(b) => Some(b + [x])
  }

  function EditCost<T>(e: Edit<T>): nat {
    if e.Keep? then 0 else 1
  }

  function Cost<T>(s: seq<Edit<T>>): nat {
    if s == [] then 0 else Cost(Init(s)) + EditCost(Last(s))
  }

  ghost predicate Turns<T>(s: seq<Edit<T>>, a: seq<T>, b: seq<T>) {
    Apply(s, a) == Some(b)
  }

  /** `d` is the least cost of a script turning `a` into `b`. */
  ghost predicate IsEditDistance<T(!new)>(a: seq<T>, b: seq<T>, d: nat) {
    && (exists s :: Turns(s, a, b) && Cost(s) == d)
    && (forall s :: Turns(s, a, b) ==> d <= Cost(s))
  }

  lemma SnocFacts<T>(s: seq<T>, x: T)
    ensures Init(s + [x]) == s && Last(s + [x]) == x
  {
  }

  /** The composed script: what `t` does to the output of `s`, as one script on the input of `s`. */
  function Compose<T>(s: seq<Edit<T>>, t: seq<Edit<T>>): seq<Edit<T>>
    decreases |s| + |t|
  {
    if t != [] && Last(t).Insert? then
      Compose(s, Init(t)) + [Last(t)]
    else if s != [] && Last(s).Delete? then
      Compose(Init(s), t) + [Delete]
    else if s == [] || t == [] then
      []
    else
      var rest := Compose(Init(s), Init(t));
      match (Last(s), Last(t))
      case (Insert(_), Delete) => rest
      case (_, Delete) => rest + [Delete]
      case (_, Keep) => rest + [Last(s)]
      case (Insert(_), Substitute(y)) => rest + [Insert(y)]
      case (_, Substitute(y)) => rest + [Substitute(y)]
      case (_, Insert(_)) => rest
  }

  /** Running the composed script is running one script after the other, and costs no more. */
  lemma {:induction false} ComposeRunsBoth<T>(s: seq<Edit<T>>, t: seq<Edit<T>>, a: seq<T>, b: seq<T>, c: seq<T>)
    requires Turns(s, a, b) && Turns(t, b, c)
    ensures Turns(Compose(s, t), a, c)
    ensures Cost(Compose(s, t)) <= Cost(s) + Cost(t)
    decreases |s| + |t|
  {
    if t != [] && Last(t).Insert? {
      ComposeRunsBoth(s, Init(t), a, b, Init(c));
      SnocFacts(Compose(s, Init(t)), Last(t));
    } else if s != [] && Last(s).Delete? {
      ComposeRunsBoth(Init(s), t, Init(a), b, c);
      SnocFacts(Compose(Init(s), t), Delete);
    } else if s == [] || t == [] {
    } else {
      var a' := if Last(s).Insert? then a else Init(a);
      var c' := if Last(t).Delete? then c else Init(c);
      ComposeRunsBoth(Init(s), Init(t), a', Init(b), c');
      var rest := Compose(Init(s), Init(t));
      if |Compose(s, t)| > |rest| {
        SnocFacts(rest, Last(Compose(s, t)));
      }
    }
  }
}
