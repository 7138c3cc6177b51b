/**
 Chains of successor links over a finite set of nodes.

 A heap of `p_next_desc` links is seen as a finite map: a node that is a key has a successor,
 a node that is not a key has a NULL link.  `Walk(m, x, k)` follows k links from x.  Everything
 the tortoise-and-hare diagnostics rely on is proved here, about the map alone.
 */
module Orbits {
  import opened Options
  import opened Arith

  /** The node reached from x after k links, or None once a NULL link has been met. */
  function Walk<T>(m: map<T, T>, x: T, k: nat): (r: Option<T>)
  {
    if k == 0 then Some(x)
    else match Walk(m, x, k - 1)
      case None => None
      case Some(y) => if y in m then Some(m[y]) else None
  }

  /** The chain from x never reaches NULL. */
  ghost predicate Endless<T>(m: map<T, T>, x: T)
  {
    forall k: nat :: Walk(m, x, k).Some?
  }

  /** Index i lies on the cycle: the walk comes back to the node it visits at step i. */
  ghost predicate OnCycle<T>(m: map<T, T>, x: T, i: nat)
  {
    exists j: nat :: j > i && Walk(m, x, j) == Walk(m, x, i)
  }

  /** mu is the first index of the walk that lies on the cycle. */
  ghost predicate IsFirstOnCycle<T>(m: map<T, T>, x: T, mu: nat)
  {
    && OnCycle(m, x, mu)
    && forall i: nat | i < mu :: !OnCycle(m, x, i)
  }

  /** lambda is the shortest distance after which the walk returns to the node at index i. */
  ghost predicate IsLeastPeriod<T>(m: map<T, T>, x: T, i: nat, lambda: nat)
  {
    && lambda >= 1
    && Walk(m, x, i + lambda) == Walk(m, x, i)
    && forall j: nat | i < j < i + lambda :: Walk(m, x, j) != Walk(m, x, i)
  }

  /** Two steps of an endless walk meet exactly when both are on the cycle, a multiple of lambda apart. */
  ghost predicate RhoShape<T>(m: map<T, T>, x: T, mu: nat, lambda: nat)
  {
    && lambda >= 1
    && forall i: nat, j: nat | i < j ::
         Walk(m, x, i) == Walk(m, x, j) <==> (mu <= i && (j - i) % lambda == 0)
  }

  lemma {:induction false} NoneIsFinal<T>(m: map<T, T>, x: T, i: nat, j: nat)
    requires i <= j && Walk(m, x, i).None?
    ensures Walk(m, x, j).None?
    decreases j - i
  {
    if i < j {
      NoneIsFinal(m, x, i, j - 1);
    }
  }

  /** Walks that meet stay together. */
  lemma {:induction false} MeetForever<T>(m: map<T, T>, x: T, i: nat, j: nat, k: nat)
    requires Walk(m, x, i) == Walk(m, x, j)
    ensures Walk(m, x, i + k) == Walk(m, x, j + k)
  {
    if k > 0 {
      MeetForever(m, x, i, j, k - 1);
      assert i + k - 1 == i + (k - 1) && j + k - 1 == j + (k - 1);
    }
  }

  /** A walk that ever visits a node twice never reaches NULL. */
  lemma RepeatMeansEndless<T>(m: map<T, T>, x: T, i: nat, j: nat)
    requires i < j && Walk(m, x, i) == Walk(m, x, j) && Walk(m, x, j).Some?
    ensures Endless(m, x)
  {
    forall k: nat
      ensures Walk(m, x, k).Some?
    {
      SomeAfterRepeat(m, x, i, j, k);
    }
  }

  lemma {:induction false} SomeAfterRepeat<T>(m: map<T, T>, x: T, i: nat, j: nat, k: nat)
    requires i < j && Walk(m, x, i) == Walk(m, x, j) && Walk(m, x, j).Some?
    ensures Walk(m, x, k).Some?
    decreases k
  {
    if k <= j {
      if Walk(m, x, k).None? { NoneIsFinal(m, x, k, j); }
    } else {
      SomeAfterRepeat(m, x, i, j, i + (k - j));
      MeetForever(m, x, i, j, k - j);
    }
  }

  /** index records, for each of the first n nodes of the walk, the step that visits it; so they are distinct. */
  ghost predicate Visited<T>(m: map<T, T>, x: T, n: nat, index: map<T, nat>)
  {
    && index.Keys <= m.Keys
    && (forall y | y in index :: index[y] < n && Walk(m, x, index[y]) == Some(y))
    && (forall a: nat | a < n :: Walk(m, x, a).Some? && Walk(m, x, a).value in index)
    && (forall a: nat | a < n :: index[Walk(m, x, a).value] == a)
  }

  lemma VisitNext<T>(m: map<T, T>, x: T, n: nat, index: map<T, nat>)
    requires Walk(m, x, n).Some? && Walk(m, x, n).value in m
    requires Visited(m, x, n, index) && Walk(m, x, n).value !in index
    ensures Visited(m, x, n + 1, index[Walk(m, x, n).value := n]) && Walk(m, x, n).value in m.Keys - index.Keys
    ensures |index| == n ==> |index[Walk(m, x, n).value := n]| == n + 1
  {
    var y := Walk(m, x, n).value;
    var after := index[y := n];
    assert after.Keys == index.Keys + {y};
    forall a: nat | a < n + 1
      ensures Walk(m, x, a).Some? && Walk(m, x, a).value in after && after[Walk(m, x, a).value] == a
    {
      if a < n { assert index[Walk(m, x, a).value] == a; }
    }
  }

  /** The nodes visited are distinct. */
  lemma VisitedOnce<T>(m: map<T, T>, x: T, n: nat, index: map<T, nat>, a: nat, b: nat)
    requires Visited(m, x, n, index) && a < b < n
    ensures Walk(m, x, a) != Walk(m, x, b)
  {
    assert index[Walk(m, x, a).value] == a && index[Walk(m, x, b).value] == b;
  }

  /** mu and mu + lambda are the first pair of steps at which the walk visits the same node. */
  ghost predicate FirstPair<T>(m: map<T, T>, x: T, mu: nat, lambda: nat)
  {
    && lambda >= 1 && mu + lambda <= |m|
    && Walk(m, x, mu).Some? && Walk(m, x, mu) == Walk(m, x, mu + lambda)
    && forall a: nat, b: nat | a < b < mu + lambda :: Walk(m, x, a) != Walk(m, x, b)
  }

  lemma FoundRepeat<T>(m: map<T, T>, x: T, n: nat, index: map<T, nat>) returns (mu: nat, lambda: nat)
    requires Visited(m, x, n, index) && |index| == n && Walk(m, x, n).Some? && Walk(m, x, n).value in index
    ensures FirstPair(m, x, mu, lambda)
  {
    mu := index[Walk(m, x, n).value];
    lambda := n - mu;
    VisitedFits(m, x, n, index);
    forall a: nat, b: nat | a < b < n
      ensures Walk(m, x, a) != Walk(m, x, b)
    {
      VisitedOnce(m, x, n, index, a, b);
    }
  }

  /** Pigeonhole: a walk over finitely many nodes reaches NULL at some step k, or it repeats, mu and mu + lambda being the
   first pair. */
  lemma {:induction false} EndsOrRepeats<T>(m: map<T, T>, x: T, n: nat, index: map<T, nat>)
    returns (k: nat, mu: nat, lambda: nat)
    requires Visited(m, x, n, index) && |index| == n && Walk(m, x, n).Some?
    ensures k > 0 ==> k <= |m| + 1 && Walk(m, x, k).None?
    ensures k == 0 ==> FirstPair(m, x, mu, lambda)
    decreases m.Keys - index.Keys
  {
    k, mu, lambda := 0, 0, 0;
    var y := Walk(m, x, n).value;
    if y !in m {
      VisitedFits(m, x, n, index);
      k := n + 1;
    } else if y in index {
      mu, lambda := FoundRepeat(m, x, n, index);
    } else {
      VisitNext(m, x, n, index);
      k, mu, lambda := EndsOrRepeats(m, x, n + 1, index[y := n]);
    }
  }

  lemma VisitedFits<T>(m: map<T, T>, x: T, n: nat, index: map<T, nat>)
    requires Visited(m, x, n, index) && |index| == n
    ensures n <= |m|
  {
    SubsetSize(index.Keys, m.Keys);
  }

  lemma SubsetSize<T>(a: set<T>, b: set<T>)
    requires a <= b
    ensures |a| <= |b|
  {
    assert b == a + (b - a);
  }

  /** Past mu the walk goes round: index i visits the same node as its residue inside the first lap. */
  lemma {:induction false} FirstLap<T>(m: map<T, T>, x: T, mu: nat, lambda: nat, i: nat)
    requires lambda >= 1 && Walk(m, x, mu) == Walk(m, x, mu + lambda) && mu <= i
    ensures Walk(m, x, i) == Walk(m, x, mu + (i - mu) % lambda)
    decreases i
  {
    if i - mu >= lambda {
      FirstLap(m, x, mu, lambda, i - lambda);
      AddLap(i - mu - lambda, lambda);
      MeetForever(m, x, mu, mu + lambda, i - mu - lambda);
    } else {
      DivModUnique(i - mu, lambda, 0, i - mu);
    }
  }

  lemma FirstRepeatGivesShape<T>(m: map<T, T>, x: T, mu: nat, lambda: nat)
    requires lambda >= 1 && Walk(m, x, mu) == Walk(m, x, mu + lambda)
    requires forall a: nat, b: nat | a < b < mu + lambda :: Walk(m, x, a) != Walk(m, x, b)
    ensures RhoShape(m, x, mu, lambda)
  {
    forall i: nat, j: nat | i < j
      ensures Walk(m, x, i) == Walk(m, x, j) <==> (mu <= i && (j - i) % lambda == 0)
    {
      if mu <= j {
        FirstLap(m, x, mu, lambda, j);
        if mu <= i {
          FirstLap(m, x, mu, lambda, i);
          SameResidue(i - mu, j - mu, lambda);
        }
      }
    }
  }

  /** Every endless chain over finitely many nodes is a tail of mu nodes leading into a cycle of lambda nodes. */
  lemma EndlessHasShape<T>(m: map<T, T>, x: T) returns (mu: nat, lambda: nat)
    requires Endless(m, x)
    ensures RhoShape(m, x, mu, lambda)
    ensures IsFirstOnCycle(m, x, mu) && IsLeastPeriod(m, x, mu, lambda) && mu + lambda <= |m|
  {
    var k;
    k, mu, lambda := EndsOrRepeats(m, x, 0, map[]);
    FirstRepeatGivesShape(m, x, mu, lambda);
    ShapeIsLeast(m, x, mu, lambda);
  }

  lemma ShapeIsLeast<T>(m: map<T, T>, x: T, mu: nat, lambda: nat)
    requires RhoShape(m, x, mu, lambda)
    ensures IsFirstOnCycle(m, x, mu) && IsLeastPeriod(m, x, mu, lambda)
  {
    assert (mu + lambda - mu) % lambda == 0 by { DivModUnique(lambda, lambda, 1, 0); }
    assert Walk(m, x, mu + lambda) == Walk(m, x, mu);
    forall j: nat | mu < j < mu + lambda
      ensures Walk(m, x, j) != Walk(m, x, mu)
    {
      DivModUnique(j - mu, lambda, 0, j - mu);
    }
  }

  /** mu and lambda are determined by the chain. */
  lemma ShapeIsUnique<T>(m: map<T, T>, x: T, mu: nat, lambda: nat, mu': nat, lambda': nat)
    requires RhoShape(m, x, mu, lambda)
    requires IsFirstOnCycle(m, x, mu') && IsLeastPeriod(m, x, mu', lambda')
    ensures mu == mu' && lambda == lambda'
  {
    ShapeIsLeast(m, x, mu, lambda);
  }

  /** Some positive step at which the tortoise (t links) and the hare (2t links) stand on the same node. */
  lemma MeetingPoint<T>(m: map<T, T>, x: T, mu: nat, lambda: nat) returns (t: nat)
    requires RhoShape(m, x, mu, lambda)
    ensures 1 <= t <= mu + lambda && mu <= t && t % lambda == 0 && Walk(m, x, t) == Walk(m, x, 2 * t)
  {
    t := lambda;
    DivModUnique(lambda, lambda, 1, 0);
    while t < mu
      invariant 1 <= t <= mu + lambda && t % lambda == 0
      decreases mu - t
    {
      AddLap(t, lambda);
      t := t + lambda;
    }
    assert (2 * t - t) % lambda == 0;
  }

  // ------------------------------------------------------------------ pushing onto a list

  function Next<T>(m: map<T, T>, y: T): (r: Option<T>) { if y in m then Some(m[y]) else None }

  /** The list from x visits exactly the nodes of s, in order, and ends. */
  ghost predicate Lists<T>(m: map<T, T>, x: Option<T>, s: seq<T>)
    decreases |s|
  {
    if s == [] then x.None?
    else x == Some(s[0]) && s[0] !in s[1..] && Lists(m, Next(m, s[0]), s[1..])
  }

  /** The links after pushing b in front of the list from x. */
  function Pushed<T>(m: map<T, T>, x: Option<T>, b: T): (r: map<T, T>)
  {
    match x
    case None => m - {b}
    case Some(h) => m[b := h]
  }

  lemma {:induction false} WalkAlong<T>(m: map<T, T>, m': map<T, T>, x: T, s: seq<T>, j: nat)
    requires Lists(m, Some(x), s) && j < |s| && forall i | 0 <= i < j :: Next(m', s[i]) == Next(m, s[i])
    ensures Walk(m', x, j) == Some(s[j])
    decreases j
  {
    if j > 0 {
      WalkAlong(m, m', x, s, j - 1);
      ListStep(m, Some(x), s, j - 1);
    }
  }

  lemma {:induction false} ListStep<T>(m: map<T, T>, x: Option<T>, s: seq<T>, j: nat)
    requires Lists(m, x, s) && j < |s|
    ensures Next(m, s[j]) == if j + 1 < |s| then Some(s[j + 1]) else None
    ensures forall i | 0 <= i < j :: s[i] != s[j]
    decreases j
  {
    if j > 0 {
      ListStep(m, Next(m, s[0]), s[1..], j - 1);
      assert s[j] in s[1..];
      forall i | 0 <= i < j
        ensures s[i] != s[j]
      {
        if i > 0 { assert s[i] == s[1..][i - 1]; }
      }
    }
  }

  lemma {:induction false} WalkSplit<T>(m: map<T, T>, x: T, y: T, k: nat)
    requires Next(m, x) == Some(y)
    ensures Walk(m, x, k + 1) == Walk(m, y, k)
  {
    if k > 0 { WalkSplit(m, x, y, k - 1); }
  }

  /** Pushing b onto a list makes a circle if and only if b is on the list already. */
  lemma PushMakesCircleIff<T>(m: map<T, T>, x: Option<T>, s: seq<T>, b: T)
    requires Lists(m, x, s)
    ensures Endless(Pushed(m, x, b), b) <==> b in s
  {
    var m' := Pushed(m, x, b);
    if b in s {
      var j :| 0 <= j < |s| && s[j] == b;
      ListStep(m, x, s, j);
      WalkAlong(m, m', s[0], s, j);
      WalkSplit(m', b, s[0], j);
      RepeatMeansEndless(m', b, 0, j + 1);
    } else if s == [] {
      assert Walk(m', b, 1).None?;
    } else {
      var n := |s| - 1;
      WalkAlong(m, m', s[0], s, n);
      ListStep(m, x, s, n);
      assert Walk(m', s[0], n + 1).None?;
      WalkSplit(m', b, s[0], n + 1);
      assert Walk(m', b, n + 2).None?;
    }
  }
}
