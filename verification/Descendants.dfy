/** Which transactions of a list depend on a transaction, and what is left of the list without them. */
module Descendants {
  import opened Transaction

  predicate IsChild(allTx: map<Hash, Tx>, t: Hash, p: Hash) {
    t in allTx && exists j :: 0 <= j < |allTx[t].inputs| && allTx[t].inputs[j].txHash == p
  }

  /** h is reached from x by n steps, each to a transaction of the list that spends from the one before. */
  ghost predicate ReachedIn(allTx: map<Hash, Tx>, list: seq<Hash>, x: Hash, h: Hash, n: nat)
    decreases n
  {
    if n == 0 then x == h
    else exists t :: t in list && IsChild(allTx, t, x) && ReachedIn(allTx, list, t, h, n - 1)
  }

  /** h is x itself or depends on x through transactions of the list. */
  ghost predicate Descends(allTx: map<Hash, Tx>, list: seq<Hash>, x: Hash, h: Hash) {
    exists n: nat :: ReachedIn(allTx, list, x, h, n)
  }

  ghost predicate Survives(allTx: map<Hash, Tx>, list: seq<Hash>, roots: set<Hash>, h: Hash) {
    forall x :: x in roots ==> !Descends(allTx, list, x, h)
  }

  /** Those of some transactions that do not depend on any of the roots through the list, in order. */
  ghost function Survivors(allTx: map<Hash, Tx>, list: seq<Hash>, from: seq<Hash>, roots: set<Hash>): seq<Hash> {
    if from == [] then []
    else
      var last := from[|from| - 1];
      Survivors(allTx, list, from[..|from| - 1], roots) + if Survives(allTx, list, roots, last) then [last] else []
  }

  lemma {:induction false} SurvivorsAre(allTx: map<Hash, Tx>, list: seq<Hash>, from: seq<Hash>, roots: set<Hash>)
    ensures forall h :: h in Survivors(allTx, list, from, roots) <==> h in from && Survives(allTx, list, roots, h)
    ensures |Survivors(allTx, list, from, roots)| <= |from|
    ensures (exists h :: h in from && !Survives(allTx, list, roots, h)) ==>
              |Survivors(allTx, list, from, roots)| < |from|
  {
    hide Survives;
    if from != [] {
      var init, last := from[..|from| - 1], from[|from| - 1];
      SurvivorsAre(allTx, list, init, roots);
      assert from == init + [last];
    }
  }

  lemma {:induction false} ChainJoins(allTx: map<Hash, Tx>, list: seq<Hash>, x: Hash, y: Hash, z: Hash, n: nat, m: nat)
    requires ReachedIn(allTx, list, x, y, n) && ReachedIn(allTx, list, y, z, m)
    ensures ReachedIn(allTx, list, x, z, n + m)
    decreases n
  {
    if n > 0 {
      var t :| t in list && IsChild(allTx, t, x) && ReachedIn(allTx, list, t, y, n - 1);
      ChainJoins(allTx, list, t, y, z, n - 1, m);
    }
  }

  lemma DescendsJoins(allTx: map<Hash, Tx>, list: seq<Hash>, x: Hash, y: Hash, z: Hash)
    requires Descends(allTx, list, x, y) && Descends(allTx, list, y, z)
    ensures Descends(allTx, list, x, z)
  {
    var n: nat :| ReachedIn(allTx, list, x, y, n);
    var m: nat :| ReachedIn(allTx, list, y, z, m);
    ChainJoins(allTx, list, x, y, z, n, m);
  }

  lemma ChildDescends(allTx: map<Hash, Tx>, list: seq<Hash>, x: Hash, t: Hash)
    requires t in list && IsChild(allTx, t, x)
    ensures Descends(allTx, list, x, t)
  {
    assert ReachedIn(allTx, list, t, t, 0);
    assert ReachedIn(allTx, list, x, t, 1);
  }

  lemma {:induction false} ChainInLarger(allTx: map<Hash, Tx>, list: seq<Hash>, larger: seq<Hash>, x: Hash, h: Hash,
                                         n: nat)
    requires ReachedIn(allTx, list, x, h, n) && forall t :: t in list ==> t in larger
    ensures ReachedIn(allTx, larger, x, h, n)
    decreases n
  {
    if n > 0 {
      var t :| t in list && IsChild(allTx, t, x) && ReachedIn(allTx, list, t, h, n - 1);
      ChainInLarger(allTx, list, larger, t, h, n - 1);
    }
  }

  /** A chain to a survivor runs through survivors only. */
  lemma {:induction false} ChainSurvives(allTx: map<Hash, Tx>, list: seq<Hash>, roots: set<Hash>, rest: seq<Hash>,
                                         x: Hash, h: Hash, n: nat)
    requires ReachedIn(allTx, list, x, h, n) && Survives(allTx, list, roots, h)
    requires forall t :: t in list && Survives(allTx, list, roots, t) ==> t in rest
    ensures ReachedIn(allTx, rest, x, h, n)
    decreases n
  {
    if n > 0 {
      var t :| t in list && IsChild(allTx, t, x) && ReachedIn(allTx, list, t, h, n - 1);
      assert Descends(allTx, list, t, h);
      forall r | r in roots ensures !Descends(allTx, list, r, t) {
        if Descends(allTx, list, r, t) {
          DescendsJoins(allTx, list, r, t, h);
        }
      }
      ChainSurvives(allTx, list, roots, rest, t, h, n - 1);
    }
  }

  /** Surviving first some roots and then, in what is left, others is surviving all of them. */
  lemma SurvivesBoth(allTx: map<Hash, Tx>, list: seq<Hash>, a: set<Hash>, b: set<Hash>, h: Hash)
    requires Survives(allTx, list, a, h)
    ensures Survives(allTx, Survivors(allTx, list, list, a), b, h) <==> Survives(allTx, list, a + b, h)
  {
    var rest := Survivors(allTx, list, list, a);
    SurvivorsAre(allTx, list, list, a);
    hide Survivors, Survives;
    forall x ensures Descends(allTx, rest, x, h) <==> Descends(allTx, list, x, h) {
      if Descends(allTx, rest, x, h) {
        var n: nat :| ReachedIn(allTx, rest, x, h, n);
        ChainInLarger(allTx, rest, list, x, h, n);
      } else if Descends(allTx, list, x, h) {
        var n: nat :| ReachedIn(allTx, list, x, h, n);
        ChainSurvives(allTx, list, a, rest, x, h, n);
      }
    }
    SurvivesAlike(allTx, list, rest, a, b, h);
  }

  lemma SurvivesAlike(allTx: map<Hash, Tx>, list: seq<Hash>, rest: seq<Hash>, a: set<Hash>, b: set<Hash>, h: Hash)
    requires Survives(allTx, list, a, h)
    requires forall x :: Descends(allTx, rest, x, h) <==> Descends(allTx, list, x, h)
    ensures Survives(allTx, rest, b, h) <==> Survives(allTx, list, a + b, h)
  {
    hide Descends;
  }

  /** Taking out some roots and then others takes out all of them. */
  lemma {:induction false} SurvivorsTwice(allTx: map<Hash, Tx>, list: seq<Hash>, from: seq<Hash>, a: set<Hash>,
                                          b: set<Hash>)
    ensures Survivors(allTx, Survivors(allTx, list, list, a), Survivors(allTx, list, from, a), b)
         == Survivors(allTx, list, from, a + b)
    decreases |from|
  {
    hide Survives;
    if from != [] {
      var init, last := from[..|from| - 1], from[|from| - 1];
      SurvivorsTwice(allTx, list, init, a, b);
      if Survives(allTx, list, a, last) {
        SurvivesBoth(allTx, list, a, b, last);
        var rest := Survivors(allTx, list, init, a);
        assert (rest + [last])[..|rest|] == rest;
      } else {
        FewerSurvive(allTx, list, a, b, last);
        assert Survivors(allTx, list, from, a) == Survivors(allTx, list, init, a);
      }
    }
  }

  lemma FewerSurvive(allTx: map<Hash, Tx>, list: seq<Hash>, a: set<Hash>, b: set<Hash>, h: Hash)
    requires !Survives(allTx, list, a, h)
    ensures !Survives(allTx, list, a + b, h)
  {
    hide Descends;
  }

  /** Roots that depend on another root add nothing to it. */
  lemma {:induction false} DependentRoots(allTx: map<Hash, Tx>, list: seq<Hash>, from: seq<Hash>, x: Hash, a: set<Hash>)
    requires forall r :: r in a ==> Descends(allTx, list, x, r)
    ensures Survivors(allTx, list, from, a + {x}) == Survivors(allTx, list, from, {x})
  {
    hide Descends;
    if from != [] {
      var last := from[|from| - 1];
      DependentRoots(allTx, list, from[..|from| - 1], x, a);
      forall r | r in a && Descends(allTx, list, r, last) ensures Descends(allTx, list, x, last) {
        DescendsJoins(allTx, list, x, r, last);
      }
    }
  }

  lemma ChildlessReachesItself(allTx: map<Hash, Tx>, list: seq<Hash>, x: Hash, h: Hash)
    requires forall t :: t in list ==> !IsChild(allTx, t, x)
    ensures Survives(allTx, list, {x}, h) <==> h != x
  {
    assert ReachedIn(allTx, list, x, x, 0);
    assert forall n: nat :: n > 0 ==> !ReachedIn(allTx, list, x, h, n);
  }

  lemma {:induction false} AbsentGoes(allTx: map<Hash, Tx>, list: seq<Hash>, from: seq<Hash>, x: Hash)
    requires (forall t :: t in list ==> !IsChild(allTx, t, x)) && x !in from
    ensures Survivors(allTx, list, from, {x}) == from
  {
    hide Survives, IsChild;
    if from != [] {
      var last := from[|from| - 1];
      assert last in from;
      AbsentGoes(allTx, list, from[..|from| - 1], x);
      ChildlessReachesItself(allTx, list, x, last);
    }
  }

  /** Without children in the list only the transaction itself goes. */
  lemma {:induction false} ChildlessGoesAlone(allTx: map<Hash, Tx>, list: seq<Hash>, from: seq<Hash>, x: Hash, k: nat)
    requires (forall t :: t in list ==> !IsChild(allTx, t, x)) && k < |from| && from[k] == x
    requires x !in from[..k] && x !in from[k + 1..]
    ensures Survivors(allTx, list, from, {x}) == from[..k] + from[k + 1..]
  {
    hide Survives, IsChild;
    var init, last := from[..|from| - 1], from[|from| - 1];
    ChildlessReachesItself(allTx, list, x, last);
    if k == |from| - 1 {
      AbsentGoes(allTx, list, init, x);
    } else {
      assert from[k + 1..] == init[k + 1..] + [last];
      assert last in from[k + 1..];
      assert init[..k] == from[..k];
      ChildlessGoesAlone(allTx, list, init, x, k);
    }
  }

  lemma {:induction false} NothingGoes(allTx: map<Hash, Tx>, list: seq<Hash>, from: seq<Hash>)
    ensures Survivors(allTx, list, from, {}) == from
  {
    if from != [] {
      NothingGoes(allTx, list, from[..|from| - 1]);
      assert Survives(allTx, list, {}, from[|from| - 1]);
    }
  }

  /** No survivor spends from what has gone. */
  lemma NoDanglingSpend(allTx: map<Hash, Tx>, list: seq<Hash>, x: Hash, t: Hash, p: Hash)
    requires t in Survivors(allTx, list, list, {x}) && p in list && p !in Survivors(allTx, list, list, {x})
    ensures !IsChild(allTx, t, p)
  {
    SurvivorsAre(allTx, list, list, {x});
    hide Survivors, Descends;
    if IsChild(allTx, t, p) {
      ChildDescends(allTx, list, p, t);
      DescendsJoins(allTx, list, x, p, t);
    }
  }
}
