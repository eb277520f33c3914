/**
 * The part of the optimizer's plan representation that the traversal observes.
 * A reference owns a list of member expressions, an expression owns a list of
 * quantifiers, and a quantifier ranges over (points at, without owning) a
 * reference. References are identified by an opaque handle, never by value.
 */
module PlanModel {

  /** Identity of an expression reference. */
  type RefId = nat

  /** A binding through which an expression consumes the output of `rangesOver`. */
  datatype Quantifier = Quantifier(rangesOver: RefId)

  /** A relational expression; of its contents only its quantifiers matter here. */
  datatype Expression = Expression(quantifiers: seq<Quantifier>)

  /** The member expressions of every reference, in iteration order. */
  type Plan = map<RefId, seq<Expression>>

  /**
   * (i, j) names the j-th quantifier of the i-th member of reference r.
   * Since expressions and quantifiers are owned exclusively, this position is
   * their identity.
   */
  predicate IsSlot(plan: Plan, r: RefId, i: nat, j: nat) {
    r in plan && i < |plan[r]| && j < |plan[r][i].quantifiers|
  }

  function RangesOver(plan: Plan, r: RefId, i: nat, j: nat): RefId
    requires IsSlot(plan, r, i, j)
  {
    plan[r][i].quantifiers[j].rangesOver
  }

  /** Every quantifier ranges over a reference the plan knows. */
  ghost predicate Closed(plan: Plan) {
    forall r, i: nat, j: nat :: IsSlot(plan, r, i, j) ==> RangesOver(plan, r, i, j) in plan
  }

  /** Some member expression of p has a quantifier ranging over c. */
  ghost predicate Consumes(plan: Plan, p: RefId, c: RefId) {
    exists i: nat, j: nat :: IsSlot(plan, p, i, j) && RangesOver(plan, p, i, j) == c
  }

  /** Every quantifier of every member of r ranges over a reference in s. */
  ghost predicate ChildrenIn(plan: Plan, r: RefId, s: set<RefId>) {
    forall i: nat, j: nat :: IsSlot(plan, r, i, j) ==> RangesOver(plan, r, i, j) in s
  }

  /** A chain reference -> member -> quantifier -> ranged-over reference -> ... */
  ghost predicate IsPath(plan: Plan, p: seq<RefId>) {
    |p| > 0 && forall k :: 0 <= k < |p| - 1 ==> Consumes(plan, p[k], p[k + 1])
  }

  ghost predicate Reaches(plan: Plan, a: RefId, b: RefId) {
    exists p :: IsPath(plan, p) && p[0] == a && p[|p| - 1] == b
  }

  lemma ReachesSelf(plan: Plan, a: RefId)
    ensures Reaches(plan, a, a)
  {
    assert IsPath(plan, [a]);
  }

  lemma ReachesPrepend(plan: Plan, a: RefId, b: RefId, c: RefId)
    requires Consumes(plan, a, b) && Reaches(plan, b, c)
    ensures Reaches(plan, a, c)
  {
    var p :| IsPath(plan, p) && p[0] == b && p[|p| - 1] == c;
    var q := [a] + p;
    forall k | 0 <= k < |q| - 1
      ensures Consumes(plan, q[k], q[k + 1])
    {
      if k > 0 {
        assert q[k] == p[k - 1] && q[k + 1] == p[k];
      }
    }
    assert IsPath(plan, q) && q[0] == a && q[|q| - 1] == c;
  }

  lemma ReachesAppend(plan: Plan, a: RefId, b: RefId, c: RefId)
    requires Reaches(plan, a, b) && Consumes(plan, b, c)
    ensures Reaches(plan, a, c)
  {
    var p :| IsPath(plan, p) && p[0] == a && p[|p| - 1] == b;
    var q := p + [c];
    forall k | 0 <= k < |q| - 1
      ensures Consumes(plan, q[k], q[k + 1])
    {
      if k < |p| - 1 {
        assert q[k] == p[k] && q[k + 1] == p[k + 1];
      }
    }
    assert IsPath(plan, q) && q[0] == a && q[|q| - 1] == c;
  }

  /** A set that holds a and the children of each of its members holds all that a reaches. */
  lemma ReachesWithin(plan: Plan, a: RefId, b: RefId, s: set<RefId>)
    requires a in s && forall r :: r in s ==> ChildrenIn(plan, r, s)
    requires Reaches(plan, a, b)
    ensures b in s
  {
    var p :| IsPath(plan, p) && p[0] == a && p[|p| - 1] == b;
    var k := 0;
    while k < |p| - 1
      invariant 0 <= k < |p|
      invariant p[k] in s
    {
      assert Consumes(plan, p[k], p[k + 1]);
      var i: nat, j: nat :| IsSlot(plan, p[k], i, j) && RangesOver(plan, p[k], i, j) == p[k + 1];
      assert ChildrenIn(plan, p[k], s);
      k := k + 1;
    }
  }

  /** A path from a to b none of whose references is in s. */
  ghost predicate ReachesAvoiding(plan: Plan, a: RefId, b: RefId, s: set<RefId>) {
    exists p :: IsPath(plan, p) && p[0] == a && p[|p| - 1] == b && forall k :: 0 <= k < |p| ==> p[k] !in s
  }

  lemma AvoidingSelf(plan: Plan, a: RefId, s: set<RefId>)
    requires a !in s
    ensures ReachesAvoiding(plan, a, a, s)
  {
    assert IsPath(plan, [a]);
  }

  /** Avoiding nothing is plain reachability. */
  lemma AvoidingNothing(plan: Plan, a: RefId, b: RefId)
    ensures ReachesAvoiding(plan, a, b, {}) <==> Reaches(plan, a, b)
  {
    if Reaches(plan, a, b) {
      var p :| IsPath(plan, p) && p[0] == a && p[|p| - 1] == b;
      assert forall k :: 0 <= k < |p| ==> p[k] !in {};
    }
  }

  /** A step from a, outside s, onto a path that avoids a superset of s. */
  lemma AvoidingPrepend(plan: Plan, a: RefId, b: RefId, c: RefId, s: set<RefId>, s': set<RefId>)
    requires Consumes(plan, a, b) && a !in s && s <= s'
    requires ReachesAvoiding(plan, b, c, s')
    ensures ReachesAvoiding(plan, a, c, s)
  {
    var p :| IsPath(plan, p) && p[0] == b && p[|p| - 1] == c && forall k :: 0 <= k < |p| ==> p[k] !in s';
    var q := [a] + p;
    forall k | 0 <= k < |q| - 1
      ensures Consumes(plan, q[k], q[k + 1])
    {
      if k > 0 {
        assert q[k] == p[k - 1] && q[k + 1] == p[k];
      }
    }
    forall k | 0 <= k < |q|
      ensures q[k] !in s
    {
      if k > 0 {
        assert q[k] == p[k - 1];
      }
    }
    assert IsPath(plan, q) && q[0] == a && q[|q| - 1] == c;
  }

  /**
   * A set that holds a and the children of each of its members, except those in
   * avoid, holds everything a reaches while avoiding avoid.
   */
  lemma AvoidingWithin(plan: Plan, a: RefId, b: RefId, avoid: set<RefId>, s: set<RefId>)
    requires a in s && forall r :: r in s ==> ChildrenIn(plan, r, s + avoid)
    requires ReachesAvoiding(plan, a, b, avoid)
    ensures b in s
  {
    var p :| IsPath(plan, p) && p[0] == a && p[|p| - 1] == b && forall k :: 0 <= k < |p| ==> p[k] !in avoid;
    var k := 0;
    while k < |p| - 1
      invariant 0 <= k < |p|
      invariant p[k] in s
    {
      assert Consumes(plan, p[k], p[k + 1]);
      var i: nat, j: nat :| IsSlot(plan, p[k], i, j) && RangesOver(plan, p[k], i, j) == p[k + 1];
      assert ChildrenIn(plan, p[k], s + avoid);
      assert p[k + 1] !in avoid;
      k := k + 1;
    }
  }
}
