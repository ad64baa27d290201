/**
  The entry point every evaluator shares: `evaluate` takes an optional action,
  ignores an absent one, and otherwise leaves a breadcrumb (a diagnostic
  record of the action) before handing the action to the evaluator's own
  `_evaluate`. The evaluator's state and `_evaluate` are parameters here; the
  breadcrumb trail is kept beside the state, never inside it.
 */
module ActionEvaluating {
  import opened Wrappers

  datatype Evaluated<S, A> = Evaluated(state: S, breadcrumbs: seq<A>)

  /** Diagnostic only: records the action and leaves the state alone. */
  function Breadcrumb<S, A>(e: Evaluated<S, A>, a: A): (r: Evaluated<S, A>)
    ensures r.state == e.state
    ensures |r.breadcrumbs| == |e.breadcrumbs| + 1
    ensures r.breadcrumbs[..|e.breadcrumbs|] == e.breadcrumbs
    ensures r.breadcrumbs[|e.breadcrumbs|] == a
  {
    Evaluated(e.state, e.breadcrumbs + [a])
  }

  function Evaluate<S, A>(apply: (S, A) -> S, e: Evaluated<S, A>, a: Option<A>): (r: Evaluated<S, A>)
    ensures a.None? ==> r == e
    ensures a.Some? ==> r.state == apply(e.state, a.value)
    ensures a.Some? ==> r.breadcrumbs == e.breadcrumbs + [a.value]
  {
    match a
    case None => e
    case Some(x) =>
      var b := Breadcrumb(e, x);
      Evaluated(apply(b.state, x), b.breadcrumbs)
  }

  /** Evaluating a run of optional actions, first to last. */
  function EvaluateAll<S, A>(apply: (S, A) -> S, e: Evaluated<S, A>, acts: seq<Option<A>>): Evaluated<S, A>
    decreases |acts|
  {
    if |acts| == 0 then e else EvaluateAll(apply, Evaluate(apply, e, acts[0]), acts[1..])
  }

  /** Reference semantics: `_evaluate` applied directly to each action, first to last. */
  function ApplyAll<S, A>(apply: (S, A) -> S, s: S, acts: seq<A>): S
    decreases |acts|
  {
    if |acts| == 0 then s else ApplyAll(apply, apply(s, acts[0]), acts[1..])
  }

  /** The actions present in a run, in order. */
  function Somes<A>(acts: seq<Option<A>>): (r: seq<A>)
    ensures |r| <= |acts|
    decreases |acts|
  {
    if |acts| == 0 then []
    else (if acts[0].Some? then [acts[0].value] else []) + Somes(acts[1..])
  }

  /** The same run with every absent action removed. */
  function RemoveNones<A>(acts: seq<Option<A>>): (r: seq<Option<A>>)
    ensures forall i :: 0 <= i < |r| ==> r[i].Some?
    decreases |acts|
  {
    if |acts| == 0 then []
    else (if acts[0].Some? then [acts[0]] else []) + RemoveNones(acts[1..])
  }

  /**
    A run of optional actions has exactly the effect of `_evaluate` on the
    actions present, and leaves one breadcrumb per present action.
   */
  lemma {:induction false} EvaluateAllApplies<S, A>(apply: (S, A) -> S, e: Evaluated<S, A>, acts: seq<Option<A>>)
    ensures EvaluateAll(apply, e, acts) == Evaluated(ApplyAll(apply, e.state, Somes(acts)), e.breadcrumbs + Somes(acts))
    decreases |acts|
  {
    if |acts| == 0 {
      assert e.breadcrumbs + [] == e.breadcrumbs;
    } else {
      var e1 := Evaluate(apply, e, acts[0]);
      EvaluateAllApplies(apply, e1, acts[1..]);
      if acts[0].Some? {
        assert Somes(acts) == [acts[0].value] + Somes(acts[1..]);
        assert e.breadcrumbs + Somes(acts) == e1.breadcrumbs + Somes(acts[1..]);
      } else {
        assert Somes(acts) == Somes(acts[1..]);
      }
    }
  }

  lemma {:induction false} SomesOfRemoveNones<A>(acts: seq<Option<A>>)
    ensures Somes(RemoveNones(acts)) == Somes(acts)
    decreases |acts|
  {
    if |acts| > 0 {
      SomesOfRemoveNones(acts[1..]);
      var head := if acts[0].Some? then [acts[0]] else [];
      SomesAppend(head, RemoveNones(acts[1..]));
    }
  }

  lemma {:induction false} SomesAppend<A>(a: seq<Option<A>>, b: seq<Option<A>>)
    ensures Somes(a + b) == Somes(a) + Somes(b)
    decreases |a|
  {
    if |a| == 0 {
      assert a + b == b;
    } else {
      var head := if a[0].Some? then [a[0].value] else [];
      assert (a + b)[0] == a[0];
      assert (a + b)[1..] == a[1..] + b;
      assert Somes(a + b) == head + Somes(a[1..] + b);
      SomesAppend(a[1..], b);
      assert Somes(a) == head + Somes(a[1..]);
    }
  }

  /** Absent actions are invisible: removing them changes neither state nor trail. */
  lemma EvaluateAllIgnoresNones<S, A>(apply: (S, A) -> S, e: Evaluated<S, A>, acts: seq<Option<A>>)
    ensures EvaluateAll(apply, e, acts) == EvaluateAll(apply, e, RemoveNones(acts))
  {
    EvaluateAllApplies(apply, e, acts);
    EvaluateAllApplies(apply, e, RemoveNones(acts));
    SomesOfRemoveNones(acts);
  }

  /** The breadcrumb trail has no influence on the state an evaluation reaches. */
  lemma BreadcrumbsDoNotSteer<S, A>(apply: (S, A) -> S, s: S, b1: seq<A>, b2: seq<A>, acts: seq<Option<A>>)
    ensures EvaluateAll(apply, Evaluated(s, b1), acts).state == EvaluateAll(apply, Evaluated(s, b2), acts).state
  {
    EvaluateAllApplies(apply, Evaluated(s, b1), acts);
    EvaluateAllApplies(apply, Evaluated(s, b2), acts);
  }
}
