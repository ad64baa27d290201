/**
  The broadcast-on-assignment cell that holds the evaluator's current state.
  Every assignment to `state` first sends the value being assigned to the
  cell's subscribers (a `willSet` observer); construction sends nothing.
  The subscriber channel is modelled by `emitted`, the log of every value sent,
  oldest first.
 */
module Passables {

  datatype PassableState<S> = PassableState(state: S, emitted: seq<S>)

  /** `state = v`: exactly one broadcast, carrying the new value. */
  function Assign<S>(p: PassableState<S>, v: S): (r: PassableState<S>)
    ensures |r.emitted| == |p.emitted| + 1
    ensures r.emitted[..|p.emitted|] == p.emitted
    ensures r.emitted[|p.emitted|] == v
    ensures r.state == v
  {
    PassableState(v, p.emitted + [v])
  }

  /** `init(_ state:)`: property observers do not run during initialisation. */
  function Make<S>(s: S): (r: PassableState<S>)
    ensures r.state == s
    ensures |r.emitted| == 0
  {
    PassableState(s, [])
  }

  /** Once anything was broadcast, the stored state is the last value broadcast. */
  ghost predicate Settled<S>(p: PassableState<S>) {
    |p.emitted| > 0 ==> p.state == p.emitted[|p.emitted| - 1]
  }

  /** A run of assignments, in order. */
  function AssignAll<S>(p: PassableState<S>, vs: seq<S>): (r: PassableState<S>)
    ensures r.emitted == p.emitted + vs
    ensures |vs| == 0 ==> r == p
    ensures |vs| > 0 ==> r.state == vs[|vs| - 1]
    decreases |vs|
  {
    if |vs| == 0 then p else AssignAll(Assign(p, vs[0]), vs[1..])
  }

  /** Assignment keeps the cell settled, whatever was stored before. */
  lemma AssignSettles<S>(p: PassableState<S>, v: S)
    ensures Settled(Assign(p, v))
  {
  }

  /** Two runs of assignments broadcast the concatenation of their values. */
  lemma {:induction false} AssignAllAppend<S>(p: PassableState<S>, a: seq<S>, b: seq<S>)
    ensures AssignAll(p, a + b) == AssignAll(AssignAll(p, a), b)
    decreases |a|
  {
    if |a| == 0 {
      assert a + b == b;
    } else {
      assert (a + b)[1..] == a[1..] + b;
      AssignAllAppend(Assign(p, a[0]), a[1..], b);
    }
  }
}
