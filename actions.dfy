/**
 The values a stepped FSM animation is built from: actions, the top-level
 elements of a timeline (a single action or a group of simultaneous
 actions), and the calls that replaying a timeline makes on a graph
 collector.
 */
module Actions {

  /** A node identifier of the diagram (a state name such as "S1"). */
  type NodeId = string

  datatype Option<T> = None | Some(value: T)

  /**
   One transition as `add(from, to, label)` records it. `to` and `label`
   may be omitted; an omitted argument is `None`. The `label` argument is
   kept as `text`.
   */
  datatype Action = Action(from: NodeId, to: Option<NodeId>, text: Option<string>)

  /** A top-level element of a timeline: one action, or a group that appears at once. */
  datatype Element = Single(action: Action) | Group(members: seq<Action>)

  /**
   One call made on the graph collector: `setNode(id)` or
   `setEdge(source, target, label)`. The target of an edge is whatever the
   action's `to` was, possibly omitted.
   */
  datatype Call = SetNode(id: NodeId) | SetEdge(source: NodeId, target: Option<NodeId>, text: string)

  /**
   JavaScript truthiness of an optional string argument: an omitted
   argument and the empty string are both false.
   */
  predicate Present(o: Option<string>) {
    o.Some? && o.value != ""
  }

  /** The actions of an element, a single action being a one-member group. */
  function Members(e: Element): seq<Action> {
    match e
    case Single(a) => [a]
    case Group(g) => g
  }

  /** All actions of a run of elements, in document order. */
  function Flat(es: seq<Element>): seq<Action> {
    if es == [] then [] else Members(es[0]) + Flat(es[1..])
  }

  /** The node names an action mentions: `from`, then `to` when present. */
  function ActionNames(a: Action): seq<NodeId> {
    [a.from] + if Present(a.to) then [a.to.value] else []
  }

  /** The node names a run of actions mentions, in order, repetitions kept. */
  function Names(acts: seq<Action>): seq<NodeId> {
    if acts == [] then [] else ActionNames(acts[0]) + Names(acts[1..])
  }

  /** The edge an action draws, as a collector call; only a labelled action draws one. */
  function ActionEdges(a: Action): seq<Call> {
    if Present(a.text) then [SetEdge(a.from, a.to, a.text.value)] else []
  }

  /** One edge per labelled action, in order. */
  function Labelled(acts: seq<Action>): seq<Call> {
    if acts == [] then [] else ActionEdges(acts[0]) + Labelled(acts[1..])
  }

  /** Flattening distributes over concatenation of element runs. */
  lemma {:induction false} FlatAppend(xs: seq<Element>, ys: seq<Element>)
    ensures Flat(xs + ys) == Flat(xs) + Flat(ys)
  {
    if xs == [] {
      assert xs + ys == ys;
    } else {
      assert (xs + ys)[1..] == xs[1..] + ys;
      FlatAppend(xs[1..], ys);
    }
  }

  /** A non-empty run of elements: the first element's actions, then the rest. */
  lemma FlatSplit(es: seq<Element>, i: nat, k: nat)
    requires i < k <= |es|
    ensures Flat(es[i..k]) == Members(es[i]) + Flat(es[i + 1..k])
  {
    assert es[i..k][1..] == es[i + 1..k];
  }
}
