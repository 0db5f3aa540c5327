/**
 The timeline of a stepped FSM animation: an append-only sequence of
 elements and a cursor `pos` that starts before the first element. The
 cursor moves one element at a time and reports a boundary by returning
 false; `Frame` replays everything up to the cursor.
 */
module Timelines {
  import opened Actions
  import opened FrameSpec

  /** The snapshot `progress()` returns. */
  datatype Snapshot = Snapshot(pos: int, length: nat)

  class Timeline {
    var actions: seq<Element>
    var pos: int

    /** The cursor is before the first element or on one of them. */
    ghost predicate Valid()
      reads this
    {
      -1 <= pos <= |actions| - 1
    }

    /** What the timeline reports at its cursor. */
    function FrameView(): seq<Call>
      reads this
    {
      FrameOf(actions, pos)
    }

    constructor ()
      ensures Valid()
      ensures actions == [] && pos == -1
    {
      actions := [];
      pos := -1;
    }

    /** Appends one single action; the cursor stays where it is. */
    method Add(from: NodeId, to: Option<NodeId>, text: Option<string>)
      requires Valid()
      modifies this
      ensures Valid()
      ensures actions == old(actions) + [Single(Action(from, to, text))]
      ensures pos == old(pos)
      ensures FrameView() == old(FrameView())
    {
      FrameIgnoresLater(actions, [Single(Action(from, to, text))], pos);
      actions := actions + [Single(Action(from, to, text))];
    }

    /** Starts a group; nothing is appended until the builder's `End`. */
    method Group() returns (b: GroupBuilder)
      ensures fresh(b)
      ensures b.timeline == this && b.members == []
    {
      b := new GroupBuilder(this);
    }

    /** Where the cursor is, and how many top-level elements there are. */
    function Progress(): (p: Snapshot)
      reads this
      ensures p.pos == pos && p.length == |actions|
      ensures Valid() ==> -1 <= p.pos < p.length
    {
      Snapshot(pos, |actions|)
    }

    /**
     True when no further `Next` can succeed. The comparison is `>=`; on a
     valid timeline it holds exactly when the cursor is on the last element
     (or the timeline is empty and the cursor before the start).
     */
    function Finished(): (r: bool)
      reads this
      ensures Valid() ==> (r <==> pos == |actions| - 1)
      ensures r <==> !(pos < |actions| - 1)
    {
      pos >= |actions| - 1
    }

    /** Moves the cursor before the first element; the elements are untouched. */
    method Rewind()
      requires Valid()
      modifies this
      ensures Valid()
      ensures pos == -1 && actions == old(actions)
      ensures Finished() <==> |actions| == 0
    {
      pos := -1;
    }

    /** Moves one element forward unless finished; reports whether it moved. */
    method Next() returns (ok: bool)
      requires Valid()
      modifies this
      ensures Valid()
      ensures actions == old(actions)
      ensures ok <==> old(pos) < |actions| - 1
      ensures ok <==> !old(Finished())
      ensures pos == if ok then old(pos) + 1 else old(pos)
    {
      if pos < |actions| - 1 {
        pos := pos + 1;
        return true;
      }
      return false;
    }

    /**
     Moves one element back unless before the start; reports whether it
     moved. Stepping back from the first element reaches -1.
     */
    method Prev() returns (ok: bool)
      requires Valid()
      modifies this
      ensures Valid()
      ensures actions == old(actions)
      ensures ok <==> old(pos) >= 0
      ensures pos == if ok then old(pos) - 1 else old(pos)
    {
      if pos >= 0 {
        pos := pos - 1;
        return true;
      }
      return false;
    }

    /**
     The calls made on the graph collector: elements `0..pos` in order, a
     single action treated as a one-member group, with a record of the
     nodes registered so far that starts empty on every call.
     */
    method Frame() returns (calls: seq<Call>)
      ensures calls == FrameOf(actions, pos)
    {
      calls := [];
      if pos < 0 || pos >= |actions| {
        return;
      }
      var seen: set<NodeId> := {};
      ghost var target := EmitFrom(Flat(actions[..pos + 1]), {});
      assert actions[0..pos + 1] == actions[..pos + 1];
      var i := 0;
      while i <= pos
        invariant 0 <= i <= pos + 1
        invariant calls + EmitFrom(Flat(actions[i..pos + 1]), seen) == target
      {
        var act := Members(actions[i]);
        ghost var rest := Flat(actions[i + 1..pos + 1]);
        FlatSplit(actions, i, pos + 1);
        ReplayStep(calls, act, rest, seen);
        calls, seen := ReplayGroup(act, calls, seen);
        i := i + 1;
      }
      assert actions[i..pos + 1] == [];
    }
  }

  /**
   The inner loop of the replay: every action of one element, in array
   order, continuing the calls made and the nodes registered so far.
   */
  method ReplayGroup(act: seq<Action>, calls: seq<Call>, seen: set<NodeId>) returns (calls': seq<Call>, seen': set<NodeId>)
    ensures calls' == calls + EmitFrom(act, seen)
    ensures seen' == SeenAll(act, seen)
  {
    calls', seen' := calls, seen;
    var j := 0;
    while j < |act|
      invariant 0 <= j <= |act|
      invariant calls' + EmitFrom(act[j..], seen') == calls + EmitFrom(act, seen)
      invariant SeenAll(act[j..], seen') == SeenAll(act, seen)
    {
      var a := act[j];
      assert act[j..][0] == a && act[j..][1..] == act[j + 1..];
      EmitStep(calls', act[j..], seen');
      calls', seen' := Register(a, calls', seen');
      j := j + 1;
    }
    assert act[j..] == [];
  }

  /**
   The body of the replay for one action: register `from` unless seen,
   register a present `to` unless seen, draw the edge of a labelled action.
   */
  method Register(a: Action, calls: seq<Call>, seen: set<NodeId>) returns (calls': seq<Call>, seen': set<NodeId>)
    ensures calls' == calls + ActionCalls(a, seen)
    ensures seen' == SeenAfter(a, seen)
  {
    calls', seen' := calls, seen;
    if a.from !in seen' {
      calls' := calls' + [SetNode(a.from)];
      seen' := seen' + {a.from};
    }
    assert calls' == calls + FromCall(a, seen);
    assert seen' == seen + {a.from};
    if Present(a.to) && a.to.value !in seen' {
      calls' := calls' + [SetNode(a.to.value)];
      seen' := seen' + {a.to.value};
    }
    assert calls' == calls + FromCall(a, seen) + ToCall(a, seen);
    if Present(a.text) {
      calls' := calls' + [SetEdge(a.from, a.to, a.text.value)];
    }
  }

  /**
   The builder `group()` returns: it collects actions and, on `End`,
   appends them to its timeline as one element.
   */
  class GroupBuilder {
    const timeline: Timeline
    var members: seq<Action>

    constructor (t: Timeline)
      ensures timeline == t && members == []
    {
      timeline := t;
      members := [];
    }

    /** Adds one action to the group. */
    method Add(from: NodeId, to: Option<NodeId>, text: Option<string>)
      modifies this
      ensures members == old(members) + [Action(from, to, text)]
    {
      members := members + [Action(from, to, text)];
    }

    /** Appends the collected actions as one element, whatever their number, and returns the timeline. */
    method End() returns (t: Timeline)
      requires timeline.Valid()
      modifies timeline
      ensures t == timeline && t.Valid()
      ensures t.actions == old(t.actions) + [Group(members)]
      ensures t.pos == old(t.pos)
      ensures t.FrameView() == old(t.FrameView())
    {
      FrameIgnoresLater(timeline.actions, [Group(members)], timeline.pos);
      timeline.actions := timeline.actions + [Group(members)];
      t := timeline;
    }
  }
}
