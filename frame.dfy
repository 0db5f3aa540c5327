/**
 What `frame` reports to its graph collector, as a function of the
 timeline's elements and its cursor: every element up to and including the
 cursor is replayed in order, each node is registered the first time an
 action names it, and every labelled action draws an edge.
 */
module FrameSpec {
  import opened Actions

  /** The set of names occurring in a sequence. */
  function Elems(ns: seq<NodeId>): set<NodeId> {
    set x | x in ns
  }

  /**
   The calls one action makes when the nodes in `seen` are already
   registered: `from` unless seen, then `to` when present and not seen
   (counting `from` as just registered), then its edge when labelled.
   */
  function ActionCalls(a: Action, seen: set<NodeId>): seq<Call> {
    FromCall(a, seen) + ToCall(a, seen) + ActionEdges(a)
  }

  /** The call registering `from`, unless it is already registered. */
  function FromCall(a: Action, seen: set<NodeId>): seq<Call> {
    if a.from in seen then [] else [SetNode(a.from)]
  }

  /** The call registering a present `to`, unless it is registered or is `from`. */
  function ToCall(a: Action, seen: set<NodeId>): seq<Call> {
    if Present(a.to) && a.to.value !in seen + {a.from} then [SetNode(a.to.value)] else []
  }

  /** The registered nodes after one action. */
  function SeenAfter(a: Action, seen: set<NodeId>): set<NodeId> {
    seen + {a.from} + if Present(a.to) then {a.to.value} else {}
  }

  /** The calls a run of actions makes, starting from the registered nodes `seen`. */
  function EmitFrom(acts: seq<Action>, seen: set<NodeId>): seq<Call> {
    if acts == [] then [] else ActionCalls(acts[0], seen) + EmitFrom(acts[1..], SeenAfter(acts[0], seen))
  }

  /** The registered nodes after a run of actions. */
  function SeenAll(acts: seq<Action>, seen: set<NodeId>): set<NodeId> {
    if acts == [] then seen else SeenAll(acts[1..], SeenAfter(acts[0], seen))
  }

  /** Replaying a non-empty run after `done`: its first action's calls, then the rest. */
  lemma EmitStep(done: seq<Call>, acts: seq<Action>, seen: set<NodeId>)
    requires acts != []
    ensures done + EmitFrom(acts, seen)
         == (done + ActionCalls(acts[0], seen)) + EmitFrom(acts[1..], SeenAfter(acts[0], seen))
  {
  }

  /** The node a call registers, if it is a `setNode`. */
  function CallNode(c: Call): seq<NodeId> {
    if c.SetNode? then [c.id] else []
  }

  /** The call itself, if it is a `setEdge`. */
  function CallEdge(c: Call): seq<Call> {
    if c.SetEdge? then [c] else []
  }

  /** The node identifiers registered by a run of calls, in call order. */
  function NodesOf(calls: seq<Call>): seq<NodeId> {
    if calls == [] then [] else CallNode(calls[0]) + NodesOf(calls[1..])
  }

  /** The edge calls of a run of calls, in call order. */
  function EdgesOf(calls: seq<Call>): seq<Call> {
    if calls == [] then [] else CallEdge(calls[0]) + EdgesOf(calls[1..])
  }

  /**
   Reference definition of "first occurrences": the names of `ns` with
   repetitions and the names in `seen` dropped, each kept where it first
   occurs.
   */
  function Dedup(ns: seq<NodeId>, seen: set<NodeId>): seq<NodeId> {
    if ns == [] then []
    else if ns[0] in seen then Dedup(ns[1..], seen)
    else [ns[0]] + Dedup(ns[1..], seen + {ns[0]})
  }

  predicate Distinct(ns: seq<NodeId>) {
    forall i, j :: 0 <= i < j < |ns| ==> ns[i] != ns[j]
  }

  /** The index of the first occurrence of `x` in `ns`. */
  function FirstIndex(ns: seq<NodeId>, x: NodeId): (k: nat)
    requires x in ns
    ensures k < |ns| && ns[k] == x && x !in ns[..k]
  {
    if ns[0] == x then 0 else 1 + FirstIndex(ns[1..], x)
  }

  /**
   The frame the timeline reports at cursor `pos`: nothing when the cursor
   is outside the elements, otherwise the replay of elements `0..pos` with
   a fresh, empty record of registered nodes.
   */
  function FrameOf(actions: seq<Element>, pos: int): seq<Call> {
    if pos < 0 || pos >= |actions| then [] else EmitFrom(Flat(actions[..pos + 1]), {})
  }

  /** The nodes registered by consecutive runs of calls, one after the other. */
  lemma {:induction false} NodesOfAppend(xs: seq<Call>, ys: seq<Call>)
    ensures NodesOf(xs + ys) == NodesOf(xs) + NodesOf(ys)
  {
    if xs == [] {
      assert xs + ys == ys;
    } else {
      var h := CallNode(xs[0]);
      assert (xs + ys)[0] == xs[0] && (xs + ys)[1..] == xs[1..] + ys;
      calc {
        NodesOf(xs + ys);
        h + NodesOf(xs[1..] + ys);
        { NodesOfAppend(xs[1..], ys); }
        h + (NodesOf(xs[1..]) + NodesOf(ys));
        (h + NodesOf(xs[1..])) + NodesOf(ys);
        NodesOf(xs) + NodesOf(ys);
      }
    }
  }

  /** The edges drawn by consecutive runs of calls, one after the other. */
  lemma {:induction false} EdgesOfAppend(xs: seq<Call>, ys: seq<Call>)
    ensures EdgesOf(xs + ys) == EdgesOf(xs) + EdgesOf(ys)
  {
    if xs == [] {
      assert xs + ys == ys;
    } else {
      var h := CallEdge(xs[0]);
      assert (xs + ys)[0] == xs[0] && (xs + ys)[1..] == xs[1..] + ys;
      calc {
        EdgesOf(xs + ys);
        h + EdgesOf(xs[1..] + ys);
        { EdgesOfAppend(xs[1..], ys); }
        h + (EdgesOf(xs[1..]) + EdgesOf(ys));
        (h + EdgesOf(xs[1..])) + EdgesOf(ys);
        EdgesOf(xs) + EdgesOf(ys);
      }
    }
  }

  /** Deduplicating a concatenation: the second part starts with the first part's names seen. */
  lemma {:induction false} DedupAppend(xs: seq<NodeId>, ys: seq<NodeId>, seen: set<NodeId>)
    ensures Dedup(xs + ys, seen) == Dedup(xs, seen) + Dedup(ys, seen + Elems(xs))
  {
    if xs == [] {
      assert xs + ys == ys;
      assert seen + Elems(xs) == seen;
    } else {
      assert (xs + ys)[0] == xs[0];
      assert (xs + ys)[1..] == xs[1..] + ys;
      assert Elems(xs) == {xs[0]} + Elems(xs[1..]);
      if xs[0] in seen {
        DedupAppend(xs[1..], ys, seen);
        assert seen + Elems(xs) == seen + Elems(xs[1..]);
      } else {
        DedupAppend(xs[1..], ys, seen + {xs[0]});
        assert seen + Elems(xs) == seen + {xs[0]} + Elems(xs[1..]);
      }
    }
  }

  /** `Dedup` keeps exactly the names of `ns` that are not in `seen`, each once. */
  lemma {:induction false} DedupContents(ns: seq<NodeId>, seen: set<NodeId>)
    ensures Distinct(Dedup(ns, seen))
    ensures forall x :: x in Dedup(ns, seen) <==> x in ns && x !in seen
  {
    if ns != [] {
      var rest := ns[1..];
      assert ns == [ns[0]] + rest;
      if ns[0] in seen {
        DedupContents(rest, seen);
      } else {
        DedupContents(rest, seen + {ns[0]});
        assert Dedup(ns, seen) == [ns[0]] + Dedup(rest, seen + {ns[0]});
      }
    }
  }

  /** Every name of `r` occurs in `ns`, and `r` lists them in the order of their first occurrence there. */
  predicate FirstOccurrenceOrder(r: seq<NodeId>, ns: seq<NodeId>) {
    && (forall x :: x in r ==> x in ns)
    && (forall i, j :: 0 <= i < j < |r| ==> FirstIndex(ns, r[i]) < FirstIndex(ns, r[j]))
  }

  /** A name that is not the head first occurs one place later than in the tail. */
  lemma FirstIndexTail(ns: seq<NodeId>, x: NodeId)
    requires ns != [] && x in ns[1..] && x != ns[0]
    ensures x in ns && FirstIndex(ns, x) == 1 + FirstIndex(ns[1..], x)
  {
  }

  /**
   Putting a name in front of the input shifts every later first occurrence
   by one, so an order kept in the tail is kept in the whole, with or without
   that name in front of the output.
   */
  lemma OrderShift(h: NodeId, rest: seq<NodeId>, tail: seq<NodeId>)
    requires FirstOccurrenceOrder(tail, rest)
    requires h !in tail
    ensures FirstOccurrenceOrder(tail, [h] + rest)
    ensures FirstOccurrenceOrder([h] + tail, [h] + rest)
  {
    var ns := [h] + rest;
    assert ns[1..] == rest;
    forall x | x in tail
      ensures x in ns && FirstIndex(ns, x) == 1 + FirstIndex(rest, x)
    {
      FirstIndexTail(ns, x);
    }
    var r := [h] + tail;
    forall i, j | 0 <= i < j < |r|
      ensures FirstIndex(ns, r[i]) < FirstIndex(ns, r[j])
    {
      assert r[j] == tail[j - 1] && tail[j - 1] in tail;
      if 0 < i {
        assert r[i] == tail[i - 1] && tail[i - 1] in tail;
      }
    }
    forall i, j | 0 <= i < j < |tail|
      ensures FirstIndex(ns, tail[i]) < FirstIndex(ns, tail[j])
    {
      assert tail[i] in tail && tail[j] in tail;
    }
  }

  /** `Dedup` lists the names it keeps in the order of their first occurrence in `ns`. */
  lemma {:induction false} DedupOrder(ns: seq<NodeId>, seen: set<NodeId>)
    ensures FirstOccurrenceOrder(Dedup(ns, seen), ns)
  {
    if ns != [] {
      var rest := ns[1..];
      var s' := if ns[0] in seen then seen else seen + {ns[0]};
      var tail := Dedup(rest, s');
      DedupOrder(rest, s');
      DedupContents(rest, s');
      assert ns == [ns[0]] + rest;
      OrderShift(ns[0], rest, tail);
    }
  }

  /** The names of a concatenation are the names of its parts. */
  lemma ElemsAppend(xs: seq<NodeId>, ys: seq<NodeId>)
    ensures Elems(xs + ys) == Elems(xs) + Elems(ys)
  {
  }

  lemma SingleCall(c: Call)
    ensures NodesOf([c]) == if c.SetNode? then [c.id] else []
    ensures EdgesOf([c]) == if c.SetEdge? then [c] else []
  {
    assert [c][1..] == [];
  }

  lemma SingleName(x: NodeId, seen: set<NodeId>)
    ensures Dedup([x], seen) == if x in seen then [] else [x]
  {
    assert [x][1..] == [];
  }

  /** The `from` call registers `from` exactly when it is a first occurrence. */
  lemma FromCallNodes(a: Action, seen: set<NodeId>)
    ensures NodesOf(FromCall(a, seen)) == Dedup([a.from], seen)
  {
    SingleCall(SetNode(a.from));
    SingleName(a.from, seen);
  }

  /** The `to` call registers a present `to` exactly when it is a first occurrence after `from`. */
  lemma ToCallNodes(a: Action, seen: set<NodeId>)
    ensures NodesOf(ToCall(a, seen)) == Dedup(if Present(a.to) then [a.to.value] else [], seen + {a.from})
  {
    if Present(a.to) {
      SingleCall(SetNode(a.to.value));
      SingleName(a.to.value, seen + {a.from});
    }
  }

  /** An edge call registers no node. */
  lemma EdgeCallNodes(a: Action)
    ensures NodesOf(ActionEdges(a)) == []
  {
    if Present(a.text) {
      SingleCall(ActionEdges(a)[0]);
    }
  }

  /** One action registers exactly the first occurrences of the names it mentions. */
  lemma ActionNodes(a: Action, seen: set<NodeId>)
    ensures NodesOf(ActionCalls(a, seen)) == Dedup(ActionNames(a), seen)
  {
    var c1, c2, c3 := FromCall(a, seen), ToCall(a, seen), ActionEdges(a);
    var rest := if Present(a.to) then [a.to.value] else [];
    NodesOfAppend(c1 + c2, c3);
    NodesOfAppend(c1, c2);
    FromCallNodes(a, seen);
    ToCallNodes(a, seen);
    EdgeCallNodes(a);
    DedupAppend([a.from], rest, seen);
    assert Elems([a.from]) == {a.from};
  }

  /** One action draws exactly its own edge. */
  lemma ActionEdgeCalls(a: Action, seen: set<NodeId>)
    ensures EdgesOf(ActionCalls(a, seen)) == ActionEdges(a)
  {
    var c1, c2, c3 := FromCall(a, seen), ToCall(a, seen), ActionEdges(a);
    EdgesOfAppend(c1 + c2, c3);
    EdgesOfAppend(c1, c2);
    if c1 != [] {
      SingleCall(c1[0]);
    }
    if c2 != [] {
      SingleCall(c2[0]);
    }
    if c3 != [] {
      SingleCall(c3[0]);
    }
  }

  /** An action whose ends are both registered already only draws its edge, if labelled. */
  lemma RegisteredEndsOnlyEdge(a: Action, seen: set<NodeId>)
    requires a.from in seen && (Present(a.to) ==> a.to.value in seen)
    ensures ActionCalls(a, seen) == ActionEdges(a)
    ensures SeenAfter(a, seen) == seen
  {
  }

  lemma SeenAfterNames(a: Action, seen: set<NodeId>)
    ensures SeenAfter(a, seen) == seen + Elems(ActionNames(a))
  {
  }

  /** The nodes a replay registers are the first occurrences of the names it mentions. */
  lemma {:induction false} EmitNodes(acts: seq<Action>, seen: set<NodeId>)
    ensures NodesOf(EmitFrom(acts, seen)) == Dedup(Names(acts), seen)
  {
    if acts != [] {
      var a := acts[0];
      ActionNodes(a, seen);
      SeenAfterNames(a, seen);
      NodesOfAppend(ActionCalls(a, seen), EmitFrom(acts[1..], SeenAfter(a, seen)));
      EmitNodes(acts[1..], SeenAfter(a, seen));
      DedupAppend(ActionNames(a), Names(acts[1..]), seen);
    }
  }

  /** The edges a replay draws are one per labelled action, whatever was registered before. */
  lemma {:induction false} EmitEdges(acts: seq<Action>, seen: set<NodeId>)
    ensures EdgesOf(EmitFrom(acts, seen)) == Labelled(acts)
  {
    if acts != [] {
      var a := acts[0];
      ActionEdgeCalls(a, seen);
      EdgesOfAppend(ActionCalls(a, seen), EmitFrom(acts[1..], SeenAfter(a, seen)));
      EmitEdges(acts[1..], SeenAfter(a, seen));
    }
  }

  /** After a run, the registered nodes are those registered before and every name the run mentions. */
  lemma {:induction false} SeenAllNames(acts: seq<Action>, seen: set<NodeId>)
    ensures SeenAll(acts, seen) == seen + Elems(Names(acts))
  {
    if acts == [] {
      assert seen + Elems(Names(acts)) == seen;
    } else {
      var a := acts[0];
      SeenAllNames(acts[1..], SeenAfter(a, seen));
      SeenAfterNames(a, seen);
      ElemsAppend(ActionNames(a), Names(acts[1..]));
    }
  }

  /** Replaying a concatenation whose first part is non-empty starts with that part's first action. */
  lemma EmitAppendHead(xs: seq<Action>, ys: seq<Action>, seen: set<NodeId>)
    requires xs != []
    ensures EmitFrom(xs + ys, seen) == ActionCalls(xs[0], seen) + EmitFrom(xs[1..] + ys, SeenAfter(xs[0], seen))
  {
    assert (xs + ys)[0] == xs[0] && (xs + ys)[1..] == xs[1..] + ys;
  }

  /** Replaying a concatenation replays the second part with the first part's names registered. */
  lemma {:induction false} EmitAppend(xs: seq<Action>, ys: seq<Action>, seen: set<NodeId>)
    ensures EmitFrom(xs + ys, seen) == EmitFrom(xs, seen) + EmitFrom(ys, SeenAll(xs, seen))
  {
    if xs == [] {
      assert xs + ys == ys;
    } else {
      var a, rest := xs[0], xs[1..];
      var after := SeenAfter(a, seen);
      var calls := ActionCalls(a, seen);
      EmitAppendHead(xs, ys, seen);
      EmitAppend(rest, ys, after);
      assert calls + (EmitFrom(rest, after) + EmitFrom(ys, SeenAll(rest, after)))
          == (calls + EmitFrom(rest, after)) + EmitFrom(ys, SeenAll(rest, after));
    }
  }

  /** Replaying a concatenation after `done`: the first part, then the second. */
  lemma ReplayStep(done: seq<Call>, xs: seq<Action>, ys: seq<Action>, seen: set<NodeId>)
    ensures done + EmitFrom(xs + ys, seen) == (done + EmitFrom(xs, seen)) + EmitFrom(ys, SeenAll(xs, seen))
  {
    EmitAppend(xs, ys, seen);
  }

  /**
   The nodes of a frame: nothing outside the elements; otherwise each name
   mentioned by the actions of elements `0..pos` exactly once, in order of
   first occurrence.
   */
  lemma FrameNodes(actions: seq<Element>, pos: int)
    ensures pos < 0 || pos >= |actions| ==> FrameOf(actions, pos) == []
    ensures 0 <= pos < |actions| ==>
      var ns := NodesOf(FrameOf(actions, pos));
      var named := Names(Flat(actions[..pos + 1]));
      && Distinct(ns)
      && (forall x :: x in ns <==> x in named)
      && FirstOccurrenceOrder(ns, named)
  {
    if 0 <= pos < |actions| {
      var acts := Flat(actions[..pos + 1]);
      EmitNodes(acts, {});
      DedupContents(Names(acts), {});
      DedupOrder(Names(acts), {});
    }
  }

  /** The edges of a frame: one per labelled action of elements `0..pos`, in order. */
  lemma FrameEdges(actions: seq<Element>, pos: int)
    ensures 0 <= pos < |actions| ==> EdgesOf(FrameOf(actions, pos)) == Labelled(Flat(actions[..pos + 1]))
  {
    if 0 <= pos < |actions| {
      EmitEdges(Flat(actions[..pos + 1]), {});
    }
  }

  /**
   Stepping the cursor forward only adds calls: the frame at `pos + 1` is
   the frame at `pos` followed by the replay of element `pos + 1` with the
   earlier names registered.
   */
  lemma FrameStep(actions: seq<Element>, pos: int)
    requires -1 <= pos && pos + 1 < |actions|
    ensures FrameOf(actions, pos + 1)
         == FrameOf(actions, pos) + EmitFrom(Members(actions[pos + 1]), Elems(Names(Flat(actions[..pos + 1]))))
  {
    var before := actions[..pos + 1];
    var e := actions[pos + 1];
    assert actions[..pos + 2] == before + [e];
    FlatAppend(before, [e]);
    assert Flat([e]) == Members(e) + Flat([]);
    assert Flat([e]) == Members(e);
    EmitAppend(Flat(before), Members(e), {});
    SeenAllNames(Flat(before), {});
    assert {} + Elems(Names(Flat(before))) == Elems(Names(Flat(before)));
    if pos == -1 {
      assert before == [];
      assert EmitFrom(Flat(before), {}) == [];
    }
  }

  /**
   The frame reads only the elements up to the cursor: appending elements
   leaves the frame at an existing cursor unchanged.
   */
  lemma FrameIgnoresLater(actions: seq<Element>, extra: seq<Element>, pos: int)
    requires pos < |actions|
    ensures FrameOf(actions + extra, pos) == FrameOf(actions, pos)
  {
    if 0 <= pos {
      assert (actions + extra)[..pos + 1] == actions[..pos + 1];
    }
  }

  // Frame replay as the code writes it: the record of registered nodes is
  // a plain object literal, so a name that is an inherited member of every
  // object already reads as registered.

  /** Names that a fresh object literal already answers with a truthy member. */
  const OBJECT_PROTOTYPE_KEYS: set<NodeId> := {
    "constructor", "hasOwnProperty", "isPrototypeOf", "propertyIsEnumerable",
    "toLocaleString", "toString", "valueOf", "__proto__",
    "__defineGetter__", "__defineSetter__", "__lookupGetter__", "__lookupSetter__"
  }

  /** The frame as the code computes it, with inherited names counting as registered. */
  function FrameAsWritten(actions: seq<Element>, pos: int): seq<Call> {
    if pos < 0 || pos >= |actions| then [] else EmitFrom(Flat(actions[..pos + 1]), OBJECT_PROTOTYPE_KEYS)
  }

  /** A call, unless it registers a name in `k`. */
  function DropCall(c: Call, k: set<NodeId>): seq<Call> {
    if c.SetNode? && c.id in k then [] else [c]
  }

  /** The calls of `cs` in order, without those registering a name in `k`. */
  function Drop(cs: seq<Call>, k: set<NodeId>): seq<Call> {
    if cs == [] then [] else DropCall(cs[0], k) + Drop(cs[1..], k)
  }

  /** Dropping from consecutive runs of calls, one after the other. */
  lemma {:induction false} DropAppend(xs: seq<Call>, ys: seq<Call>, k: set<NodeId>)
    ensures Drop(xs + ys, k) == Drop(xs, k) + Drop(ys, k)
  {
    if xs == [] {
      assert xs + ys == ys;
    } else {
      var h := DropCall(xs[0], k);
      assert (xs + ys)[0] == xs[0] && (xs + ys)[1..] == xs[1..] + ys;
      calc {
        Drop(xs + ys, k);
        h + Drop(xs[1..] + ys, k);
        { DropAppend(xs[1..], ys, k); }
        h + (Drop(xs[1..], k) + Drop(ys, k));
        (h + Drop(xs[1..], k)) + Drop(ys, k);
        Drop(xs, k) + Drop(ys, k);
      }
    }
  }

  /** A run of at most one call. */
  lemma DropSingle(c: Call, k: set<NodeId>)
    ensures Drop([c], k) == DropCall(c, k)
  {
    assert [c][1..] == [];
  }

  /**
   Treating the names `k` as registered from the start changes one action's
   calls only by leaving out the registrations of names in `k`.
   */
  lemma ActionDrop(a: Action, seen: set<NodeId>, k: set<NodeId>)
    ensures ActionCalls(a, seen + k) == Drop(ActionCalls(a, seen), k)
    ensures SeenAfter(a, seen + k) == SeenAfter(a, seen) + k
  {
    var c1, c2, c3 := FromCall(a, seen), ToCall(a, seen), ActionEdges(a);
    DropAppend(c1 + c2, c3, k);
    DropAppend(c1, c2, k);
    if c1 != [] {
      DropSingle(c1[0], k);
    }
    if c2 != [] {
      DropSingle(c2[0], k);
    }
    if c3 != [] {
      DropSingle(c3[0], k);
    }
    assert seen + k + {a.from} == seen + {a.from} + k;
  }

  /** The same for a run of actions. */
  lemma {:induction false} EmitDrop(acts: seq<Action>, seen: set<NodeId>, k: set<NodeId>)
    ensures EmitFrom(acts, seen + k) == Drop(EmitFrom(acts, seen), k)
  {
    if acts != [] {
      var a := acts[0];
      var calls := ActionCalls(a, seen);
      var rest := EmitFrom(acts[1..], SeenAfter(a, seen));
      ActionDrop(a, seen, k);
      EmitDrop(acts[1..], SeenAfter(a, seen), k);
      DropAppend(calls, rest, k);
    }
  }

  /**
   The code's frame is the corrected frame with exactly the registrations of
   inherited names left out: every other call is made, in the same order.
   */
  lemma AsWrittenIsDrop(actions: seq<Element>, pos: int)
    ensures FrameAsWritten(actions, pos) == Drop(FrameOf(actions, pos), OBJECT_PROTOTYPE_KEYS)
  {
    if 0 <= pos < |actions| {
      var acts := Flat(actions[..pos + 1]);
      EmitDrop(acts, {}, OBJECT_PROTOTYPE_KEYS);
      assert {} + OBJECT_PROTOTYPE_KEYS == OBJECT_PROTOTYPE_KEYS;
    }
  }

  /**
   As a consequence, the code's frame draws the same edges as the corrected
   one and registers the same names except the inherited ones.
   */
  lemma AsWrittenNodesAndEdges(actions: seq<Element>, pos: int)
    ensures EdgesOf(FrameAsWritten(actions, pos)) == EdgesOf(FrameOf(actions, pos))
    ensures forall x :: x in NodesOf(FrameAsWritten(actions, pos)) <==> x in NodesOf(FrameOf(actions, pos)) && x !in OBJECT_PROTOTYPE_KEYS
  {
    if 0 <= pos < |actions| {
      var acts := Flat(actions[..pos + 1]);
      EmitEdges(acts, OBJECT_PROTOTYPE_KEYS);
      EmitEdges(acts, {});
      EmitNodes(acts, OBJECT_PROTOTYPE_KEYS);
      EmitNodes(acts, {});
      DedupContents(Names(acts), OBJECT_PROTOTYPE_KEYS);
      DedupContents(Names(acts), {});
    }
  }

  /** As written, a node whose name is an inherited member is never registered. */
  lemma InheritedNamesNeverRegistered(actions: seq<Element>, pos: int, x: NodeId)
    requires x in OBJECT_PROTOTYPE_KEYS
    ensures x !in NodesOf(FrameAsWritten(actions, pos))
  {
    if 0 <= pos < |actions| {
      var acts := Flat(actions[..pos + 1]);
      EmitNodes(acts, OBJECT_PROTOTYPE_KEYS);
      DedupContents(Names(acts), OBJECT_PROTOTYPE_KEYS);
    }
  }

  /** A one-action timeline whose only state is named "toString": drawn by `FrameOf`, lost as written. */
  lemma InheritedNameCounterexample()
    ensures NodesOf(FrameAsWritten([Single(Action("toString", None, None))], 0)) == []
    ensures NodesOf(FrameOf([Single(Action("toString", None, None))], 0)) == ["toString"]
  {
    var tl := [Single(Action("toString", None, None))];
    assert tl[..1] == tl;
    assert Flat(tl) == [Action("toString", None, None)] + Flat([]);
  }
}
