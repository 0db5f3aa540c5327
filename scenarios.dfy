/**
 Concrete timelines, built the way the page builds its demos, and what
 their frames report.
 */
module Scenarios {
  import opened Actions
  import opened FrameSpec
  import opened Timelines

  /** The first demo timeline: three single transitions among S1, S2 and S3. */
  function ChainDemo(): seq<Element> {
    [ Single(Action("S1", Some("S2"), Some("Arg(SRC)"))),
      Single(Action("S2", Some("S3"), Some("Arg(DST)"))),
      Single(Action("S1", Some("S3"), Some("*"))) ]
  }

  /** The first step registers both ends of the first transition and draws it. */
  lemma ChainDemoFirstFrame()
    ensures FrameOf(ChainDemo(), 0) == [SetNode("S1"), SetNode("S2"), SetEdge("S1", Some("S2"), "Arg(SRC)")]
  {
    var a := Action("S1", Some("S2"), Some("Arg(SRC)"));
    assert ChainDemo()[..1] == [Single(a)] && [Single(a)][1..] == [];
    assert Flat([Single(a)]) == [a] + Flat([]);
    assert [a][1..] == [];
    assert EmitFrom([a], {}) == ActionCalls(a, {});
  }

  /** An action with a label and no `to` still draws an edge, with no target. */
  lemma LabelWithoutTarget()
    ensures FrameOf([Single(Action("S1", None, Some("go")))], 0) == [SetNode("S1"), SetEdge("S1", None, "go")]
  {
    var tl := [Single(Action("S1", None, Some("go")))];
    assert tl[..1] == tl;
    assert Flat(tl) == [Action("S1", None, Some("go"))] + Flat([]);
  }

  /**
   A shortened form of the page's grouped demo: its first action, then its
   first group of two. The page adds two more actions before that group,
   so there the group is element 3, not element 1.
   */
  function GroupedDemoPrefix(): seq<Element> {
    [ Single(Action("A1", Some("A2"), Some("Opt(-a)"))),
      Group([Action("CS", Some("B1"), Some("*")), Action("CS", Some("C1"), Some("*"))]) ]
  }

  /** The actions of the shortened grouped demo, flattened. */
  lemma GroupedDemoActions()
    ensures Flat(GroupedDemoPrefix()[..2]) == [Action("A1", Some("A2"), Some("Opt(-a)")), Action("CS", Some("B1"), Some("*")), Action("CS", Some("C1"), Some("*"))]
  {
    var tl := GroupedDemoPrefix();
    assert tl[..2] == tl;
    assert tl[1..][1..] == [];
    assert Flat(tl[1..]) == Members(tl[1]) + Flat([]);
  }

  /** First occurrences of the shortened grouped demo's names: the repeated `CS` is kept once. */
  lemma GroupedDemoDedup()
    ensures Dedup(["A1", "A2", "CS", "B1", "CS", "C1"], {}) == ["A1", "A2", "CS", "B1", "C1"]
  {
    var ns: seq<NodeId> := ["A1", "A2", "CS", "B1", "CS", "C1"];
    assert ns[1..][1..][1..][1..][1..][1..] == [];
    assert Dedup(ns[5..], {"A1", "A2", "CS", "B1"}) == ["C1"];
    assert Dedup(ns[4..], {"A1", "A2", "CS", "B1"}) == ["C1"];
    assert {"A1", "A2", "CS"} + {"B1"} == {"A1", "A2", "CS", "B1"};
    assert Dedup(ns[3..], {"A1", "A2", "CS"}) == ["B1", "C1"];
    assert {"A1", "A2"} + {"CS"} == {"A1", "A2", "CS"};
    assert Dedup(ns[2..], {"A1", "A2"}) == ["CS", "B1", "C1"];
    assert {"A1"} + {"A2"} == {"A1", "A2"};
    assert {} + {"A1"} == {"A1"};
    assert Dedup(ns[1..], {"A1"}) == ["A2", "CS", "B1", "C1"];
  }

  /** With the cursor on the first action, before the group, the frame draws that action's edge only. */
  lemma GroupedDemoFirstEdges()
    ensures EdgesOf(FrameOf(GroupedDemoPrefix(), 0)) == [SetEdge("A1", Some("A2"), "Opt(-a)")]
  {
    var tl := GroupedDemoPrefix();
    var a := Action("A1", Some("A2"), Some("Opt(-a)"));
    assert tl[..1] == [Single(a)] && [Single(a)][1..] == [];
    assert Flat([Single(a)]) == [a] + Flat([]);
    FrameEdges(tl, 0);
    assert [a][1..] == [];
  }

  /** With the cursor on the group, the frame draws the first action's edge and both members' edges. */
  lemma GroupedDemoEdges()
    ensures EdgesOf(FrameOf(GroupedDemoPrefix(), 1))
      == [SetEdge("A1", Some("A2"), "Opt(-a)"), SetEdge("CS", Some("B1"), "*"), SetEdge("CS", Some("C1"), "*")]
  {
    var acts := [Action("A1", Some("A2"), Some("Opt(-a)")), Action("CS", Some("B1"), Some("*")), Action("CS", Some("C1"), Some("*"))];
    GroupedDemoActions();
    FrameEdges(GroupedDemoPrefix(), 1);
    assert acts[1..][1..][1..] == [];
  }

  /** The names the shortened grouped demo mentions, repetitions kept. */
  lemma GroupedDemoNames()
    ensures Names([Action("A1", Some("A2"), Some("Opt(-a)")), Action("CS", Some("B1"), Some("*")), Action("CS", Some("C1"), Some("*"))])
      == ["A1", "A2", "CS", "B1", "CS", "C1"]
  {
    var acts := [Action("A1", Some("A2"), Some("Opt(-a)")), Action("CS", Some("B1"), Some("*")), Action("CS", Some("C1"), Some("*"))];
    assert acts[1..][1..] == acts[2..] && acts[2..][1..] == [];
    assert Names(acts[2..]) == ["CS", "C1"];
    assert Names(acts[1..]) == ["CS", "B1"] + Names(acts[2..]);
  }

  /** With the cursor on the group, the frame registers each of the five names once, in order of first mention. */
  lemma GroupedDemoNodes()
    ensures NodesOf(FrameOf(GroupedDemoPrefix(), 1)) == ["A1", "A2", "CS", "B1", "C1"]
  {
    var acts := [Action("A1", Some("A2"), Some("Opt(-a)")), Action("CS", Some("B1"), Some("*")), Action("CS", Some("C1"), Some("*"))];
    GroupedDemoActions();
    EmitNodes(acts, {});
    GroupedDemoNames();
    GroupedDemoDedup();
  }

  /**
   A group is one element: after the page's `group().add(…).add(…).end()`
   the timeline has one more element, and the single step from the first
   action onto the group takes the frame from one edge to three.
   */
  method GroupAppearsAtOnce()
  {
    var t := new Timeline();
    t.Add("A1", Some("A2"), Some("Opt(-a)"));
    var g := t.Group();
    g.Add("CS", Some("B1"), Some("*"));
    g.Add("CS", Some("C1"), Some("*"));
    assert g.members == [Action("CS", Some("B1"), Some("*")), Action("CS", Some("C1"), Some("*"))];
    t := g.End();
    assert t.actions == GroupedDemoPrefix();
    var moved := t.Next();
    var before := t.Frame();
    GroupedDemoFirstEdges();
    assert |EdgesOf(before)| == 1;
    moved := t.Next();
    assert moved && t.pos == 1 && t.Finished();
    var calls := t.Frame();
    GroupedDemoEdges();
    assert |EdgesOf(calls)| == 3;
  }
}
