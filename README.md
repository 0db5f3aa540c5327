# Stepped FSM animation: timeline and player

The `mow-fsm` page draws a finite-state-machine diagram a step at a time.
A *timeline* records transitions with `add(from, to, label)`. Several
transitions can be added as one group (`group().add(…).add(…).end()`) so
that they appear together. The timeline keeps a cursor `pos`, which starts
at -1 ("nothing shown"). `next`/`prev` move it one element at a time and
return false at a boundary. `frame(g)` replays every element up to the
cursor into a graph: it registers each node with `setNode` the first time
an action names it (except names inherited from `Object.prototype`; see
"## Findings"), and it calls `setEdge` for each labelled action. A
*player* drives the timeline. It has a play/pause button, step-forward and
step-back buttons, and a 1200 ms timer that advances playback.

The model has five modules.

- `Actions` (`actions.dfy`) holds the values: an action, a timeline element
  (a single action or a group), and a call made on the graph collector.
  The page passes `to` and `label` as optional strings. An omitted
  argument is `None`. A present argument counts as set only when it is
  non-empty, as JavaScript truthiness decides.
- `FrameSpec` (`frame.dfy`) gives `FrameOf(actions, pos)`, the sequence of
  collector calls that `frame` makes once the record of registered nodes
  starts truly empty. `FrameAsWritten` is the frame as the code computes
  it, where inherited names already read as registered. It is proved to be
  the corrected frame with exactly those names' registrations removed. It also gives a reference
  definition of "first occurrences" (`Dedup`). The lemmas prove what a
  frame contains:
  - the nodes: each name mentioned up to the cursor, exactly once, in
    order of first mention;
  - the edges: one per labelled action, in order;
  - how a frame grows by one step of the cursor;
  - that later elements do not affect it.
- `Timelines` (`timeline.dfy`) is the timeline object as a class. It has
  the element list and the cursor as fields, and the group builder as a
  second class. `Frame` is the nested replay loop. It is proved equal to
  `FrameOf`.
- `Player` (`player.dfy`) is the player's state machine. The fields are
  `playing`, whether a tick is scheduled, and the frame last drawn. Every
  handler keeps the same invariant:
  - a tick is scheduled exactly while playing;
  - the frame drawn is the timeline's frame at its cursor.

  `AutoPlayToEnd` plays a three-element timeline with the toggle and
  three ticks. The last tick stops playback and schedules nothing.
- `Scenarios` (`scenarios.dfy`) holds concrete timelines in the style of
  the page's demos, with their frames worked out:
  - the first frame of the first demo;
  - a labelled action without a `to`;
  - a shortened form of the grouped demo (its first action and first
    group). `GroupAppearsAtOnce` builds it through `Add`, `Group` and
    `End`. The single step from the first action onto the group takes the
    frame from one edge to three.

A few points where the code is more specific than a prose reading of the
page. The model follows the code:

- `finished()` compares with `>=`, not `==`.
- A labelled action without a `to` still draws an edge, with an omitted
  target.
- The step buttons redraw even when the cursor did not move.
- `play()` at the end of the timeline stops playback without redrawing.

## Model

| member | source | states |
|---|---|---|
| Timelines.Timeline.constructor | content/extra/mow-fsm/app.js:26-28 | a new timeline has no elements and its cursor at -1 |
| Timelines.Timeline.Add | content/extra/mow-fsm/app.js:30-37 | appends exactly one single action, leaves the cursor alone, and leaves the frame at the cursor unchanged |
| Timelines.Timeline.Group | content/extra/mow-fsm/app.js:38-41 | returns a fresh builder tied to this timeline with no members yet; nothing is appended |
| Timelines.GroupBuilder.constructor | content/extra/mow-fsm/app.js:39-41 | a builder starts with an empty member list and remembers its timeline |
| Timelines.GroupBuilder.Add | content/extra/mow-fsm/app.js:42-49 | appends one action to the group's members |
| Timelines.GroupBuilder.End | content/extra/mow-fsm/app.js:50-53 | appends all members as one element, returns the same timeline, keeps the cursor and the frame at the cursor |
| Timelines.Timeline.Progress | content/extra/mow-fsm/app.js:56-61 | reports the cursor and the number of top-level elements; on a valid timeline -1 <= pos < length |
| Timelines.Timeline.Finished | content/extra/mow-fsm/app.js:62-64 | true exactly when a `Next` would fail; on a valid timeline, exactly when the cursor is on the last element |
| Timelines.Timeline.Rewind | content/extra/mow-fsm/app.js:65-67 | the cursor returns to -1 and the elements are untouched; the timeline is then finished only if it is empty |
| Timelines.Timeline.Next | content/extra/mow-fsm/app.js:68-74 | succeeds if and only if the timeline was not finished; then the cursor moves up by one, otherwise nothing changes |
| Timelines.Timeline.Prev | content/extra/mow-fsm/app.js:75-81 | succeeds if and only if the cursor was at 0 or beyond; then it moves down by one (possibly to -1), otherwise nothing changes |
| Timelines.Timeline.Frame | content/extra/mow-fsm/app.js:82-116 | the collector calls equal `FrameOf(actions, pos)`: none outside the elements, otherwise the replay of elements 0..pos from an empty record |
| Timelines.ReplayGroup | content/extra/mow-fsm/app.js:92-114 | the inner loop over one element's actions extends the calls by that element's replay and the record by every name it mentions |
| Timelines.Register | content/extra/mow-fsm/app.js:93-113 | one action registers an unseen `from`, then an unseen present `to`, then draws its edge if labelled |
| FrameSpec.FrameNodes | content/extra/mow-fsm/app.js:82-107 | a frame outside the elements is empty; otherwise its nodes are pairwise distinct, are exactly the names mentioned up to the cursor, and come in order of first mention |
| FrameSpec.FrameEdges | content/extra/mow-fsm/app.js:108-113 | a frame's edges are one per labelled action up to the cursor, in order, including labelled actions without a target |
| FrameSpec.FrameStep | content/extra/mow-fsm/app.js:87-96 | moving the cursor forward by one only appends: the new frame is the old one followed by the next element's replay with the earlier names registered |
| FrameSpec.FrameIgnoresLater | content/extra/mow-fsm/app.js:87-88 | elements after the cursor do not affect the frame |
| FrameSpec.EmitNodes | content/extra/mow-fsm/app.js:94-107 | the nodes a run of actions registers are the first occurrences of the names it mentions, excluding names already registered |
| FrameSpec.EmitEdges | content/extra/mow-fsm/app.js:108-113 | the edges a run of actions draws do not depend on the record of registered nodes: one per labelled action |
| FrameSpec.EmitAppend | content/extra/mow-fsm/app.js:87-93 | replaying a concatenation is replaying the first part and then the second part with the first part's names registered |
| FrameSpec.SeenAllNames | content/extra/mow-fsm/app.js:99-106 | after a run of actions the record holds exactly the earlier names plus every name the run mentions |
| FrameSpec.ActionNodes | content/extra/mow-fsm/app.js:94-107 | one action registers `from` and then a present `to`, each only if not yet registered, and `to` not again when it equals `from` |
| FrameSpec.RegisteredEndsOnlyEdge | content/extra/mow-fsm/app.js:94-113 | an action whose ends are both registered registers nothing and only draws its edge, if labelled |
| FrameSpec.ActionEdgeCalls | content/extra/mow-fsm/app.js:108-113 | one action draws exactly one edge if its label is set and none otherwise |
| FrameSpec.DedupContents | content/extra/mow-fsm/app.js:94-107 | the first-occurrence list holds each name of the input that is not already registered, and holds it once |
| FrameSpec.DedupOrder | content/extra/mow-fsm/app.js:94-107 | the first-occurrence list keeps the order of first occurrence in the input |
| FrameSpec.DedupAppend | content/extra/mow-fsm/app.js:94-107 | first occurrences of a concatenation are those of the first part, then those of the second not already in the first |
| FrameSpec.FirstIndex | content/extra/mow-fsm/app.js:94-107 | the index returned holds the name and no earlier index does |
| FrameSpec.AsWrittenIsDrop | content/extra/mow-fsm/app.js:82-116 | the code's frame (`FrameAsWritten`, replaying from a record that already holds the names every object inherits) is exactly the corrected frame with the `setNode` calls for those names removed; every other call is made, in the same order |
| FrameSpec.AsWrittenNodesAndEdges | content/extra/mow-fsm/app.js:86-113 | the code's frame draws the same edges as the corrected frame and registers the same node names minus the inherited ones |
| FrameSpec.InheritedNamesNeverRegistered | content/extra/mow-fsm/app.js:86-100 | as written, a node named after an inherited member of every object (such as `toString`) is never registered |
| FrameSpec.InheritedNameCounterexample | content/extra/mow-fsm/app.js:86-100 | a one-action timeline from `toString`: as written no node is registered, while the corrected frame registers `toString` |
| Actions.FlatAppend | content/extra/mow-fsm/app.js:87-91 | the actions of a run of elements, each single action taken as a one-member group, distribute over concatenation |
| Player.FsmPlayer.constructor | content/extra/mow-fsm/app.js:129-130 | the player starts paused with no tick scheduled and nothing drawn |
| Player.FsmPlayer.RenderFrame | content/extra/mow-fsm/app.js:202-226 | drawing shows the timeline's frame at its cursor and leaves the playback state alone |
| Player.FsmPlayer.Play | content/extra/mow-fsm/app.js:228-237 | advances if possible; on success, schedules a tick exactly when still playing and draws; at the end, stops playing, schedules nothing and does not redraw |
| Player.FsmPlayer.Toggle | content/extra/mow-fsm/app.js:151-165 | pausing cancels the tick and changes nothing else; playing rewinds a finished timeline first and then plays one step; the player invariant holds after both |
| Player.FsmPlayer.StepForward | content/extra/mow-fsm/app.js:167-174 | ignored while playing; otherwise advances if possible and draws, even when the cursor did not move |
| Player.FsmPlayer.StepBack | content/extra/mow-fsm/app.js:176-183 | ignored while playing; otherwise steps back if possible and draws, even when the cursor did not move |
| Player.FsmPlayer.Tick | content/extra/mow-fsm/app.js:228-237 | a fired tick uses up the scheduled timer and plays one step; at the end playback stops with nothing scheduled |
| Player.StepForwardThenBack | content/extra/mow-fsm/app.js:167-183 | from a cursor that can advance, step forward then step back while paused restores the cursor and draws the frame it started on |
| Scenarios.ChainDemoFirstFrame | content/extra/mow-fsm/app.js:241-246 | on the first demo timeline, the first step registers S1 and S2 and draws the `Arg(SRC)` edge between them |
| Scenarios.LabelWithoutTarget | content/extra/mow-fsm/app.js:108-113 | a labelled action without `to` registers its `from` and draws an edge with an omitted target |
| Scenarios.GroupedDemoFirstEdges | content/extra/mow-fsm/app.js:282-290 | on the shortened grouped demo, with the cursor on the first action (before the group), the frame draws that action's edge and nothing else |
| Scenarios.GroupedDemoEdges | content/extra/mow-fsm/app.js:282-290 | on a shortened grouped demo (its first action, then its first group), with the cursor on the group, the frame draws the earlier edge and both members' edges |
| Scenarios.GroupedDemoNodes | content/extra/mow-fsm/app.js:282-290 | on the same shortened grouped demo, whose group members share `CS`, the frame registers the five names once each, in order of first mention |

## Left out

- Timelines.Timeline.Frame: the class, and the player through it, draws the corrected frame `FrameOf`, whose record of registered nodes starts empty. The code's frame, where names inherited from `Object.prototype` count as registered, is `FrameSpec.FrameAsWritten` (see "## Findings").
- Drawing is left out: jQuery, d3 zoom, dagre layout and the SVG renderer. A draw is represented by the frame handed to the collector. Node shapes, edge interpolation and graph options are not modelled.
- The progress bar is left out. It is a floating-point percentage `100 * (pos + 1) / length`, and on an empty timeline it divides by zero. The model keeps only the `progress()` snapshot it reads.
- `updateButtons` is left out: it only restyles links.
- The 1200 ms playback timer is a flag, "a tick is pending". A tick firing is the `Tick` method. `clearTimeout` clears the flag. The 800 ms transition is part of drawing.
- The builder's member list is copied into the element at `End`. The code pushes the builder's own array, so an `add` on the builder after `end()` would still change the appended group. The model does not capture that sharing.
- Chaining (`return this`) is left out; in the model `Add` returns nothing. `GroupBuilder.End` returns the timeline, as `end()` does.
- `frame` writes `nodes` and `a` without declaring them, so they are shared page-wide globals. The model makes them locals of `Frame`, because every call resets them before use.
- Arguments of other types are left out: a numeric or object `from`, or a non-string label. Node names are strings.
- The page's demo timelines are not all modelled. Only shapes from two of them appear, in `Scenarios`.
- The Pelican plugins and site configuration files are not part of this model.

## Findings

| source | as written | input that shows it | evidently intended | confidence | as-written member | corrected member |
|---|---|---|---|---|---|---|
| content/extra/mow-fsm/app.js:86-100 | the record of registered nodes is an object literal `{}`, so `nodes[name]` is truthy for names inherited from `Object.prototype`, and those nodes are never passed to `setNode` | a timeline whose only action is `add('toString')`, cursor at 0 | every named node is registered once, in order of first mention, whatever its name | not executed; follows from JavaScript property lookup on object literals | FrameSpec.InheritedNameCounterexample | FrameSpec.FrameNodes |
