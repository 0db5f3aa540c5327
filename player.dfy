/**
 The player that drives a timeline: a play/pause toggle, a step-forward
 click, a step-back click, and an auto-advance tick that a timer fires.
 The timer is represented by whether a tick is pending; drawing the diagram
 is represented by the frame last handed to the drawing routine.
 */
module Player {
  import opened Actions
  import opened FrameSpec
  import opened Timelines

  class FsmPlayer {
    const frames: Timeline
    var playing: bool
    /** A tick is scheduled and not yet fired or cancelled. */
    var timerPending: bool
    /** The frame last drawn; `None` until the first draw. */
    var shown: Option<seq<Call>>

    /**
     Between events a tick is pending exactly while playing, and whatever
     was drawn is the timeline's frame at its cursor.
     */
    ghost predicate Valid()
      reads this, frames
    {
      && frames.Valid()
      && timerPending == playing
      && (shown.Some? ==> shown.value == frames.FrameView())
    }

    /** Controls start in the paused state; nothing is drawn until the first step or tick. */
    constructor (t: Timeline)
      requires t.Valid()
      ensures Valid()
      ensures frames == t && !playing && !timerPending && shown == None
    {
      frames := t;
      playing := false;
      timerPending := false;
      shown := None;
    }

    /** Draws the timeline's current frame. */
    method RenderFrame()
      modifies this
      ensures shown == Some(frames.FrameView())
      ensures playing == old(playing) && timerPending == old(timerPending)
    {
      var calls := frames.Frame();
      shown := Some(calls);
    }

    /**
     One playback step: advance the timeline; at the end stop playing
     without drawing; otherwise schedule the next tick if still playing and
     draw. It is only entered with no tick pending, so at most one tick is
     ever scheduled.
     */
    method Play()
      requires frames.Valid() && !timerPending
      modifies this, frames
      ensures frames.Valid() && frames.actions == old(frames.actions)
      ensures old(frames.pos) < |frames.actions| - 1 ==>
        && frames.pos == old(frames.pos) + 1
        && playing == old(playing) && timerPending == old(playing)
        && shown == Some(frames.FrameView())
      ensures !(old(frames.pos) < |frames.actions| - 1) ==>
        && frames.pos == old(frames.pos)
        && !playing && !timerPending
        && shown == old(shown)
    {
      var moved := frames.Next();
      if !moved {
        playing := false;
        return;
      } else if playing {
        timerPending := true;
      }
      RenderFrame();
    }

    /**
     The play/pause click. Pausing cancels the pending tick. Playing from a
     finished timeline rewinds it first, then plays one step at once.
     */
    method Toggle()
      requires Valid()
      modifies this, frames
      ensures Valid()
      ensures frames.actions == old(frames.actions)
      ensures old(playing) ==> !playing && frames.pos == old(frames.pos) && shown == old(shown)
      ensures !old(playing) ==>
        var start := if old(frames.Finished()) then -1 else old(frames.pos);
        if start < |frames.actions| - 1 then
          playing && frames.pos == start + 1 && shown == Some(frames.FrameView())
        else
          !playing && frames.pos == start && shown == old(shown)
    {
      if playing {
        playing := false;
        timerPending := false;
      } else {
        playing := true;
        if frames.Finished() {
          frames.Rewind();
        }
        Play();
      }
    }

    /**
     The step-forward click: ignored while playing; otherwise advance if
     possible and draw, whether or not the cursor moved.
     */
    method StepForward()
      requires Valid()
      modifies this, frames
      ensures Valid()
      ensures frames.actions == old(frames.actions) && playing == old(playing)
      ensures old(playing) ==> frames.pos == old(frames.pos) && shown == old(shown)
      ensures !old(playing) ==>
        && frames.pos == (if old(frames.pos) < |frames.actions| - 1 then old(frames.pos) + 1 else old(frames.pos))
        && shown == Some(frames.FrameView())
    {
      if playing {
        return;
      }
      var moved := frames.Next();
      RenderFrame();
    }

    /**
     The step-back click: ignored while playing; otherwise go back if
     possible and draw, whether or not the cursor moved.
     */
    method StepBack()
      requires Valid()
      modifies this, frames
      ensures Valid()
      ensures frames.actions == old(frames.actions) && playing == old(playing)
      ensures old(playing) ==> frames.pos == old(frames.pos) && shown == old(shown)
      ensures !old(playing) ==>
        && frames.pos == (if old(frames.pos) >= 0 then old(frames.pos) - 1 else old(frames.pos))
        && shown == Some(frames.FrameView())
    {
      if playing {
        return;
      }
      var moved := frames.Prev();
      RenderFrame();
    }

    /**
     The scheduled tick fires: the pending timer is used up and one
     playback step runs. A tick that cannot advance stops playback and
     leaves nothing scheduled.
     */
    method Tick()
      requires Valid() && timerPending
      modifies this, frames
      ensures Valid()
      ensures frames.actions == old(frames.actions)
      ensures old(frames.pos) < |frames.actions| - 1 ==>
        playing && timerPending && frames.pos == old(frames.pos) + 1 && shown == Some(frames.FrameView())
      ensures !(old(frames.pos) < |frames.actions| - 1) ==>
        !playing && !timerPending && frames.pos == old(frames.pos) && shown == old(shown)
    {
      timerPending := false;
      Play();
    }
  }

  /**
   Stepping forward and then back while paused, from a cursor that can
   advance, draws exactly the frame the cursor started on.
   */
  method StepForwardThenBack(p: FsmPlayer)
    requires p.Valid() && !p.playing && p.frames.pos < |p.frames.actions| - 1
    modifies p, p.frames
    ensures p.Valid() && p.frames.pos == old(p.frames.pos)
    ensures p.shown == Some(old(p.frames.FrameView()))
  {
    p.StepForward();
    p.StepBack();
  }

  /**
   A three-element timeline played to the end: the toggle plays the first
   step, two ticks the next two, and the third tick finds nothing left,
   stops playback and schedules nothing.
   */
  method AutoPlayToEnd()
  {
    var t := new Timeline();
    t.Add("S1", Some("S2"), Some("Arg(SRC)"));
    t.Add("S2", Some("S3"), Some("Arg(DST)"));
    t.Add("S1", Some("S3"), Some("*"));
    var p := new FsmPlayer(t);
    p.Toggle();
    assert p.playing && p.timerPending && t.pos == 0;
    p.Tick();
    p.Tick();
    assert p.playing && p.timerPending && t.pos == 2;
    p.Tick();
    assert !p.playing && !p.timerPending && t.pos == 2 && t.Finished();
  }
}
