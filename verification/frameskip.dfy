/**
 * The frame-skip controller of `retro_run`.
 *
 * Its only memory is `frameskip_counter`, the number of frames skipped in a
 * row. Each frame it reads the configured mode (`frameskip_type`: 0 off,
 * 1 auto, 2 manual), the manual threshold, and the audio-buffer status the
 * frontend last reported, and decides whether the frame's paint is elided.
 * A hard ceiling of `FRAMESKIP_MAX` consecutive skips forces a paint.
 */
module Frameskip {
  import opened Words

  /** FRAMESKIP_MAX: the most frames that may be skipped in a row. */
  const FrameskipMax: U16 := 60

  /** The `frameskip_type` values the option parser produces. */
  const TypeOff: U32 := 0
  const TypeAuto: U32 := 1
  const TypeManual: U32 := 2

  /** The user's frame-skip configuration. `frameskipType` is kept as the raw
      unsigned: a value above 2 is not "off", it engages the controller but
      never requests a skip. */
  datatype Settings = Settings(frameskipType: U32, threshold: U32)

  /** What the frontend last reported through the audio-buffer status
      callback: whether monitoring is active, the buffer occupancy in
      percent, and whether an underrun is likely. */
  datatype BufferStatus = BufferStatus(active: bool, occupancy: U32, underrun: bool)

  /** The glue's view of the frontend's audio buffer: the status last
      reported (the `retro_audio_buff_*` globals) and whether the status
      callback is registered, which decides whether reports arrive at all. */
  datatype BufferMonitor = BufferMonitor(status: BufferStatus, registered: bool)

  /** Everything the controller reads in one frame. */
  datatype FrameInput = FrameInput(settings: Settings, status: BufferStatus)

  /** The decision for one frame and the counter it leaves behind. */
  datatype Decision = Decision(skip: bool, counter: U16)

  /** The controller takes part only when a mode is set and the frontend
      monitors its audio buffer. */
  predicate Engaged(f: FrameInput) {
    f.settings.frameskipType > TypeOff && f.status.active
  }

  /** The configured policy asks for a skip: auto on a likely underrun,
      manual when occupancy is strictly below the threshold. */
  predicate Requested(f: FrameInput) {
    || (f.settings.frameskipType == TypeAuto && f.status.underrun)
    || (f.settings.frameskipType == TypeManual && f.status.occupancy < f.settings.threshold)
  }

  /** One frame of the controller. */
  function Decide(f: FrameInput, counter: U16): (d: Decision)
    // a frame is skipped exactly when the policy asks and the ceiling allows
    ensures d.skip <==> Engaged(f) && Requested(f) && counter < FrameskipMax
    // off, or no buffer monitoring: never skipped, counter untouched
    ensures !Engaged(f) ==> !d.skip && d.counter == counter
    // auto mode: skipped only on a likely underrun below the ceiling
    ensures Engaged(f) && f.settings.frameskipType == TypeAuto ==>
              (d.skip <==> f.status.underrun && counter < FrameskipMax)
    // manual mode: skipped only when occupancy is under the threshold
    ensures Engaged(f) && f.settings.frameskipType == TypeManual ==>
              (d.skip <==> f.status.occupancy < f.settings.threshold && counter < FrameskipMax)
    // a skip counts one more; a painted engaged frame restarts the count
    ensures d.skip ==> d.counter == counter + 1
    ensures Engaged(f) && !d.skip ==> d.counter == 0
    ensures counter <= FrameskipMax ==> d.counter <= FrameskipMax
  {
    if f.settings.frameskipType > 0 && f.status.active then
      var want :=
        match f.settings.frameskipType
        case 1 => f.status.underrun
        case 2 => f.status.occupancy < f.settings.threshold
        case _ => false;
      if !want || counter >= FrameskipMax then
        Decision(false, 0)
      else
        Decision(true, counter + 1)
    else
      Decision(false, counter)
  }

  /** The decisions of a run of frames and the counter after the last one. */
  datatype Trace = Trace(skips: seq<bool>, counter: U16)

  /** Runs the controller over consecutive frames, starting from `counter`. */
  function Run(frames: seq<FrameInput>, counter: U16): (t: Trace)
    ensures |t.skips| == |frames|
    ensures counter <= FrameskipMax ==> t.counter <= FrameskipMax
    decreases |frames|
  {
    if |frames| == 0 then
      Trace([], counter)
    else
      var d := Decide(frames[0], counter);
      var rest := Run(frames[1..], d.counter);
      Trace([d.skip] + rest.skips, rest.counter)
  }

  /** The controller is memoryless apart from its counter: running a prefix
      and then the rest gives the same decisions as running the whole. */
  lemma {:induction false} RunSplit(frames: seq<FrameInput>, counter: U16, i: nat)
    requires i <= |frames|
    ensures Run(frames, counter).skips[i..] == Run(frames[i..], Run(frames[..i], counter).counter).skips
    decreases i
  {
    if i > 0 {
      var d := Decide(frames[0], counter);
      RunSplit(frames[1..], d.counter, i - 1);
      assert frames[1..][i - 1..] == frames[i..];
      assert frames[1..][..i - 1] == frames[..i][1..];
    }
  }

  /** From a counter within the ceiling, one of the next
      `FrameskipMax + 1 - counter` frames is painted, whatever the inputs. */
  lemma {:induction false} PaintWithinCeiling(frames: seq<FrameInput>, counter: U16)
    requires counter <= FrameskipMax
    requires |frames| >= FrameskipMax + 1 - counter
    ensures false in Run(frames, counter).skips[..FrameskipMax + 1 - counter]
    decreases FrameskipMax - counter
  {
    var d := Decide(frames[0], counter);
    var t := Run(frames, counter);
    if d.skip {
      PaintWithinCeiling(frames[1..], d.counter);
      var rest := Run(frames[1..], d.counter).skips;
      assert t.skips[..FrameskipMax + 1 - counter] == [true] + rest[..FrameskipMax + 1 - d.counter];
    } else {
      assert t.skips[0] == false;
    }
  }

  /** The window of FRAMESKIP_MAX + 1 frames starting at `start` includes a
      painted one. */
  predicate PaintedIn(skips: seq<bool>, start: nat) {
    start + FrameskipMax + 1 <= |skips| && false in skips[start..start + FrameskipMax + 1]
  }

  /** No run of more than FRAMESKIP_MAX consecutive frames is skipped: every
      window of FRAMESKIP_MAX + 1 frames contains a painted one. */
  lemma NoLongSkipRun(frames: seq<FrameInput>, counter: U16)
    requires counter <= FrameskipMax
    ensures forall i: nat | i + FrameskipMax + 1 <= |frames| ::
              PaintedIn(Run(frames, counter).skips, i)
  {
    forall i: nat | i + FrameskipMax + 1 <= |frames|
      ensures PaintedIn(Run(frames, counter).skips, i)
    {
      var mid := Run(frames[..i], counter).counter;
      RunSplit(frames, counter, i);
      PaintWithinCeiling(frames[i..], mid);
      var tail := Run(frames[i..], mid).skips;
      assert Run(frames, counter).skips[i..i + FrameskipMax + 1] == tail[..FrameskipMax + 1];
      assert tail[..FrameskipMax + 1 - mid] == tail[..FrameskipMax + 1][..FrameskipMax + 1 - mid];
    }
  }

  /** A frame on which the policy asks for a skip. */
  predicate Pressured(f: FrameInput) {
    Engaged(f) && Requested(f)
  }

  /** Under sustained pressure the controller settles into a fixed cycle:
      FRAMESKIP_MAX skipped frames, then one forced paint. Frame k is
      painted exactly when k + counter is 60 modulo 61. */
  lemma {:induction false} SustainedPressureCycle(frames: seq<FrameInput>, counter: U16)
    requires counter <= FrameskipMax
    requires forall k | 0 <= k < |frames| :: Pressured(frames[k])
    ensures forall k | 0 <= k < |frames| ::
              Run(frames, counter).skips[k] <==> (k + counter) % (FrameskipMax + 1) != FrameskipMax
    decreases |frames|
  {
    if |frames| > 0 {
      var d := Decide(frames[0], counter);
      var next: U16 := if counter < FrameskipMax then counter + 1 else 0;
      assert Pressured(frames[0]);
      assert d.counter == next;
      SustainedPressureCycle(frames[1..], next);
      var t := Run(frames, counter).skips;
      assert t == [d.skip] + Run(frames[1..], next).skips;
      forall k | 0 <= k < |frames|
        ensures t[k] <==> (k + counter) % (FrameskipMax + 1) != FrameskipMax
      {
        if k > 0 {
          assert t[k] == Run(frames[1..], next).skips[k - 1];
          ShiftCycle(k, counter);
        }
      }
    }
  }

  /** Moving one frame along the cycle: position k from `counter` is
      position k - 1 from the counter after one pressured frame. */
  lemma ShiftCycle(k: nat, counter: U16)
    requires 0 < k && counter <= FrameskipMax
    ensures (k - 1 + (if counter < FrameskipMax then counter + 1 else 0)) % (FrameskipMax + 1)
            == (k + counter) % (FrameskipMax + 1)
  {
  }

  /** With frame-skip disengaged throughout, nothing is skipped and the
      counter is carried through unchanged. */
  lemma {:induction false} DisengagedRun(frames: seq<FrameInput>, counter: U16)
    requires forall k | 0 <= k < |frames| :: !Engaged(frames[k])
    ensures Run(frames, counter) == Trace(seq(|frames|, _ => false), counter)
    decreases |frames|
  {
    if |frames| > 0 {
      assert !Engaged(frames[0]);
      DisengagedRun(frames[1..], counter);
    }
  }
}
