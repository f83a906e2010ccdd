/**
 * One call of `retro_run`, as far as the glue layer decides it: translate
 * the joypad state, decide whether the frame is skipped, send a pending
 * latency request, run the CPU for one frame's cycle budget, and hand the
 * frame's samples to the frontend as interleaved stereo.
 *
 * The CPU, sound and DAC steps belong to the emulator core and are not
 * modelled: the CPU call is recorded as the cycle budget and skip flag it
 * receives, and the sound engine's mono samples are an input.
 */
module Frame {
  import opened Words
  import Frameskip
  import Input
  import Latency
  import Audio

  /** CPU_FREQ: the console CPU clock in Hz. */
  const CpuFreq: nat := 6144000

  /** The cycle budget `tlcs_execute` receives every frame. */
  const CyclesPerFrame: nat := CpuFreq / 60

  /** The glue's state that survives from one frame to the next. */
  datatype Glue = Glue(
    settings: Frameskip.Settings,
    counter: U16,
    monitor: Frameskip.BufferMonitor,
    latency: Latency.LatencyRequest,
    supportsBitmasks: bool,
    stereo: Audio.Buffer)

  /** What the frontend and the core supply for one frame: an audio-buffer
      status report sent since the previous frame, if any (it reaches the
      glue only while the status callback is registered); the joypad
      mask and per-button answers; and the mono samples the sound engine
      produced. */
  datatype Host = Host(
    report: Option<Frameskip.BufferStatus>,
    mask: bv32,
    query: nat -> int,
    mono: Audio.Buffer)

  /** What one frame hands on: the console input byte, the skip flag and
      cycle budget given to the CPU, the latency request sent (if any), and
      the stereo samples passed to the frontend with their frame count. */
  datatype Output = Output(
    input: bv32,
    skip: bool,
    cycles: nat,
    latencyRequest: Option<bv32>,
    audio: seq<I16>,
    frames: nat)

  datatype Step = Step(glue: Glue, out: Output)

  /** retro_audio_buff_status_cb: the status the controller reads next. A
      report reaches the glue only while the callback is registered. */
  function Reported(m: Frameskip.BufferMonitor, h: Host): (r: Frameskip.BufferStatus)
    ensures !m.registered || h.report.None? ==> r == m.status
    ensures m.registered && h.report.Some? ==> r == h.report.value
  {
    match h.report
    case Some(s) => if m.registered then s else m.status
    case None => m.status
  }

  /** retro_run, from the glue's point of view. */
  function RetroRun(b: Audio.Build, g: Glue, h: Host): (r: Step)
    // the console sees the translated joypad state
    ensures r.out.input == Input.RaceInput(g.supportsBitmasks, h.mask, h.query)
    ensures r.out.input & !Input.ConsoleMask == 0
    // the skip flag follows the controller
    ensures var f := Frameskip.FrameInput(g.settings, Reported(g.monitor, h));
            r.out.skip <==> Frameskip.Engaged(f) && Frameskip.Requested(f) && g.counter < Frameskip.FrameskipMax
    ensures var d := Frameskip.Decide(Frameskip.FrameInput(g.settings, Reported(g.monitor, h)), g.counter);
            r.out.skip == d.skip && r.glue.counter == d.counter
    ensures r.glue.monitor == g.monitor.(status := Reported(g.monitor, h))
    // the CPU always gets the full budget, skipped or not
    ensures r.out.cycles == 102400
    // a pending latency is sent exactly once
    ensures r.out.latencyRequest == (if g.latency.updateLatency then Some(g.latency.audioLatency) else None)
    ensures !r.glue.latency.updateLatency
    ensures r.glue.latency.audioLatency == g.latency.audioLatency
    // the frontend receives every sample of the frame on both channels
    ensures r.out.frames == Audio.SamplesPerFrame(b)
    ensures |r.out.audio| == 2 * r.out.frames
    ensures forall i | 0 <= i < r.out.frames :: r.out.audio[2 * i] == h.mono[i] && r.out.audio[2 * i + 1] == h.mono[i]
    // the static stereo buffer keeps the frame's samples and, beyond them, what it held before
    ensures r.glue.stereo == Audio.Interleaved(h.mono, g.stereo, r.out.frames)
    // configuration is left alone
    ensures r.glue.settings == g.settings && r.glue.supportsBitmasks == g.supportsBitmasks
  {
    var input := Input.RaceInput(g.supportsBitmasks, h.mask, h.query);
    var status := Reported(g.monitor, h);
    var d := Frameskip.Decide(Frameskip.FrameInput(g.settings, status), g.counter);
    var request := if g.latency.updateLatency then Some(g.latency.audioLatency) else None;
    var n := Audio.SamplesPerFrame(b);
    var stereo := Audio.Interleaved(h.mono, g.stereo, n);
    var sent := Audio.Sent(h.mono, g.stereo, n);
    assert |sent| == 2 * n;
    assert forall i | 0 <= i < n :: sent[2 * i] == h.mono[i] && sent[2 * i + 1] == h.mono[i];
    Step(
      g.(counter := d.counter,
         monitor := g.monitor.(status := status),
         latency := g.latency.(updateLatency := false),
         stereo := stereo),
      Output(input, d.skip, CyclesPerFrame, request, sent, n))
  }

  /** The glue's other outputs do not depend on the frame-skip state: two
      frames that differ only in their frame-skip configuration, counter and
      buffer status give the CPU the same input and cycle budget and the
      frontend the same audio and latency request. Only the skip flag passed
      to the CPU can differ. */
  lemma SkipStateIndependentOutputs(b: Audio.Build, g1: Glue, g2: Glue, h: Host)
    requires g1.supportsBitmasks == g2.supportsBitmasks && g1.stereo == g2.stereo
    requires g1.latency.updateLatency == g2.latency.updateLatency
    requires g1.latency.audioLatency == g2.latency.audioLatency
    ensures var o1, o2 := RetroRun(b, g1, h).out, RetroRun(b, g2, h).out;
            o1.input == o2.input && o1.cycles == o2.cycles &&
            o1.audio == o2.audio && o1.frames == o2.frames &&
            o1.latencyRequest == o2.latencyRequest
  {
  }

  /** The frame-skip inputs the controller sees over consecutive frames. */
  function FrameInputs(settings: Frameskip.Settings, m: Frameskip.BufferMonitor,
                       hosts: seq<Host>): (fs: seq<Frameskip.FrameInput>)
    ensures |fs| == |hosts|
    decreases |hosts|
  {
    if |hosts| == 0 then
      []
    else
      var s := Reported(m, hosts[0]);
      [Frameskip.FrameInput(settings, s)] + FrameInputs(settings, m.(status := s), hosts[1..])
  }

  /** Consecutive calls of retro_run. */
  function RetroRuns(b: Audio.Build, g: Glue, hosts: seq<Host>): (outs: seq<Output>)
    ensures |outs| == |hosts|
    decreases |hosts|
  {
    if |hosts| == 0 then
      []
    else
      var r := RetroRun(b, g, hosts[0]);
      [r.out] + RetroRuns(b, r.glue, hosts[1..])
  }

  /** The skip flags of a sequence of outputs. */
  function Skips(outs: seq<Output>): (s: seq<bool>)
    ensures |s| == |outs|
    ensures forall i | 0 <= i < |outs| :: s[i] == outs[i].skip
  {
    seq(|outs|, i requires 0 <= i < |outs| => outs[i].skip)
  }

  /** Over consecutive frames, retro_run skips exactly the frames the
      controller skips when run on the reported statuses. */
  lemma {:induction false} RetroRunsFollowController(b: Audio.Build, g: Glue, hosts: seq<Host>)
    ensures Skips(RetroRuns(b, g, hosts)) ==
            Frameskip.Run(FrameInputs(g.settings, g.monitor, hosts), g.counter).skips
    decreases |hosts|
  {
    if |hosts| > 0 {
      var r := RetroRun(b, g, hosts[0]);
      var rest := RetroRuns(b, r.glue, hosts[1..]);
      RetroRunsFollowController(b, r.glue, hosts[1..]);
      var fs := FrameInputs(g.settings, g.monitor, hosts);
      var d := Frameskip.Decide(fs[0], g.counter);
      assert fs == [fs[0]] + FrameInputs(r.glue.settings, r.glue.monitor, hosts[1..]);
      assert fs[1..] == FrameInputs(r.glue.settings, r.glue.monitor, hosts[1..]);
      assert Frameskip.Run(fs, g.counter).skips == [d.skip] + Frameskip.Run(fs[1..], d.counter).skips;
      SkipsCons(r.out, rest);
    }
  }

  /** The skip flags of one frame followed by more frames. */
  lemma SkipsCons(o: Output, outs: seq<Output>)
    ensures Skips([o] + outs) == [o.skip] + Skips(outs)
  {
  }

  /** From a counter within the ceiling, retro_run never skips more than
      FRAMESKIP_MAX frames in a row, whatever the frontend reports. */
  lemma RetroRunsPaint(b: Audio.Build, g: Glue, hosts: seq<Host>)
    requires g.counter <= Frameskip.FrameskipMax
    ensures forall i: nat | i + Frameskip.FrameskipMax + 1 <= |hosts| ::
              Frameskip.PaintedIn(Skips(RetroRuns(b, g, hosts)), i)
  {
    RetroRunsFollowController(b, g, hosts);
    Frameskip.NoLongSkipRun(FrameInputs(g.settings, g.monitor, hosts), g.counter);
  }

  /** With the status callback unregistered and the last status inactive,
      no later frame is skipped, whatever the frontend would report. */
  lemma {:induction false} UnregisteredNeverSkips(b: Audio.Build, g: Glue, hosts: seq<Host>)
    requires !g.monitor.registered && !g.monitor.status.active
    ensures Skips(RetroRuns(b, g, hosts)) == seq(|hosts|, _ => false)
    decreases |hosts|
  {
    if |hosts| > 0 {
      var r := RetroRun(b, g, hosts[0]);
      assert !r.out.skip;
      UnregisteredNeverSkips(b, r.glue, hosts[1..]);
      var rest := RetroRuns(b, r.glue, hosts[1..]);
      assert RetroRuns(b, g, hosts) == [r.out] + rest;
      SkipsCons(r.out, rest);
    }
  }

  /** A frontend that refuses buffer-status monitoring keeps frame-skip
      disengaged: after init_frameskip is refused, no frame is skipped. */
  lemma RefusedMonitoringNeverSkips(b: Audio.Build, g: Glue, estimate: bv32, hosts: seq<Host>)
    requires g.settings.frameskipType > 0
    ensures var i := Latency.InitFrameskip(g.settings, g.monitor, false, estimate);
            Skips(RetroRuns(b, g.(monitor := i.monitor, latency := i.latency), hosts)) == seq(|hosts|, _ => false)
  {
    var i := Latency.InitFrameskip(g.settings, g.monitor, false, estimate);
    var g0 := g.(monitor := i.monitor, latency := i.latency);
    UnregisteredNeverSkips(b, g0, hosts);
  }

  /** After init_frameskip the new latency reaches the frontend on the next
      frame and is not sent again on the frame after. */
  lemma LatencySentOnce(b: Audio.Build, g: Glue, accepted: bool, estimate: bv32, h1: Host, h2: Host)
    ensures var i := Latency.InitFrameskip(g.settings, g.monitor, accepted, estimate);
            var g0 := g.(monitor := i.monitor, latency := i.latency);
            var r1 := RetroRun(b, g0, h1);
            r1.out.latencyRequest == Some(g0.latency.audioLatency) &&
            RetroRun(b, r1.glue, h2).out.latencyRequest == None
  {
  }
}
