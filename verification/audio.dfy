/**
 * Per-frame audio in `retro_run`: the number of samples a frame carries and
 * the duplication of the mono sample buffer into the interleaved stereo
 * buffer handed to the frontend.
 *
 * Both buffers are static arrays of 2048 `int16_t`, so the stereo buffer
 * keeps whatever an earlier frame left beyond the entries a frame writes.
 * The mono samples themselves come from the sound engine and are an input.
 */
module Audio {
  import opened Words

  /** Length of the static `sampleBuffer` and `stereoBuffer`. */
  const BufferLen: nat := 2048

  /** The divisor `retro_run` uses for the frame rate. */
  const FramesPerSecond: nat := 60

  /** A static sample buffer. */
  type Buffer = s: seq<I16> | |s| == BufferLen witness seq(BufferLen, _ => 0)

  /** The two builds: the default one and the SF2000 one. */
  datatype Build = Standard | Sf2000

  /** RETRO_SAMPLE_RATE of each build. */
  function SampleRate(b: Build): nat {
    match b
    case Standard => 44100
    case Sf2000 => 11025
  }

  /** `samplesPerFrame = RETRO_SAMPLE_RATE / 60`, stored in a `uint16_t`:
      the whole number of samples that fit in one sixtieth of a second,
      small enough that two channels of them fit the stereo buffer. */
  function SamplesPerFrame(b: Build): (n: U16)
    ensures n * FramesPerSecond <= SampleRate(b) < (n + 1) * FramesPerSecond
    ensures 2 * n <= BufferLen
    ensures b == Standard ==> n == 735
    ensures b == Sf2000 ==> n == 183
  {
    SampleRate(b) / FramesPerSecond
  }

  /** The stereo buffer after a frame: the first `n` mono samples each
      written to both channels, everything beyond left as it was. */
  function Interleaved(mono: Buffer, previous: Buffer, n: nat): (stereo: Buffer)
    requires 2 * n <= BufferLen
    ensures forall i | 0 <= i < n :: stereo[2 * i] == mono[i] && stereo[2 * i + 1] == mono[i]
    ensures forall k | 2 * n <= k < BufferLen :: stereo[k] == previous[k]
  {
    seq(BufferLen, k requires 0 <= k < BufferLen =>
      if k < 2 * n then mono[k / 2] else previous[k])
  }

  /** What `audio_batch_cb` is handed: the first `n` stereo frames of the
      buffer, each one a mono sample on both channels. */
  function Sent(mono: Buffer, previous: Buffer, n: nat): (sent: seq<I16>)
    requires 2 * n <= BufferLen
    ensures |sent| == 2 * n
    ensures forall i | 0 <= i < n :: sent[2 * i] == mono[i] && sent[2 * i + 1] == mono[i]
  {
    Interleaved(mono, previous, n)[..2 * n]
  }

  /** The loop of `retro_run` that writes `p[0] = p[1] = sampleBuffer[i]`
      and advances `p` by two. */
  method StereoFrame(b: Build, mono: Buffer, previous: Buffer) returns (stereo: Buffer, frames: U16)
    ensures frames == SamplesPerFrame(b)
    ensures forall i | 0 <= i < frames :: stereo[2 * i] == mono[i] && stereo[2 * i + 1] == mono[i]
    ensures forall k | 2 * frames <= k < BufferLen :: stereo[k] == previous[k]
    ensures stereo == Interleaved(mono, previous, frames)
  {
    frames := SamplesPerFrame(b);
    stereo := previous;
    var i := 0;
    while i < frames
      invariant 0 <= i <= frames
      invariant forall k | 0 <= k < 2 * i :: stereo[k] == mono[k / 2]
      invariant forall k | 2 * i <= k < BufferLen :: stereo[k] == previous[k]
    {
      stereo := stereo[2 * i := mono[i]][2 * i + 1 := mono[i]];
      i := i + 1;
    }
  }

  /** One channel of an interleaved stereo sequence. */
  function Channel(stereo: seq<I16>, right: bool): (c: seq<I16>)
    ensures |c| == |stereo| / 2
    ensures forall i | 0 <= i < |c| :: c[i] == stereo[2 * i + (if right then 1 else 0)]
  {
    seq(|stereo| / 2, i requires 0 <= i < |stereo| / 2 =>
      if right then stereo[2 * i + 1] else stereo[2 * i])
  }

  /** What the frontend receives: the first `2 * n` entries, `n` stereo
      frames. Splitting them into channels gives the mono samples back on
      both sides. */
  lemma ChannelsRecoverMono(mono: Buffer, previous: Buffer, n: nat)
    requires 2 * n <= BufferLen
    ensures Channel(Sent(mono, previous, n), false) == mono[..n]
    ensures Channel(Sent(mono, previous, n), true) == mono[..n]
  {
    var sent := Sent(mono, previous, n);
    assert |sent| / 2 == n;
    var left, right := Channel(sent, false), Channel(sent, true);
    assert |left| == |right| == |mono[..n]| == n;
    forall i | 0 <= i < n
      ensures left[i] == mono[..n][i] && right[i] == mono[..n][i]
    {
      assert sent[2 * i] == mono[i] && sent[2 * i + 1] == mono[i];
    }
  }
}
