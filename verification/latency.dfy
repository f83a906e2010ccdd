/**
 * `init_frameskip`: registering for audio-buffer status and choosing the
 * minimum audio latency to request from the frontend.
 *
 * With frame-skip on, the latency is six frame times in milliseconds,
 * rounded to the nearest integer in single precision and then rounded up to
 * a multiple of 32 with `(x + 0x1F) & ~0x1F` on a 32-bit unsigned. The
 * floating-point estimate is an input here; only the integer step is
 * modelled.
 */
module Latency {
  import Frameskip

  /** The largest value that `(x + 0x1F)` does not wrap for. */
  const NoWrapLimit: bv32 := 0xFFFF_FFE0

  /** `(x + 0x1F) & ~0x1F` on a C `unsigned`. */
  function RoundUp32(x: bv32): (r: bv32)
    // without wrap-around: a multiple of 32, at least x, less than x + 32
    ensures x <= NoWrapLimit ==> r % 32 == 0 && x <= r && r - x < 32
    // the addition wraps for the top 31 values, and the result is 0
    ensures x > NoWrapLimit ==> r == 0
  {
    (x + 0x1F) & !0x1F
  }

  /** The round-up is the least multiple of 32 that is at least x. */
  lemma RoundUpIsLeast(x: bv32, m: bv32)
    requires x <= NoWrapLimit
    requires m % 32 == 0 && x <= m
    ensures RoundUp32(x) <= m
  {
  }

  /** A multiple of 32 is left as it is. */
  lemma RoundUpIdempotent(x: bv32)
    ensures RoundUp32(RoundUp32(x)) == RoundUp32(x)
  {
  }

  /** The latency to request from the frontend and whether it still has to
      be sent. */
  datatype LatencyRequest = LatencyRequest(audioLatency: bv32, updateLatency: bool)

  /** What init_frameskip leaves behind: the buffer monitor and the latency
      request. */
  datatype InitResult = InitResult(monitor: Frameskip.BufferMonitor, latency: LatencyRequest)

  /** init_frameskip. `statusCallbackAccepted` is the frontend's answer to
      the request to register the buffer-status callback; `estimate` is the
      truncated six-frame-time latency in milliseconds. */
  function InitFrameskip(settings: Frameskip.Settings, monitor: Frameskip.BufferMonitor,
                         statusCallbackAccepted: bool, estimate: bv32): (r: InitResult)
    // the new latency is always sent on the next frame
    ensures r.latency.updateLatency
    // frame-skip off: callback unregistered, no extra latency, status left as it was
    ensures settings.frameskipType == 0 ==>
              !r.monitor.registered && r.latency.audioLatency == 0 && r.monitor.status == monitor.status
    // frontend refuses buffer monitoring: callback unregistered and status cleared
    ensures settings.frameskipType > 0 && !statusCallbackAccepted ==>
              && !r.monitor.registered && r.latency.audioLatency == 0
              && r.monitor.status == Frameskip.BufferStatus(false, 0, false)
    // frontend accepts: callback registered, latency the least multiple of 32 not below the estimate
    ensures settings.frameskipType > 0 && statusCallbackAccepted ==>
              && r.monitor.registered && r.monitor.status == monitor.status
              && (estimate <= NoWrapLimit ==>
                    var l := r.latency.audioLatency;
                    l % 32 == 0 && estimate <= l && l - estimate < 32)
  {
    if settings.frameskipType > 0 then
      if !statusCallbackAccepted then
        InitResult(Frameskip.BufferMonitor(Frameskip.BufferStatus(false, 0, false), false),
                   LatencyRequest(0, true))
      else
        InitResult(monitor.(registered := true), LatencyRequest(RoundUp32(estimate), true))
    else
      InitResult(monitor.(registered := false), LatencyRequest(0, true))
  }

  /** At 60.25 frames per second six frame times are 99.59 ms, which the
      `+ 0.5` truncation turns into 100; the frontend is then asked for
      128 ms. */
  lemma DefaultLatency()
    ensures RoundUp32(100) == 128
  {
  }
}
