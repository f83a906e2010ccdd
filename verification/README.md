# RACE libretro glue: a verified Dafny model

RACE emulates the Neo Geo Pocket (Color) handheld. Its libretro glue layer
(`libretro/libretro.c`) connects the emulator core to a libretro frontend.
The core itself (CPU interpreter, memory bus, sound chip, display, save
states) is not part of this model. What is modelled is the self-contained,
deterministic integer logic of the glue:

- **Frame-skip controller** (`frameskip.dfy`, module `Frameskip`). Each frame,
  `retro_run` decides whether the display paint is elided. The decision reads
  the configured mode (`frameskip_type`: 0 off, 1 auto, 2 manual), the manual
  threshold, and the audio-buffer status last reported by the frontend. The
  controller's only memory is `frameskip_counter`, the number of frames
  skipped in a row. After `FRAMESKIP_MAX` = 60 skips in a row, a paint is
  forced.
- **Button translation** (`input.dfy`, module `Input`). The seven-row
  `btn_map` maps libretro joypad ids to console input bits. There are two
  paths: `get_race_input_bitmasks` reads the whole joypad mask at once, and
  `get_race_input` queries each button. `race_input` picks one of them.
- **Latency round-up** (`latency.dfy`, module `Latency`). `init_frameskip`
  computes `(x + 0x1F) & ~0x1F` on a 32-bit unsigned. The module also models
  its branches on frame-skip mode and on whether the frontend accepts
  buffer-status monitoring. It yields two records: the buffer monitor
  (`Frameskip.BufferMonitor`: the last reported status and whether the
  status callback is registered) and the latency request.
- **Per-frame audio** (`audio.dfy`, module `Audio`). `samplesPerFrame` is
  `RETRO_SAMPLE_RATE / 60`. A loop duplicates each mono sample into the
  static 2048-entry interleaved stereo buffer.
- **One frame** (`frame.dfy`, module `Frame`). `retro_run` composes the four
  pieces above. A buffer-status report reaches the controller only while
  the status callback is registered. It sends a pending latency request once and gives the CPU
  `CPU_FREQ / 60` cycles. Over many frames, `retro_run` skips exactly what the
  controller decides.

`words.dfy` (module `Words`) defines the C integer widths: `uint16_t`,
`unsigned` and `int16_t`. Bit-level values (joypad masks, console input, the
latency) are `bv32`. Counters and thresholds are bounded integers. The
`uint16_t` counter is only incremented below 60, so it never wraps.

The joypad ids come from the libretro API: B = 0, START = 3, UP = 4,
DOWN = 5, LEFT = 6, RIGHT = 7, A = 8. `libretro.h` itself is not part of this
model.

Three points where the code behaves differently from what a reader might
expect:

- A frame that is not skipped resets the counter to 0 only while frame-skip
  is engaged. Engaged means the mode is non-zero and the buffer is monitored.
  With frame-skip disengaged, the counter is carried over unchanged
  (`Frameskip.Decide`, `Frameskip.DisengagedRun`).
- A `frameskip_type` above 2 is not the same as "off". It engages the
  controller and resets the counter, but it never requests a skip.
- The samples per frame are computed with a divisor of 60. The reported
  timing is 60.25 frames per second.

## Model

| member | source | states |
|---|---|---|
| Frameskip.Decide | libretro/libretro.c:391-414 | A frame is skipped iff frame-skip is engaged, the mode requests it (auto: underrun likely; manual: occupancy strictly below threshold), and the counter is below 60. When disengaged: no skip, counter unchanged. A skip adds exactly 1 to the counter. An engaged paint resets it to 0. The bound of 60 is preserved. |
| Frameskip.Run | libretro/libretro.c:407-413 | Running the controller over any frame sequence gives one decision per frame. Starting from a counter of at most 60, the counter stays at most 60. |
| Frameskip.RunSplit | libretro/libretro.c:392-414 | The decisions after frame i depend only on the counter left by the first i frames. |
| Frameskip.PaintWithinCeiling | libretro/libretro.c:407-413 | From counter c ≤ 60, at least one of the next 61 - c frames is painted, whatever the inputs. |
| Frameskip.NoLongSkipRun | libretro/libretro.c:48-50 | Every window of 61 consecutive frames contains a painted frame: never more than FRAMESKIP_MAX skips in a row. |
| Frameskip.SustainedPressureCycle | libretro/libretro.c:396-413 | When every frame requests a skip, frame k is painted iff (k + counter) mod 61 = 60. This is exactly 60 skips, then one forced paint. |
| Frameskip.DisengagedRun | libretro/libretro.c:392-414 | With frame-skip disengaged on every frame, no frame is skipped and the counter is unchanged. |
| Input.ConsoleBits | libretro/libretro.c:126-134 | The console byte for any set of pressed buttons lies within 0x7F. |
| Input.ConsoleBitsHas | libretro/libretro.c:126-134 | A button's console bit is set in the encoding iff the button is in the pressed set. |
| Input.ButtonsOf | libretro/libretro.c:126-134 | Decoding a console byte gives exactly the buttons whose bit is set. |
| Input.TableIsInjective | libretro/libretro.c:126-134 | Every console bit in the table is a single non-zero bit inside 0x7F. Distinct buttons have distinct frontend ids and disjoint console bits. |
| Input.ButtonsOfConsoleBits | libretro/libretro.c:126-134 | Decoding after encoding returns the same button set. |
| Input.ConsoleBitsOfButtonsOf | libretro/libretro.c:126-134 | Encoding after decoding keeps exactly the bits under 0x7F. |
| Input.ConsoleBitsAgreesWithTable | libretro/libretro.c:126-134 | The encoding of a single button is its btn_map console bit, and all seven buttons encode to 0x7F. |
| Input.ConsoleBitsInsert | libretro/libretro.c:304 | Adding one pressed button ORs in exactly its console bit. |
| Input.OrRows | libretro/libretro.c:303-304 | After n table rows, the accumulated value is the encoding of the pressed buttons among those n rows. |
| Input.AllRowsVisited | libretro/libretro.c:312-313 | Visiting all seven rows covers every console button. |
| Input.FromMask | libretro/libretro.c:298-306 | The bitmask path returns the encoding of exactly the buttons whose bit is set in the joypad mask. |
| Input.FromQueries | libretro/libretro.c:308-315 | The per-button path returns the encoding of exactly the buttons whose query answer is non-zero. |
| Input.TranslationBits | libretro/libretro.c:298-315 | On both paths, a console bit is set iff its frontend button is pressed, and nothing outside 0x7F is set. |
| Input.RaceInput | libretro/libretro.c:317-325 | race_input uses the mask path when bitmasks are supported and the per-button path otherwise. The result lies within 0x7F. |
| Input.PathsAgree | libretro/libretro.c:298-325 | If each per-button answer agrees with the corresponding mask bit, both paths produce the same console byte. race_input then does not depend on bitmask support. |
| Latency.RoundUp32 | libretro/libretro.c:92 | For x ≤ 0xFFFFFFE0, the result is a multiple of 32, at least x and less than x + 32. For larger x, the 32-bit addition wraps and the result is 0. |
| Latency.RoundUpIsLeast | libretro/libretro.c:92 | No multiple of 32 that is at least x is smaller than the round-up. |
| Latency.RoundUpIdempotent | libretro/libretro.c:92 | Rounding an already rounded value changes nothing. |
| Latency.InitFrameskip | libretro/libretro.c:63-102 | With mode 0: the status callback is unregistered, latency 0 and status untouched. With the monitoring request refused: callback unregistered, status cleared to inactive and latency 0. With it accepted: callback registered and latency the estimate rounded up to a multiple of 32. In every case the latency is marked for sending. |
| Latency.DefaultLatency | libretro/libretro.c:86-92 | The six-frame-time estimate of 100 ms is requested as 128 ms. |
| Audio.SamplesPerFrame | libretro/libretro.c:427-428 | With RETRO_SAMPLE_RATE 44100, or 11025 on the SF2000 build (libretro/libretro.c lines 105-109), samplesPerFrame is the truncated quotient of the sample rate by 60: 735 for 44100 Hz and 183 for 11025 Hz. Both channels of a frame fit the 2048-entry buffer. |
| Audio.Interleaved | libretro/libretro.c:435-442 | The stereo buffer after a frame holds each of the first n mono samples on both channels. Entries from 2n up to 2048 keep their previous values. |
| Audio.Sent | libretro/libretro.c:444 | What audio_batch_cb receives is exactly 2n entries, with each mono sample on both channels. |
| Audio.StereoFrame | libretro/libretro.c:435-442 | The loop writes stereo[2i] = stereo[2i+1] = mono[i] for every i < samplesPerFrame. It leaves every entry from 2·samplesPerFrame up to 2048 as the previous frame left it. |
| Audio.ChannelsRecoverMono | libretro/libretro.c:435-444 | Both channels of the 2·samplesPerFrame entries sent to the frontend equal the first samplesPerFrame mono samples. |
| Frame.RetroRun | libretro/libretro.c:376-445 | One frame: the console gets the translated input. The skip flag and new counter follow the controller. The CPU gets 102400 cycles either way. A pending latency is sent and cleared; the latency value is kept. A status report is taken only while the callback is registered, and the registration is kept. The frontend receives samplesPerFrame stereo frames duplicating the mono samples. The static stereo buffer holds those frames and, past them, what it held before. Settings and the bitmask capability are unchanged. |
| Frame.SkipStateIndependentOutputs | libretro/libretro.c:425-444 | Frames differing only in frame-skip mode, counter and buffer status give the CPU the same input and cycle budget, and the frontend the same audio and latency request. |
| Frame.Reported | libretro/libretro.c:55-61 | A status report reaches the controller only while the status callback is registered. Otherwise, or with no report, the previous status stays. |
| Frame.RetroRunsFollowController | libretro/libretro.c:391-414 | Over consecutive frames, retro_run skips exactly the frames the controller skips on the reported statuses. |
| Frame.RetroRunsPaint | libretro/libretro.c:407-413 | Over consecutive retro_run calls from a counter of at most 60, no more than 60 frames in a row are skipped, whatever the frontend reports. |
| Frame.UnregisteredNeverSkips | libretro/libretro.c:392-414 | With the status callback unregistered and the last status inactive, no later frame is skipped, whatever the frontend would report. |
| Frame.RefusedMonitoringNeverSkips | libretro/libretro.c:70-80 | After the frontend refuses buffer-status monitoring in init_frameskip, no frame is ever skipped. |
| Frame.LatencySentOnce | libretro/libretro.c:416-423 | After init_frameskip, the new latency is sent on the next frame and not again on the frame after. |

## Left out

- The emulator core is not part of this model: the CPU interpreter
  (`tlcs_execute`), the bus and flash (`mainemuinit`, `flashShutdown`,
  `handleInputFile`), sound and DAC mixing (`sound_update`, `dac_update`),
  and save states (`state_get_size`, `state_store_mem`, `state_restore_mem`).
  Their sources are not available. The CPU call is recorded as its
  arguments. The mono samples are an input.
- The zeroing of the mono buffer (`memset`) and its filling by the sound
  engine are not modelled. The filled buffer is an input.
- `sound.h` declares prototypes only, with nothing to model.
- The floating-point latency estimate (`1000 / 60.25`, `* 6`, `+ 0.5`,
  truncation) is not modelled. The model takes its truncated value as input.
  `Latency.DefaultLatency` uses the hand-computed value 100.
- Host callbacks and the environment protocol are left out as I/O: video
  refresh, audio batch, input poll, logging, VFS, memory maps, input
  descriptors. Registering the buffer-status callback becomes a boolean
  input to `Latency.InitFrameskip`. The joypad answers become inputs of
  `Frame.Host`.
- Option parsing in `check_variables` is left out as string handling (`strcmp`, `atoi`,
  `strtol`, language and dark-filter options). This includes its call to
  `init_frameskip` when the mode changes. Settings are model state that the
  caller sets.
- Content-path construction, screen allocation and freeing, and the
  `retro_*` information and no-op entry points are left out as allocation
  and constant glue.
- Input.RaceInput: the joypad mask is taken as the unsigned value. The
  sign extension of the frontend's 16-bit answer is not modelled. It only
  affects bits above 15, and the translation reads bits 0 to 8 only.
