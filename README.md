# Thread-slot table, camera-setting translation and frame-rate counter of the SAAS display program

This project models the self-contained logic of `display.cpp`. That file is the
ground-support viewer that pulls frames from a GigE-Vision camera and draws them with
a heads-up overlay. The model has three parts:

- **Thread registry** (`thread_registry.dfy`, module `ThreadRegistry`). The program keeps
  four global arrays of `MAX_THREADS` = 5 slots: `started` (liveness), `stop_message`
  (cooperative stop), `thread_data` (argument records) and `threads` (handles). The class
  `ThreadTable` holds these arrays and changes them in place:
  - `StartThread` claims the lowest free slot. It copies the caller's record into the slot,
    sets the slot's `thread_id` and clears its stop flag. The slot becomes live only when
    thread creation succeeded. When every slot is live it changes nothing.
  - `KillAllThreads` flags every live slot to stop, then clears every live slot.
  - `ReleaseSlot` is the camera thread freeing its own slot when its loop ends.

  Pure functions over `seq<bool>` specify these methods: `FirstFree`, `LiveCount`, `Claim`
  and `RequestStops`. The lemmas about those functions prove the count bound, that a full
  table is left alone, that two successive claims get distinct slots, and that shutdown is
  idempotent.
- **Camera settings** (`camera_settings.dfy`, module `CameraSettings`). This models the
  device parameter writes of the connect sequence. The preamp gain in dB is translated to
  the device's enumeration name, and any unrecognised gain falls back to `zero_dB`. The black
  level is written only when it lies in 0..1023. The SDK "set" calls are reduced to a list
  of writes. `Written` reads off which value ends up in which parameter, and `ReadBack`
  inverts the translation.
- **Frame-rate counter** (`frame_rate.dfy`, module `FrameRate`). These are the two static
  counters of `framerate`: the start of the window `t0` (-1 before the first call) and the
  `frames` drawn in it. Each call counts a frame. A call that finds the window 5 or more
  seconds old reports the count and opens a new window. `Step` is one call and `Run` is a
  sequence of calls. The class `FrameCounter` is the pair of static variables, and its
  `Tick` is proved against `Step`.

`wrappers.dfy` holds the `Option` type. `c_types.dfy` holds the fixed-width C integer types the globals are declared with.

Some things the source gets from the system are inputs here:
- The outcome of `pthread_create` is the `created` parameter.
- The new thread handle is the `handle` parameter.
- The clock reading of `current_time` is the `t` parameter.
- A null or non-null `tdata` pointer is `Option<ThreadData>`.

`sleep` and `pthread_cancel` inside `kill_all_threads` have no effect on the table, so the
model leaves them out.

## Model

| member | source | states |
|---|---|---|
| ThreadRegistry.ThreadTable.constructor | display.cpp:65-79 | the globals start zero-initialised: no slot live, no stop flag set, every argument record and handle zero |
| ThreadRegistry.FirstFree | display.cpp:497-501 | the slot found is the lowest index that is not live (every lower index is live); there is none exactly when every slot is live |
| ThreadRegistry.ThreadTable.FindFreeSlot | display.cpp:497-501 | the linear scan returns the lowest non-live index, or nothing when all MAX_THREADS slots are live |
| ThreadRegistry.FullIffNoFreeSlot | display.cpp:497-501 | the scan finds no slot exactly when the live count equals MAX_THREADS |
| ThreadRegistry.Claim | display.cpp:513-516 | after a spawn the first free slot is live iff creation succeeded, and every other slot's liveness is unchanged |
| ThreadRegistry.ClaimedData | display.cpp:504-505 | the claimed slot's record is the caller's record when one is given (its old record otherwise), with thread_id equal to the slot index |
| ThreadRegistry.ThreadTable.StartThread | display.cpp:495-520 | claims FirstFree of the old liveness table. A full table leaves all four arrays unchanged. Otherwise only the claimed slot changes: its record gets thread_id = slot, its stop flag becomes false, and its handle and liveness are set only when creation succeeded |
| ThreadRegistry.ClaimCount | display.cpp:513-516 | a spawn raises the live count by one exactly when a slot was free and creation succeeded, else by zero, and the count never exceeds MAX_THREADS |
| ThreadRegistry.ClaimWhenFull | display.cpp:498-500 | a spawn into a table whose every slot is live leaves the liveness table unchanged |
| ThreadRegistry.SuccessiveClaimsDistinct | display.cpp:497-516 | after a successful claim, the next spawn finds a strictly higher slot or none, so two live threads never share a slot |
| ThreadRegistry.RequestStops | display.cpp:211-215 | every slot live on entry gets its stop flag set; a slot that was not live keeps its flag |
| ThreadRegistry.ThreadTable.KillAllThreads | display.cpp:209-223 | the new stop flags are RequestStops of the old liveness and flags, and no slot is live afterwards; data and handles are untouched |
| ThreadRegistry.AllFreeCount | display.cpp:217-222 | after shutdown the live count is zero |
| ThreadRegistry.RequestStopsOnFreeTable | display.cpp:211-215 | asking the threads of a table with no live slot to stop changes no stop flag |
| ThreadRegistry.ShutdownIdempotent | display.cpp:209-223 | shutting down a second time leaves the stop flags as the first shutdown left them |
| ThreadRegistry.SpawnAfterShutdown | display.cpp:497-501 | after shutdown the next spawn claims slot 0 |
| ThreadRegistry.ThreadTable.ReleaseSlot | display.cpp:481 | a finishing camera thread clears exactly its own liveness flag and nothing else |
| ThreadRegistry.ReleaseCount | display.cpp:481 | releasing a live slot lowers the live count by exactly one |
| CameraSettings.PreampName | display.cpp:355-371 | -3 maps to minus3dB, 3 to plus3dB, 6 to plus6dB (each iff), and every other gain, 0 included, to zero_dB; the result is always one of the four device names |
| CameraSettings.PreampRoundTrip | display.cpp:355-371 | each of the four recognised gains is recovered from its device name; any other gain reads back as 0 dB |
| CameraSettings.PreampNameRoundTrip | display.cpp:355-371 | every device name is the translation of the gain it stands for |
| CameraSettings.BlackLevelToWrite | display.cpp:374-376 | a black level is written iff 0 <= level <= 1023, and then unchanged |
| CameraSettings.SettingsWrites | display.cpp:350-376 | the four fixed writes in issue order (frame-time switch off, exposure, analog gain, translated preamp name), then BlackLevelRaw with the configured level; five writes iff 0 <= level <= 1023, else four |
| CameraSettings.WrittenSettings | display.cpp:350-376 | the connect sequence leaves the frame-time switch off, exposure and analog gain as configured, the preamp at PreampName(gain), the black level set iff in range, and writes no other parameter |
| CameraSettings.ReadBackSettings | display.cpp:350-376 | the settings read back from the written parameters equal the configured ones exactly when the preamp gain is recognised and the black level is in range |
| FrameRate.Step | display.cpp:113-127 | a call reports iff t minus the window start is at least 5 seconds; the start is t itself when t0 is negative. A report resets the counters to (t, 0) and carries the old frame count plus one and the window length t minus the window start, which is at least 5 seconds; without a report, frames grows by one |
| FrameRate.FirstCall | display.cpp:115-118 | the first call opens the window at its own time with one frame and does not reset |
| FrameRate.FramesSinceLastReset | display.cpp:118-127 | after any run of calls, frames equals the number of calls since the last reset (all calls if none reset) |
| FrameRate.WindowStaysShort | display.cpp:120-127 | with a non-decreasing clock, the window measured at the latest call is always between 0 and 5 seconds long |
| FrameRate.FrameCounter.constructor | display.cpp:111-112 | the counters start at t0 = -1, frames = 0 |
| FrameRate.FrameCounter.Tick | display.cpp:109-128 | the new counters and the report are exactly those of Step on the old counters |

## Left out

- The camera SDK sequence in `CameraThread`: device discovery, connection, pipeline set-up,
  buffer retrieval and release, and teardown. Its branches depend only on opaque SDK
  results, and it repoints the display buffer into SDK memory. The camera loop's check of
  its stop flag is covered only by `RequestStops`, which proves the flag is set for every
  running thread.
- Threading itself. The model is sequential. It leaves out pthread attributes, the mutex,
  `pthread_cancel`, `sleep`, `sig_handler` and `g_running`. The lock the registry would
  need is not modelled.
- `ThreadRegistry.ThreadTable.StartThread`: when creation fails, POSIX leaves the handle
  location unspecified. The model keeps the old handle in that case.
- `FrameRate.FrameCounter.Tick`: the model does not overflow `frames` as a 32-bit `int`.
  That would take 2^31 calls without the clock advancing 5 seconds. The subtraction `t - t0`
  is not wrapped either. `current_time` casts the seconds of `gettimeofday` to a 32-bit
  `int`, which wraps in 2038. After that wrap a positive `t0` and a negative `t` can straddle
  it. The source's signed subtraction then overflows, which C leaves undefined. The model's
  `t - t0` just becomes very negative, so the window never closes again.
- The diagnostic prints: the error print for a failed `pthread_create` in `start_thread`,
  the cancel-status print in `kill_all_threads` and the camera thread's progress prints.
  They write to the console and change no state.
- The printed frames-per-second quotient. It is floating point, so the report carries only
  the frame count and the window length.
- All OpenGL/GLUT drawing and the keyboard handler. The `q` key calls `kill_all_threads`,
  which `KillAllThreads` models. The `s` key does nothing in this source, so the save
  dispatcher and save workers do not exist in it and are not modelled.
- Reading the calibration-centre and camera-settings files. This is plain `fscanf` I/O.
  `Settings` is taken as already loaded.
- `main`, which is set-up only. Its initialisation loop clears `started[0]` five times
  rather than each slot. The globals are zero-initialised anyway, so the constructor takes
  that as the initial state.
- `compression.cpp` (FITS writing through CCfits), `compression.hpp` and `sbc_temp.cpp`
  (x86 port I/O). These are library wrappers and hardware access.
