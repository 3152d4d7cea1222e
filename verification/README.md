# lolitop core, modelled in Dafny

lolitop draws one bar per CPU core in a rotating 3D scene. This project models the three
sequential parts of it that hold its logic:

- **CPU telemetry** (`src/cpu.rs`, module `CpuTelemetry` in `cpu.dfy`, helped by `StdText` in
  `text.dfy`). `parse_row` reads one line of Linux `/proc/stat` (the `cpuN` rows of proc(5)).
  It tokenises the line with `split_whitespace` and parses the counters with `u64::from_str`;
  `StdText` models both. `usage` turns two counter snapshots of a core into a utilisation ratio.
  `CPUMetrics` keeps each core's samples in a map of histories. Its `sample` method pushes every
  accepted row onto its core's history. `interpolate_usage` blends the last two ratios of every
  core with at least three samples.
- **Keyboard camera** (`src/camera.rs`, module `OrbitCamera` in `camera.dfy`). The
  `CameraController` class holds six key flags, which `process_events` overwrites. The `Camera`
  class moves its distance and angle while the arrow keys are held. `resize` changes only the
  aspect ratio.
- **Sampling gate and grid** (`src/metrics.rs`, module `Metrics` in `metrics.dfy`).
  `SysMetrics::update` samples at most once per 200 ms. It then computes the interpolation
  progress. `instances` lays the cores out on a square grid.

The model follows the source's own form. Parsing, `usage` and interpolation are functions. Each
state that the source updates in place becomes a class with methods: `CpuMetrics.Sample` is a
loop proved against the pure `AppendRows`. `CameraController.ProcessEvents` is proved against the
transition function `ApplyEvent`. `Camera.Update` is proved against `StepDistance` and
`StepAngle`, through the methods `Travel` and `Turn`. `f32` arithmetic is modelled over `real`. Counters are integers bounded as `u64`.
Angles are in degrees. The clock is an integer count of nanoseconds, because a `Duration`
compares at nanosecond precision and `as_millis` truncates. A parameter stands in for the
content of `/proc/stat` at the moment of a sample. `interpolate_usage` collects from a
`HashMap`, so its order is unspecified; the model returns a map keyed by core id.

The code does not clamp usage to [0, 1] (`UsageIsNotClamped` shows a negative value), and it
does not guard a zero total delta. The camera has no drag, wheel or velocity-decay handling.
`SysMetrics::update` does not sample on a fixed 200 ms period. It samples on the first frame
after strictly more than 200 ms have passed since the last sample, so at most once per 200 ms.

## Model

| member | source | states |
|---|---|---|
| `StdText.SplitWhitespace` | src/cpu.rs:50 | every token is non-empty and free of Unicode whitespace |
| `StdText.SplitJoinRoundTrip` | src/cpu.rs:50 | splitting words joined by spaces gives back exactly those words |
| `StdText.ParseU64` | src/cpu.rs:58-67 | `u64::from_str` accepts only an optional `+` followed by ASCII digits |
| `StdText.ParseU64RoundTrip` | src/cpu.rs:58-67 | every decimal value below 2^64 parses back, with or without `+`; larger values and `-` are refused |
| `StdText.ParseU64RejectsSignsAlone` | src/cpu.rs:58-67 | the empty token and a lone sign are refused |
| `CpuTelemetry.Total` | src/cpu.rs:23-34 | no counter exceeds the total, and a zero total means every counter is zero |
| `CpuTelemetry.Idle` | src/cpu.rs:23-37 | idle time (idle + iowait) never exceeds the total of the ten counters, and total − idle is the sum of the other eight |
| `CpuTelemetry.Usage` | src/cpu.rs:38-46 | with the total strictly growing and idle not shrinking (no underflow, non-zero divisor), usage is the busy share of elapsed jiffies; it is at most 1, and at least 0 exactly when idle grew by no more than the total |
| `CpuTelemetry.UsageInUnitRange` | src/cpu.rs:38-46 | when no counter decreases and the total grows, usage is defined and lies in [0, 1] |
| `CpuTelemetry.UsageIsNotClamped` | src/cpu.rs:45 | a counter reset gives a negative usage: nothing clamps the ratio |
| `CpuTelemetry.ParseCountersFrom` | src/cpu.rs:58-67 | counters are parsed in token order and the first failing token gives `None`; on success the values are the parsed tokens |
| `CpuTelemetry.ParseRow` | src/cpu.rs:49-69 | a row is accepted iff its first token starts with `cpu`, is not `cpu`, and tokens 1–10 all parse as `u64`; the id is token 0 and the counters are tokens 1–10 in order; the precondition is exactly "does not panic" |
| `CpuTelemetry.ParseFormatRoundTrip` | src/cpu.rs:49-69 | a per-core row laid out as the kernel prints it parses back to the same sample, whatever tokens follow the tenth counter |
| `CpuTelemetry.ParseRowRejectsNonCoreRows` | src/cpu.rs:52-54 | the aggregate `cpu` row and rows not starting with `cpu` give `None` |
| `CpuTelemetry.AppendRows` | src/cpu.rs:85-94 | the cores after a pass are the old ones plus those some accepted row names |
| `CpuTelemetry.RowsFor` | src/cpu.rs:85-94 | the rows a pass adds for a core all carry that core's id |
| `CpuTelemetry.AppendRowsHistory` | src/cpu.rs:85-94 | after a pass each history is the old history followed by that core's accepted rows in line order; rejected rows are skipped; other cores keep their history |
| `CpuTelemetry.RowsForEmptyIffUnnamed` | src/cpu.rs:88-93 | a core gains rows in a pass iff some accepted row names it |
| `CpuTelemetry.AppendRowsWellFormed` | src/cpu.rs:89-92 | a pass keeps every history non-empty and holding only its own core's samples |
| `CpuTelemetry.Eligible` | src/cpu.rs:98-101 | a core is eligible iff its history has at least 3 samples, and eligible cores are a subset of the known cores |
| `CpuTelemetry.LastUsage` | src/cpu.rs:102-106 | the usage of the newest sample against the one before it is at most 1 |
| `CpuTelemetry.PrevUsage` | src/cpu.rs:103-107 | the usage of the second-newest sample against the third-newest is at most 1 |
| `CpuTelemetry.Blend` | src/cpu.rs:108 | the blend gives prev at delta 0 and last at delta 1, and lies between them for delta in [0, 1] |
| `CpuTelemetry.BlendMonotone` | src/cpu.rs:108 | the blend is monotone in delta, towards last |
| `CpuTelemetry.EligibleAfterPass` | src/cpu.rs:98-101 | a core becomes eligible on the pass that brings its history to 3 samples, not before |
| `CpuTelemetry.InterpolatedUsageInUnitRange` | src/cpu.rs:97-110 | with the progress in [0, 1], the value for an eligible core whose last three samples have no counter going backwards lies in [0, 1] |
| `CpuTelemetry.FirstPassHistories` | src/cpu.rs:113-120 | after the first pass from no histories, each core's history is exactly its accepted rows, in line order |
| `CpuTelemetry.FirstPassHasNoEligibleCore` | src/cpu.rs:113-120 | after the first pass, while no core was reported three times, nothing is eligible, so the output is empty |
| `CpuTelemetry.CpuMetrics.Default` | src/cpu.rs:113-120 | the histories start empty and take one pass; each history is then its core's rows, and `ncpus` is the number of distinct cores named |
| `CpuTelemetry.CpuMetrics.Ncpus` | src/cpu.rs:76-78 | the number of distinct cores with a history, zero exactly when there is none |
| `CpuTelemetry.CpuMetrics.Push` | src/cpu.rs:88-92 | the sample is appended to its core's history, which starts empty for a new core; every other history is unchanged |
| `CpuTelemetry.CpuMetrics.Sample` | src/cpu.rs:80-95 | the loop pushes each accepted row onto its core's history, ending in `AppendRows` of the old histories, and keeps the histories well formed |
| `CpuTelemetry.CpuMetrics.InterpolateUsage` | src/cpu.rs:97-110 | one value per eligible core and none for the others, so never more than `ncpus`; each value blends the usage of the previous pair and of the last pair of the last three samples |
| `CpuTelemetry.InterpolateUsageOwnSamples` | src/cpu.rs:97-109 | with well-formed histories, every reported value comes from at least three samples, all of that core |
| `OrbitCamera.ControlOf` | src/camera.rs:176-200 | only keys other than Space, Shift and the four arrows drive no flag |
| `OrbitCamera.ControlOfOneToOne` | src/camera.rs:176-200 | no two keys drive the same flag, and every flag has a key |
| `OrbitCamera.ApplyEvent` | src/camera.rs:173-207 | a keyboard event for Space, Shift or an arrow key sets exactly that key's flag to "pressed" and is handled; any other key or event changes nothing and is not handled |
| `OrbitCamera.LastEventWins` | src/camera.rs:176-200 | of two events for one key the second decides; press then release leaves the flag clear; repeating an event is idempotent |
| `OrbitCamera.Normalize` | src/camera.rs:108-115 | `Deg::normalize` returns the representative of the angle in [0°, 360°) (angle minus 360·floor(angle/360)), and leaves an angle already in range unchanged |
| `OrbitCamera.NormalizeIdempotent` | src/camera.rs:108-115 | normalising twice is normalising once |
| `OrbitCamera.StepDistance` | src/camera.rs:101-106 | for a non-negative step (speed·dt) the distance stays non-negative; it is unchanged with neither key held, no larger with forward alone, grows by the step with backward alone, and is no smaller with both |
| `OrbitCamera.Travel` | src/camera.rs:101-106 | the forward-then-backward updates of the distance compute `StepDistance` |
| `OrbitCamera.StepAngle` | src/camera.rs:108-115 | the angle stays in [0°, 360°); it is unchanged with neither key held and returns to its start with both held |
| `OrbitCamera.Turn` | src/camera.rs:108-115 | the right-then-left updates of the angle, each normalised, compute `StepAngle` |
| `OrbitCamera.TurnThereAndBack` | src/camera.rs:108-115 | turning right then left by the same amount, normalising after each, gives the normalised start |
| `OrbitCamera.CameraController.constructor` | src/camera.rs:160-171 | the controller keeps the given speeds and starts with no key held |
| `OrbitCamera.CameraController.ProcessEvents` | src/camera.rs:173-207 | the new flags and the handled bit are those `ApplyEvent` gives for the old flags |
| `OrbitCamera.Camera.constructor` | src/camera.rs:47-97 | speeds 15 and 180, no key held, angle 0, distance 15, plane angle 30, aspect width/height |
| `OrbitCamera.Camera.Update` | src/camera.rs:99-120 | distance and angle move as `StepDistance` and `StepAngle` say for a step of speed·dt and a turn of angular_speed·dt, keeping angle in range and distance non-negative; Space and Shift, plane angle and aspect play no part |
| `OrbitCamera.Camera.Resize` | src/camera.rs:122-124 | only the aspect ratio changes, to width/height |
| `Metrics.SampleDue` | src/metrics.rs:53 | a sample is due only once time has moved forward, by strictly more than 200 ms |
| `Metrics.NoSampleWithinPeriod` | src/metrics.rs:53-55 | after a sample at `now`, no frame up to and including 200 ms later samples again |
| `Metrics.Progress` | src/metrics.rs:57-61 | progress is whole elapsed milliseconds over 200: it is never negative, it is 0 iff under 1 ms have passed, and it is at most 1 iff under 201 ms have passed |
| `Metrics.PerRow` | src/metrics.rs:69 | the grid width is the least k with k·k ≥ n, at least 1 for n ≥ 1 |
| `Metrics.CellOf` | src/metrics.rs:75-76 | core i sits in column i mod width and row i div width, so row·width + column = i |
| `Metrics.Instances` | src/metrics.rs:66-91 | n cells for n cores, each inside the width-by-width square, in row-major order |
| `Metrics.InstancesDistinct` | src/metrics.rs:75-76 | no two cores share a cell |
| `Metrics.SysMetrics.constructor` | src/metrics.rs:17-36 | one sample pass; the usage buffer has 4 bytes (one `f32`) per core; one grid cell per core |
| `Metrics.SysMetrics.Update` | src/metrics.rs:50-64 | a sample is taken and the period restarted only when strictly more than 200 ms have passed; the progress is then 0, and otherwise it lies in [0, 1]; the written values are the interpolated usages at that progress |

## Left out

- Reading `/proc/stat` (`File::open`, `BufReader::lines` and their `unwrap`s, src/cpu.rs:82-86) is OS I/O. The lines it would yield are a parameter. An unreadable file and a line that is not valid UTF-8, both panics in the source, are not modelled.
- `CpuTelemetry.Total`: the ten counters are summed over unbounded integers. An overflow of the `u64` sum would panic in a debug build and wrap in a release build; this is not modelled, since jiffy counters stay far below 2^64 / 10.
- `CpuTelemetry.Usage`: requires the total to grow strictly. With a zero total delta the source divides by zero in `f32` and yields NaN or −∞, which a real-valued model cannot represent. It also requires idle time not to shrink: the source's unsigned subtraction would underflow. proc(5) warns that iowait can decrease, so a real table may break this.
- All `f32` rounding is left out. In particular, `Deg::normalize` in `f32` can round a tiny negative remainder up to exactly 360.
- `Metrics.PerRow`: the source takes `(n as f32).sqrt().ceil()`. The integer ceiling square root agrees for every realistic core count. It may differ above 2^24 cores, where `n as f32` is inexact.
- `Metrics.Instances`: requires n ≥ 1. For n = 0 the grid width is 0 and `per_row - 1` underflows `u64` (src/metrics.rs:72).
- Float positions, `SPACING`, the displacement, rotations and `Instance::to_raw` are not modelled (src/metrics.rs:67-87, 94-136). Neither is the `println!` of the grid width.
- The view-projection matrix (`build_view_projection_matrix`, `OPENGL_TO_WGPU_MATRIX`, `CameraUniform`) is cgmath and GPU plumbing. So are the camera's target, up vector, fovy, znear and zfar.
- The camera constructor and `OrbitCamera.Camera.Resize` require a non-zero height. In `f32`, `width / height` would give an infinity or NaN instead.
- GPU buffers, bind groups, `desc()` layouts and `queue.write_buffer` are wgpu plumbing. `SysMetrics.Update` returns the values it would write. The buffer is sized for the cores known at construction. A core first seen later would make the write larger than the buffer; wgpu's validation of that is not modelled.
- The clocks (`Instant::now`, `Duration`) become parameters: `now` in nanoseconds for `SysMetrics`, `dt` in seconds (non-negative) for `Camera.Update`.
- `src/state.rs`, `src/window.rs`, `src/text.rs`, `src/ui.rs`, `src/main.rs`, `src/lib.rs` and `src/model.rs` are not part of this model. They hold window, font, overlay and render setup, and a constant cube mesh.
- Drag and fling gestures, wheel zoom, angular-velocity decay, clamping of usage and a zero-delta fallback do not exist in the code, so nothing models them.
