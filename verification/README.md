# Frame pacer of the animated Canvas banner

The Canvas component draws a self-playing banner: either a vehicle image that
scrolls in from the right or a block of styled text that the image uncovers.
Its heart is a frame pacer. A `time` record `{ elapsed, start, duration }`
starts as `{ 1000/144, -1, 1000/144 }`. On every animation callback with
timestamp `now`, the `loop` handler does four things in order:

1. If `start` is truthy, it sets `elapsed` to `now - start`.
2. It calls the renderer's `update()` and hands the boolean answer to the
   blur sink `setShouldBlur`.
3. If `elapsed >= duration`, it sets `start` to `now` and calls `render()`.
4. It re-arms itself for the next frame.

The renderer is chosen each time the effect runs: at mount and on every
width or height change. `"car"` selects the vehicle renderer and any other
value selects the text renderer.

The project has three modules:

- `Pacing` (pacing.dfy) holds the record and one tick as values (`TickSpec`),
  and a run of ticks over a list of timestamps (`Run`). It also holds the
  properties of runs, including the throttling guarantee.
- `Renderers` (renderer.dfy) holds the `Render` interface as a class with
  `Update` and `Render` methods, and the mode choice.
- `Canvas` (canvas.dfy) holds the `FramePacer` class. It has the record's
  mutable fields, the renderer as a constant field (the same instance on
  every tick) and a ghost trace of `Update`, `SetBlur(b)` and `Render`
  events. `Tick` is one call of `loop` and is proved to follow `TickSpec`.
  `Drive` is the host calling `loop` once per timestamp and is proved to
  follow `Run`.

JavaScript truthiness is modelled exactly: `start` is falsy only when it is
`0`. The initial `-1` is truthy, so on the first tick `elapsed` becomes
`now + 1`. The documentation comment at components/Canvas/Canvas.tsx:26-31
and lines 68-70 say that the first tick keeps `elapsed == duration` so that
the first paint is immediate. The code does not do that, and the model
follows the code: the first tick paints exactly when `now + 1 >= duration`
(`FirstTick`, `FirstTickAtZeroSkipsPaint`).

Throttling holds without assuming the timestamps increase. `Throttled`
proves that consecutive repaints are at least `duration` apart whenever
`start` and every timestamp are non-zero. `ThrottledFromMount` proves the
same from the mounted state, for a duration above 1 ms and non-negative
timestamps. `ZeroStartRepaintsEarly` shows why a condition is needed: if a
repaint happens at timestamp 0, `start` becomes falsy, the next tick keeps
the stale `elapsed`, and it repaints too early.

## Model

| member | source | states |
|---|---|---|
| Pacing.Mounted | components/Canvas/Canvas.tsx:35-39 | the record starts with `elapsed == duration` and `start == -1`, and that start is truthy |
| Pacing.TickSpec | components/Canvas/Canvas.tsx:67-77 | `elapsed` becomes `now - start` when `start != 0` and is kept otherwise; the tick emits `Update` first, then `SetBlur` with exactly update's answer, on every tick; it repaints iff the recomputed `elapsed >= duration`, with at most one `Render`; `start` becomes `now` on a repaint and is kept otherwise; `duration` is unchanged |
| Pacing.RunObservations | components/Canvas/Canvas.tsx:71-78 | over any run of ticks, update() is called once per tick, the blur sink gets exactly the successive update() answers, render() is called once per repaint and at most once per tick, and `duration` never changes |
| Pacing.RunBlursAt | components/Canvas/Canvas.tsx:72-73 | in any run, the blur sink receives one value per tick, and the k-th value is the answer of the k-th update() call of that run |
| Pacing.RunExtend | components/Canvas/Canvas.tsx:78-81 | a run over one more timestamp is the shorter run followed by one more call of the loop from the state it left |
| Pacing.Throttled | components/Canvas/Canvas.tsx:71-76 | if `start` and all timestamps are non-zero, every repaint comes at least `duration` after the previous one (the first after the initial `start`), and `start` ends as the last repaint time |
| Pacing.ThrottledFromMount | components/Canvas/Canvas.tsx:32-39 | from the mounted record, with `duration > 1` and non-negative timestamps, consecutive repaints are at least `duration` apart |
| Pacing.FirstTick | components/Canvas/Canvas.tsx:68-71 | the first tick after mounting sets `elapsed` to `now + 1` and repaints iff `now + 1 >= duration` |
| Pacing.FirstTickAtZeroSkipsPaint | components/Canvas/Canvas.tsx:28-31 | at 144 frames per second, a first tick at timestamp 0 does not repaint, against the comment's promise of an immediate first paint |
| Pacing.ZeroStartRepaintsEarly | components/Canvas/Canvas.tsx:71-76 | with a duration of 0.5, ticks at 0 and 0.25 both repaint, because `start == 0` is falsy; throttling needs `start` to stay non-zero |
| Renderers.SelectMode | components/Canvas/Canvas.tsx:53-60 | `"car"` selects the vehicle renderer and every other value the text renderer |
| Renderers.Renderer.constructor | components/Canvas/Canvas.tsx:15-18 | a renderer starts with no update() or render() calls made |
| Renderers.Renderer.Update | components/Canvas/Canvas.tsx:17 | update() returns the renderer's answer for its current call and advances its call count; it does not paint |
| Renderers.Renderer.Render | components/Canvas/Canvas.tsx:16 | render() paints once and leaves the animation state alone |
| Canvas.FramePacer.constructor | components/Canvas/Canvas.tsx:35-39 | the pacer starts from the mounted record with an empty trace |
| Canvas.FramePacer.Tick | components/Canvas/Canvas.tsx:67-79 | one call of the loop: the new fields, the renderer's call counts and the trace are those of `TickSpec`; `duration` is unchanged |
| Canvas.FramePacer.Drive | components/Canvas/Canvas.tsx:78-81 | calling the loop once per timestamp gives the record, trace and call counts of `Run` from the state before |
| Canvas.Mount | components/Canvas/Canvas.tsx:35-60 | mounting builds the record for 144 frames per second and a fresh renderer of the mode that `toDraw` selects |

## Left out

- Renderers.Renderer.Update: the vehicle and text renderers (`../Scene/Car/Car.ts`, `../Scene/Text/Text`) and the text layout (`TextCustomizations`) are not part of this model. A renderer's update() is an opaque function of how many times it has been called, and render() only counts paints.
- Scheduling through `window.requestAnimationFrame` and the `frameID` bookkeeping are left out. The host is a caller that supplies a list of timestamps, and `Drive` calls `Tick` once per timestamp.
- The commented-out cancellation of the pending frame is dead code, so there is no teardown to model.
- The model covers a single loop with its own `time` record and renderer. The effect runs again on every width or height change and starts another loop with a new renderer, and since no cleanup is returned, the earlier loops keep ticking, painting and calling `setShouldBlur`. Those extra concurrent loops are not modelled.
- React plumbing is left out: `useRef`, `useEffect`, `useContext`, and the `<canvas>` element.
- Image loading, canvas sizing and `getContext` are browser I/O and are left out.
- The blur sink (`setShouldBlur` from the blur context) appears only as `SetBlur` events in the ghost trace. The context's own initial value is not part of this model.
- Timestamps and durations are exact reals. Floating-point rounding of `1000 / 144` and NaN (which is also falsy in JavaScript) are not modelled.
- pages/api/hello.ts is a stub HTTP handler with a constant body and is not part of this model.
