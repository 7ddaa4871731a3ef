/**
 * The Canvas component's animation loop as a stateful object.
 *
 * A FramePacer holds the `time` record's fields and the renderer chosen at
 * mount time. Tick(now) is one call of the loop; the host's animation clock
 * calls it once per frame, which Drive(nows) replays for a list of timestamps.
 * The blur sink is observed through the ghost trace of events.
 */
module Canvas {
  import opened Pacing
  import opened Renderers

  class FramePacer {
    var elapsed: real
    var start: real
    var duration: real
    /** The renderer every tick uses. */
    const draw: Renderer
    /** Everything the loop has done so far: update() and render() calls, values sent to the blur sink. */
    ghost var trace: seq<Event>

    /** The `time` record as a value. */
    ghost function Time(): Timing
      reads this
    {
      Timing(elapsed, start, duration)
    }

    constructor (draw: Renderer, duration: real)
      ensures this.draw == draw
      ensures Time() == Mounted(duration) && trace == []
    {
      this.draw := draw;
      elapsed := duration;
      start := UnsetStart;
      this.duration := duration;
      trace := [];
    }

    /** One call of the loop with the host's timestamp `now`. */
    method Tick(now: real)
      modifies this, draw
      ensures duration == old(duration)
      ensures elapsed == (if old(start) != 0.0 then now - old(start) else old(elapsed))
      ensures start == (if elapsed >= duration then now else old(start))
      ensures draw.updates == old(draw.updates) + 1
      ensures draw.paints == old(draw.paints) + (if elapsed >= duration then 1 else 0)
      ensures trace == old(trace) + [Update, SetBlur(draw.policy(old(draw.updates)))]
                                  + (if elapsed >= duration then [Render] else [])
      ensures var s := TickSpec(old(Time()), now, draw.policy(old(draw.updates)));
        Time() == s.timing && trace == old(trace) + s.events
    {
      if start != 0.0 {
        elapsed := now - start;
      }
      var blur := draw.Update();
      trace := trace + [Update, SetBlur(blur)];
      if elapsed >= duration {
        start := now;
        draw.Render();
        trace := trace + [Render];
      }
    }

    /** The host calling the loop once per timestamp in `nows`, the loop re-arming itself each time. */
    method Drive(nows: seq<real>)
      modifies this, draw
      ensures var r := Run(old(Time()), nows, draw.policy, old(draw.updates));
        Time() == r.timing && trace == old(trace) + r.events &&
        draw.updates == old(draw.updates) + |nows| &&
        draw.paints == old(draw.paints) + |r.paints|
    {
      ghost var t0, trace0, first, paints0 := Time(), trace, draw.updates, draw.paints;
      ghost var policy := draw.policy;
      ghost var r := Trace(t0, [], []);
      var i := 0;
      while i < |nows|
        invariant 0 <= i <= |nows| && policy == draw.policy
        invariant r == Run(t0, nows[..i], policy, first)
        invariant Time() == r.timing && trace == trace0 + r.events
        invariant draw.updates == first + i && draw.paints == paints0 + |r.paints|
      {
        ghost var step := TickSpec(r.timing, nows[i], policy(first + i));
        RunExtend(t0, nows, policy, first, i);
        Tick(nows[i]);
        AppendAssociative(trace0, r.events, step.events);
        r := Trace(step.timing, r.events + step.events, r.paints + (if step.painted then [nows[i]] else []));
        i := i + 1;
      }
      assert nows[..i] == nows;
    }
  }

  /**
   * Mounting the component: the `time` record starts at the 144 frames per
   * second duration, and `toDraw` picks the renderer, built from `carPolicy`
   * or `textPolicy`.
   */
  method Mount(toDraw: string, carPolicy: nat -> bool, textPolicy: nat -> bool) returns (p: FramePacer)
    ensures fresh(p) && fresh(p.draw)
    ensures p.draw.mode == SelectMode(toDraw)
    ensures p.draw.policy == (if toDraw == "car" then carPolicy else textPolicy)
    ensures p.draw.updates == 0 && p.draw.paints == 0
    ensures p.Time() == Mounted(FrameDuration) && p.trace == []
  {
    var mode := SelectMode(toDraw);
    var draw := new Renderer(mode, if mode == Car then carPolicy else textPolicy);
    p := new FramePacer(draw, FrameDuration);
  }
}
