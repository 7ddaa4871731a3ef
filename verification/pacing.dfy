/**
 * The frame pacer of the Canvas component, as values.
 *
 * The component keeps a `time` record { elapsed, start, duration } and, on every
 * animation callback with timestamp `now`, recomputes `elapsed` from `start`,
 * asks the renderer to update (forwarding its answer to the blur sink), and
 * repaints only when `elapsed >= duration`, remembering `now` as the new `start`.
 * This module states one tick (TickSpec) and a run of ticks (Run) as functions;
 * the class in module Canvas is proved to follow them.
 */
module Pacing {

  /** What a tick does that the outside world can observe, in order. */
  datatype Event = Update | SetBlur(blur: bool) | Render

  /** The `time` record; timestamps and durations are milliseconds. */
  datatype Timing = Timing(elapsed: real, start: real, duration: real)

  /** Target frame duration for 144 frames per second. */
  const FrameDuration: real := 1000.0 / 144.0

  /** The placeholder `start` before any repaint. */
  const UnsetStart: real := -1.0

  /** The `time` record as the component creates it. */
  function Mounted(duration: real): (t: Timing)
    ensures t.elapsed == t.duration == duration
    ensures t.start == UnsetStart && Truthy(t.start)
  {
    Timing(duration, UnsetStart, duration)
  }

  /** JavaScript truthiness of a number: only zero is falsy (real numbers have no NaN). */
  predicate Truthy(x: real)
  {
    x != 0.0
  }

  /** The effect of one tick on the timing record, the events it emits, and whether it repainted. */
  datatype Step = Step(timing: Timing, events: seq<Event>, painted: bool)

  /**
   * One call of the loop at timestamp `now`, where `moving` is what the
   * renderer's update() answers on this call.
   */
  function TickSpec(t: Timing, now: real, moving: bool): (s: Step)
    // `elapsed` is recomputed only when `start` is truthy
    ensures Truthy(t.start) ==> s.timing.elapsed == now - t.start
    ensures !Truthy(t.start) ==> s.timing.elapsed == t.elapsed
    // update() first, then the blur sink gets exactly its answer, whether or not the tick repaints
    ensures |s.events| >= 2 && s.events[0] == Update && s.events[1] == SetBlur(moving)
    ensures Count(s.events, Update) == 1 && Blurs(s.events) == [moving]
    // repaint exactly when the recomputed elapsed time reaches the duration, and at most once
    ensures s.painted <==> s.timing.elapsed >= t.duration
    ensures Count(s.events, Render) == (if s.painted then 1 else 0)
    ensures Render in s.events <==> s.painted
    // a repaint restarts the clock; otherwise `start` is kept; `duration` never moves
    ensures s.timing.start == (if s.painted then now else t.start)
    ensures s.timing.duration == t.duration
  {
    var elapsed := if Truthy(t.start) then now - t.start else t.elapsed;
    var painted := elapsed >= t.duration;
    var events := [Update, SetBlur(moving)] + (if painted then [Render] else []);
    var tail := if painted then [Render] else [];
    assert events[1..] == [SetBlur(moving)] + tail;
    assert events[1..][1..] == tail;
    assert Count(tail, Update) == 0 && Blurs(tail) == [];
    assert Count(tail, Render) == (if painted then 1 else 0);
    Step(Timing(elapsed, if painted then now else t.start, t.duration), events, painted)
  }

  /** Number of occurrences of `e` in `s`. */
  function Count(s: seq<Event>, e: Event): nat
  {
    if s == [] then 0 else (if s[0] == e then 1 else 0) + Count(s[1..], e)
  }

  /**
   * Associativity of appending events. Dafny knows this fact unaided; the lemma
   * exists so that the loop in FramePacer.Drive can state it cheaply.
   */
  lemma AppendAssociative(a: seq<Event>, b: seq<Event>, c: seq<Event>)
    ensures a + b + c == a + (b + c)
  {
  }

  /** The values handed to the blur sink, in order. */
  function Blurs(s: seq<Event>): seq<bool>
  {
    if s == [] then [] else (if s[0].SetBlur? then [s[0].blur] else []) + Blurs(s[1..])
  }

  lemma {:induction false} CountAppend(a: seq<Event>, b: seq<Event>, e: Event)
    ensures Count(a + b, e) == Count(a, e) + Count(b, e)
  {
    if a == [] {
      assert a + b == b;
    } else {
      assert (a + b)[1..] == a[1..] + b;
      CountAppend(a[1..], b, e);
    }
  }

  lemma {:induction false} BlursAppend(a: seq<Event>, b: seq<Event>)
    ensures Blurs(a + b) == Blurs(a) + Blurs(b)
  {
    if a == [] {
      assert a + b == b;
    } else {
      assert (a + b)[0] == a[0];
      assert (a + b)[1..] == a[1..] + b;
      BlursAppend(a[1..], b);
    }
  }

  /** The answers of `n` consecutive update() calls, the first being call number `first`. */
  function Answers(policy: nat -> bool, first: nat, n: nat): seq<bool>
  {
    if n == 0 then [] else Answers(policy, first, n - 1) + [policy(first + n - 1)]
  }

  /** The k-th entry of `Answers` is the answer of call number `first + k`. */
  lemma {:induction false} AnswersAt(policy: nat -> bool, first: nat, n: nat)
    ensures |Answers(policy, first, n)| == n
    ensures forall k | 0 <= k < n :: Answers(policy, first, n)[k] == policy(first + k)
  {
    if n > 0 {
      AnswersAt(policy, first, n - 1);
    }
  }

  /** Result of a run: the final timing, every event, and the timestamps of the ticks that repainted. */
  datatype Trace = Trace(timing: Timing, events: seq<Event>, paints: seq<real>)

  /**
   * The ticks at timestamps `nows`, one after another, starting from `t`.
   * The renderer's update() answers `policy(k)` on its k-th call, and `first`
   * calls have been made before the run.
   */
  function Run(t: Timing, nows: seq<real>, policy: nat -> bool, first: nat): Trace
    decreases |nows|
  {
    if nows == [] then Trace(t, [], [])
    else
      var n := |nows| - 1;
      var prev := Run(t, nows[..n], policy, first);
      var s := TickSpec(prev.timing, nows[n], policy(first + n));
      Trace(s.timing, prev.events + s.events, prev.paints + (if s.painted then [nows[n]] else []))
  }

  /** In a run, the k-th value sent to the blur sink is the answer of the k-th update() call of that run. */
  lemma RunBlursAt(t: Timing, nows: seq<real>, policy: nat -> bool, first: nat)
    ensures var b := Blurs(Run(t, nows, policy, first).events);
      |b| == |nows| && forall k | 0 <= k < |nows| :: b[k] == policy(first + k)
  {
    RunObservations(t, nows, policy, first);
    AnswersAt(policy, first, |nows|);
  }

  /**
   * Over a whole run: update() is called once per tick, the blur sink receives
   * exactly the successive answers of update(), one render() per repaint and
   * at most one per tick, and `duration` never changes.
   */
  lemma {:induction false} RunObservations(t: Timing, nows: seq<real>, policy: nat -> bool, first: nat)
    ensures var r := Run(t, nows, policy, first);
      r.timing.duration == t.duration &&
      Count(r.events, Update) == |nows| &&
      Blurs(r.events) == Answers(policy, first, |nows|) &&
      Count(r.events, Render) == |r.paints| <= |nows|
  {
    if nows != [] {
      var n := |nows| - 1;
      RunObservations(t, nows[..n], policy, first);
      var prev := Run(t, nows[..n], policy, first);
      var s := TickSpec(prev.timing, nows[n], policy(first + n));
      CountAppend(prev.events, s.events, Update);
      CountAppend(prev.events, s.events, Render);
      BlursAppend(prev.events, s.events);
    }
  }

  /** A run over one more timestamp is the shorter run followed by one tick. */
  lemma RunExtend(t: Timing, nows: seq<real>, policy: nat -> bool, first: nat, k: nat)
    requires k < |nows|
    ensures var prev := Run(t, nows[..k], policy, first);
      var s := TickSpec(prev.timing, nows[k], policy(first + k));
      Run(t, nows[..k + 1], policy, first) ==
        Trace(s.timing, prev.events + s.events, prev.paints + (if s.painted then [nows[k]] else []))
  {
    assert nows[..k + 1][..k] == nows[..k];
  }

  /** Consecutive entries of `ps` are at least `d` apart. */
  predicate Spaced(ps: seq<real>, d: real)
  {
    forall i | 1 <= i < |ps| :: ps[i] - ps[i - 1] >= d
  }

  lemma SpacedSnoc(ps: seq<real>, x: real, d: real)
    requires ps != [] && Spaced(ps, d) && x - ps[|ps| - 1] >= d
    ensures Spaced(ps + [x], d)
  {
  }

  /**
   * Throttling: as long as `start` is never zero, every repaint comes at least
   * `duration` after the previous one (or after the initial `start`).
   * No ordering of the timestamps is needed.
   */
  lemma {:induction false} Throttled(t: Timing, nows: seq<real>, policy: nat -> bool, first: nat)
    requires Truthy(t.start)
    requires forall i | 0 <= i < |nows| :: Truthy(nows[i])
    ensures var ps := [t.start] + Run(t, nows, policy, first).paints;
      Spaced(ps, t.duration) && Run(t, nows, policy, first).timing.start == ps[|ps| - 1]
  {
    if nows != [] {
      var n := |nows| - 1;
      Throttled(t, nows[..n], policy, first);
      var prev := Run(t, nows[..n], policy, first);
      RunObservations(t, nows[..n], policy, first);
      var s := TickSpec(prev.timing, nows[n], policy(first + n));
      var r := Run(t, nows, policy, first);
      assert r.paints == prev.paints + (if s.painted then [nows[n]] else []);
      assert r.timing == s.timing;
      if s.painted {
        SpacedSnoc([t.start] + prev.paints, nows[n], t.duration);
        assert [t.start] + r.paints == ([t.start] + prev.paints) + [nows[n]];
      } else {
        assert [t.start] + r.paints == [t.start] + prev.paints;
      }
    }
  }

  /**
   * Throttling from the mounted state: with a duration above one millisecond and
   * non-negative timestamps (as the host's animation clock gives), `start` never
   * becomes zero, so repaints are at least `duration` apart.
   */
  lemma {:induction false} ThrottledFromMount(duration: real, nows: seq<real>, policy: nat -> bool)
    requires duration > 1.0
    requires forall i | 0 <= i < |nows| :: nows[i] >= 0.0
    ensures Spaced([UnsetStart] + Run(Mounted(duration), nows, policy, 0).paints, duration)
  {
    SpacedPositive(Mounted(duration), nows, policy, 0);
  }

  /** From a start of -1 or a positive start, `start` stays -1 or positive and repaints stay `duration` apart. */
  lemma {:induction false} SpacedPositive(t: Timing, nows: seq<real>, policy: nat -> bool, first: nat)
    requires t.duration > 1.0 && (t.start == UnsetStart || t.start > 0.0)
    requires forall i | 0 <= i < |nows| :: nows[i] >= 0.0
    ensures var r := Run(t, nows, policy, first); var ps := [t.start] + r.paints;
      Spaced(ps, t.duration) && r.timing.start == ps[|ps| - 1] &&
      (r.timing.start == UnsetStart || r.timing.start > 0.0)
  {
    if nows != [] {
      var n := |nows| - 1;
      SpacedPositive(t, nows[..n], policy, first);
      var prev := Run(t, nows[..n], policy, first);
      RunObservations(t, nows[..n], policy, first);
      var s := TickSpec(prev.timing, nows[n], policy(first + n));
      var r := Run(t, nows, policy, first);
      assert r.paints == prev.paints + (if s.painted then [nows[n]] else []);
      assert r.timing == s.timing;
      if s.painted {
        assert nows[n] - prev.timing.start >= t.duration;
        assert nows[n] > 0.0;
        SpacedSnoc([t.start] + prev.paints, nows[n], t.duration);
        assert [t.start] + r.paints == ([t.start] + prev.paints) + [nows[n]];
      } else {
        assert [t.start] + r.paints == [t.start] + prev.paints;
      }
    }
  }

  /**
   * The first tick after mounting: `start` is -1, which is truthy, so `elapsed`
   * becomes `now + 1` instead of keeping its initial value `duration`, and the
   * first tick repaints exactly when `now + 1 >= duration`.
   */
  lemma FirstTick(duration: real, now: real, moving: bool)
    ensures TickSpec(Mounted(duration), now, moving).timing.elapsed == now + 1.0
    ensures TickSpec(Mounted(duration), now, moving).painted <==> now + 1.0 >= duration
  {
  }

  /** A first tick at timestamp 0 does not repaint at 144 frames per second. */
  lemma FirstTickAtZeroSkipsPaint(moving: bool)
    ensures !TickSpec(Mounted(FrameDuration), 0.0, moving).painted
    ensures Run(Mounted(FrameDuration), [0.0], _ => moving, 0).paints == []
  {
  }

  /**
   * When a repaint happens at timestamp 0, `start` becomes falsy and the next
   * tick keeps the stale `elapsed`, repainting again too soon: with a half
   * millisecond duration, ticks at 0 and 0.25 both repaint.
   */
  lemma ZeroStartRepaintsEarly(moving: bool)
    ensures Run(Mounted(0.5), [0.0, 0.25], _ => moving, 0).paints == [0.0, 0.25]
    ensures !Spaced(Run(Mounted(0.5), [0.0, 0.25], _ => moving, 0).paints, 0.5)
  {
    var policy: nat -> bool := _ => moving;
    assert [0.0, 0.25][..1] == [0.0];
    assert [0.0][..0] == [];
    var r1 := Run(Mounted(0.5), [0.0], policy, 0);
    assert r1.paints == [0.0] && r1.timing.start == 0.0;
  }
}
