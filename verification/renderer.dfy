/**
 * The `Render` interface of the Canvas component and the choice of renderer.
 *
 * The two implementations (the moving-vehicle renderer and the text renderer)
 * keep private animation state that only update() changes. Their code is not
 * part of this model, so a Renderer here is characterised by `policy`: the
 * answer update() gives on its k-th call. render() repaints and changes no
 * animation state; the model counts its calls.
 */
module Renderers {

  /** Which renderer the component builds. */
  datatype Mode = Car | Text

  /** The `toDraw` property: "car" selects the vehicle renderer, anything else the text renderer. */
  function SelectMode(toDraw: string): (m: Mode)
    ensures m == Car <==> toDraw == "car"
    ensures m == Text <==> toDraw != "car"
  {
    if toDraw == "car" then Car else Text
  }

  class Renderer {
    const mode: Mode
    /** update() answers `policy(k)` on its k-th call: whether the scene is still moving (blur on). */
    const policy: nat -> bool
    /** Number of update() calls so far. */
    var updates: nat
    /** Number of render() calls so far. */
    var paints: nat

    constructor (mode: Mode, policy: nat -> bool)
      ensures this.mode == mode && this.policy == policy
      ensures updates == 0 && paints == 0
    {
      this.mode := mode;
      this.policy := policy;
      updates := 0;
      paints := 0;
    }

    /** Advance the animation by one step; true while the scene is still moving. */
    method Update() returns (moving: bool)
      modifies this
      ensures moving == policy(old(updates))
      ensures updates == old(updates) + 1 && paints == old(paints)
    {
      moving := policy(updates);
      updates := updates + 1;
    }

    /** Repaint the current animation state. */
    method Render()
      modifies this
      ensures paints == old(paints) + 1 && updates == old(updates)
    {
      paints := paints + 1;
    }
  }
}
