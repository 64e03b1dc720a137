/**
 * `GPUProgram`'s activation stack.  The class-wide stack `active_programs`
 * and the GL context's current program (what `glUseProgram` last selected)
 * are the fields of one `GlContext` object that every program shares.
 */
module GpuPrograms {

  /** A GL object name: `unsigned int`. */
  newtype Uint32 = x: int | 0 <= x < 0x1_0000_0000

  const TwoTo31: int := 0x8000_0000
  const TwoTo32: int := 0x1_0000_0000

  /** The program a stack says should be in use: its top, or 0 (no program) when it is empty. */
  function TopOrZero(stack: seq<Uint32>): (r: Uint32)
    ensures |stack| == 0 ==> r == 0
    ensures |stack| > 0 ==> r == stack[|stack| - 1]
  {
    if |stack| == 0 then 0 else stack[|stack| - 1]
  }

  /** The class-wide activation stack and the context's current program. */
  class GlContext {
    var activePrograms: seq<Uint32>
    var current: Uint32

    /** The current program is always the one on top of the stack, or 0. */
    predicate Valid()
      reads this
    {
      current == TopOrZero(activePrograms)
    }

    /** At start-up nothing is active and program 0 is in use. */
    constructor ()
      ensures activePrograms == [] && current == 0
      ensures Valid()
    {
      activePrograms := [];
      current := 0;
    }
  }

  /** Reading an `unsigned int` back as an `int` (two's complement). */
  function SignedOf(u: Uint32): (r: int)
    ensures -TwoTo31 <= r < TwoTo31
    ensures (r - u as int) % TwoTo32 == 0
    ensures u as int < TwoTo31 ==> r == u as int
  {
    if (u as int) < TwoTo31 then u as int else u as int - TwoTo32
  }

  /** The conversion back to `unsigned int`. */
  function UnsignedOf(i: int): (r: Uint32)
    requires -TwoTo31 <= i < TwoTo31
    ensures (r as int - i) % TwoTo32 == 0
  {
    if i >= 0 then i as Uint32 else (i + TwoTo32) as Uint32
  }

  class GPUProgram {
    const programId: Uint32

    constructor (name: Uint32)
      ensures programId == name
    {
      programId := name;
    }

    /** `id()`: the program name returned as `int`. */
    function Id(): (r: int)
      ensures -TwoTo31 <= r < TwoTo31
      ensures UnsignedOf(r) == programId
    {
      SignedOf(programId)
    }

    /** `activate`: use this program and push it on the stack. */
    method Activate(gl: GlContext)
      modifies gl
      ensures gl.activePrograms == old(gl.activePrograms) + [programId]
      ensures gl.current == programId
      ensures gl.Valid()
    {
      gl.current := programId;
      gl.activePrograms := gl.activePrograms + [programId];
    }

    /**
     * `deactivate`: pop the top entry, then use the program now on top, or
     * program 0 when none is left.
     */
    method Deactivate(gl: GlContext)
      requires |gl.activePrograms| > 0
      modifies gl
      ensures gl.activePrograms == old(gl.activePrograms)[..|old(gl.activePrograms)| - 1]
      ensures gl.current == TopOrZero(gl.activePrograms)
      ensures gl.Valid()
    {
      gl.activePrograms := gl.activePrograms[..|gl.activePrograms| - 1];
      if |gl.activePrograms| > 0 {
        gl.current := gl.activePrograms[|gl.activePrograms| - 1];
      } else {
        gl.current := 0;
      }
    }
  }

  /**
   * Nested activation: activating a program around some work and
   * deactivating it afterwards leaves the stack and the program in use as
   * they were.
   */
  method ActivateThenDeactivate(p: GPUProgram, gl: GlContext)
    requires gl.Valid()
    modifies gl
    ensures gl.activePrograms == old(gl.activePrograms)
    ensures gl.current == old(gl.current)
  {
    p.Activate(gl);
    p.Deactivate(gl);
  }

  /** Two nested activations unwind in reverse order, restoring the current program at each level. */
  method NestedActivation(outer: GPUProgram, inner: GPUProgram, gl: GlContext)
    requires gl.Valid()
    modifies gl
    ensures gl.activePrograms == old(gl.activePrograms)
    ensures gl.current == old(gl.current)
  {
    outer.Activate(gl);
    inner.Activate(gl);
    assert gl.current == inner.programId;
    inner.Deactivate(gl);
    assert gl.current == outer.programId;
    outer.Deactivate(gl);
  }
}
