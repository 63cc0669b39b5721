/** A string argument from VCL, which may be a null pointer. */
module Vcl {

  datatype VclString = Null | Str(s: string)

  /** The characters of an argument, none for a null pointer. */
  function Text(v: VclString): string {
    if v.Null? then "" else v.s
  }

  /** A workspace.  An allocation may fail at any time, and a failure
      is remembered. */
  class Workspace {
    ghost var overflow: bool

    constructor ()
      ensures !overflow
    {
      overflow := false;
    }

    method Alloc() returns (ok: bool)
      modifies this
      ensures overflow == (old(overflow) || !ok)
    {
      ok := *;
      overflow := overflow || !ok;
    }
  }
}
