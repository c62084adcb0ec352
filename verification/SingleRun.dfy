/** The non-blocking single-run guard every lane enters (retinue/single_run.py). */
module SingleRun {
  class SingleRunLock {
    var held: bool

    constructor ()
      ensures !held
    {
      held := false;
    }

    /** The first holder gets in; a second is turned away and changes nothing. */
    method Enter() returns (entered: bool)
      modifies this
      ensures entered == !old(held) && held
    {
      entered := !held;
      held := true;
    }

    method Exit()
      modifies this
      ensures !held
    {
      held := false;
    }
  }
}
