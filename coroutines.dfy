/** A launched coroutine, reduced to what the producers use of it: the
    isActive flag, which cancel() clears. */
module Coroutines {

  class Job {
    var active: bool

    /** scope.launch { ... }: the new job is active. */
    constructor()
      ensures active
    {
      active := true;
    }

    /** Job.cancel(): the job is no longer active, whatever it was before. */
    method Cancel()
      modifies this
      ensures !active
    {
      active := false;
    }
  }
}
