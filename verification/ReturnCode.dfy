/** The process-wide return code and cancel flag (lib/cRtn.cpp).  Every method is one critical
    section of its mutex. */
module ReturnCodes {
  /** An integer, as the set of the numbers of its bits that are one: the union of two is their bitwise or. */
  type Word = set<nat>

  const EXIT_SUCCESS: Word := {}
  const EXIT_FAILURE: Word := {0}

  class ReturnCode {
    var rtn: Word
    var cont: bool
    var pids: set<int>

    constructor ()
      ensures rtn == EXIT_SUCCESS && cont && pids == {}
    {
      rtn, cont, pids := EXIT_SUCCESS, true, {};
    }

    /** Overwrites the code and leaves the cancel flag alone. */
    method Assign(val: Word)
      modifies `rtn
      ensures rtn == val
    {
      rtn := val;
    }

    method OrValue(rc: Word)
      modifies `rtn, `cont
      ensures rtn == old(rtn) + rc
      ensures cont <==> old(cont) && old(rtn) == {} && rc == {}
    {
      rtn := rtn + rc;
      if rtn != {} {
        cont := false;
      }
    }

    /** Cancels, and gives the processes that SIGTERM is sent to. */
    method Break() returns (signalled: set<int>)
      modifies `cont
      ensures !cont && signalled == pids
    {
      cont := false;
      signalled := pids;
    }

    method AddPid(pid: int)
      modifies `pids
      ensures pids == old(pids) + {pid}
    {
      pids := pids + {pid};
    }

    method DelPid(pid: int)
      modifies `pids
      ensures pids == old(pids) - {pid}
    {
      pids := pids - {pid};
    }
  }
}
