// The outside world as an oracle: every call to the node or the database consumes one tick and may fail.
// All statements hold for every oracle, that is, for every pattern of failures.
module Faults {
  import opened Options

  datatype Error = Cancelled | Transient | Permanent

  class Env {
    const fault: nat -> Option<Error>  // what the call at each tick returns
    const lands: nat -> bool           // whether a COMMIT that reported an error took effect all the same
    var now: nat

    constructor (fault: nat -> Option<Error>, lands: nat -> bool)
      ensures this.fault == fault && this.lands == lands && now == 0
    {
      this.fault := fault;
      this.lands := lands;
      now := 0;
    }

    // No call failed from tick a up to tick b.
    ghost predicate Calm(a: nat, b: nat) {
      forall i :: a <= i < b ==> fault(i).None?
    }

    // The error is that of the last call before `till`; or the call before it failed, that was ignored, and the server
    // refused this one because of it.
    ghost predicate Last(till: nat, e: Option<Error>) {
      && till > 0
      && (e == fault(till - 1)
          || (till > 1 && fault(till - 1).None? && fault(till - 2).Some? && e == Some(Permanent)))
    }

    // What the calls from tick `from` up to `till` report: no error exactly when none failed. Otherwise they stopped at
    // the first failure; or at the call after it, if it was ignored.
    ghost predicate Outcome(from: nat, till: nat, e: Option<Error>) {
      && from <= till
      && (e.None? <==> Calm(from, till))
      && (e.Some? ==>
            && from < till && Last(till, e)
            && (Calm(from, till - 1) || (from + 1 < till && Calm(from, till - 2))))
    }

    lemma Single(at: nat)
      ensures Outcome(at, at + 1, fault(at))
    {
    }

    // Calls that follow calls without failure.
    lemma After(from: nat, mid: nat, till: nat, e: Option<Error>)
      requires from <= mid && Calm(from, mid) && Outcome(mid, till, e)
      ensures Outcome(from, till, e)
    {
    }

    method Call() returns (e: Option<Error>)
      modifies this`now
      ensures now == old(now) + 1 && e == fault(old(now))
    {
      e := fault(now);
      now := now + 1;
    }

    // The error a COMMIT reports, and whether the work was installed.
    method Commit() returns (e: Option<Error>, installed: bool)
      modifies this`now
      ensures now == old(now) + 1 && e == fault(old(now))
      ensures e.None? ==> installed
    {
      e := fault(now);
      installed := e.None? || lands(now);
      now := now + 1;
    }
  }
}
