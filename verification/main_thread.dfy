/** The deferred-action queue that moves work from network callbacks onto the
    single thread that mutates game and session state. The lock is elided:
    the model is the sequential meaning of the two lists and the flag. */
module MainThread {
  import opened Wire

  /** What running one action does to the queue: the actions it enqueues,
      and whether it ends by throwing. */
  datatype Outcome<A> = Outcome(enqueued: seq<A>, threw: bool)

  /** The actions enqueued, in order, while each action of `ran` runs. */
  function Enqueued<A>(effects: A -> Outcome<A>, ran: seq<A>): seq<A>
  {
    if ran == [] then [] else Enqueued(effects, ran[..|ran| - 1]) + effects(ran[|ran| - 1]).enqueued
  }

  /** The actions of `batch` that a drain runs: all of them, in order, up to
      and including the first that throws. An exception ends the `foreach`,
      and the rest of the copy is discarded by the next drain's `Clear`. */
  function Drained<A>(effects: A -> Outcome<A>, batch: seq<A>): (ran: seq<A>)
    ensures |ran| <= |batch| && ran == batch[..|ran|]
  {
    if batch == [] then []
    else if effects(batch[0]).threw then [batch[0]]
    else [batch[0]] + Drained(effects, batch[1..])
  }

  /** When no action throws, every action of the batch runs. */
  lemma {:induction false} DrainedRunsAll<A>(effects: A -> Outcome<A>, batch: seq<A>)
    requires forall i :: 0 <= i < |batch| ==> !effects(batch[i]).threw
    ensures Drained(effects, batch) == batch
  {
    if batch != [] {
      DrainedRunsAll(effects, batch[1..]);
    }
  }

  /** Otherwise the drain stops right after the first action that throws. */
  lemma {:induction false} DrainedStopsAtThrow<A>(effects: A -> Outcome<A>, batch: seq<A>, k: nat)
    requires k < |batch| && effects(batch[k]).threw
    requires forall i :: 0 <= i < k ==> !effects(batch[i]).threw
    ensures Drained(effects, batch) == batch[..k + 1]
  {
    if k > 0 {
      DrainedStopsAtThrow(effects, batch[1..], k - 1);
      assert [batch[0]] + batch[1..][..k] == batch[..k + 1];
    }
  }

  /** Running one more action of a batch adds what it enqueues. */
  lemma EnqueuedStep<A>(effects: A -> Outcome<A>, batch: seq<A>, i: nat)
    requires i < |batch|
    ensures Enqueued(effects, batch[..i + 1]) == Enqueued(effects, batch[..i]) + effects(batch[i]).enqueued
  {
    assert batch[..i + 1][..i] == batch[..i];
  }

  /** Actions are opaque values of type `A`; a null delegate is `None`. */
  class ThreadManager<A> {
    var pending: seq<A>
    var copied: seq<A>
    var hasPending: bool

    /** The flag is raised exactly when something is pending. */
    ghost predicate Valid()
      reads this
    {
      hasPending <==> pending != []
    }

    constructor ()
      ensures Valid() && pending == [] && copied == [] && !hasPending
    {
      pending, copied, hasPending := [], [], false;
    }

    /** Queues an action for the next drain; a null action is only logged. */
    method ExecuteOnMainThread(action: Option<A>)
      requires Valid()
      modifies this`pending, this`hasPending
      ensures Valid()
      ensures action.None? ==> pending == old(pending) && hasPending == old(hasPending)
      ensures action.Some? ==> pending == old(pending) + [action.value] && hasPending
    {
      if action.None? {
        return;
      }
      pending := pending + [action.value];
      hasPending := true;
    }

    /** Runs, in enqueue order, the actions pending when the drain starts,
        until one throws. `effects(a)` says what running `a` does to the
        queue: what it enqueues waits for the next drain. The result is the
        actions run, in the order run. */
    method UpdateMain(effects: A -> Outcome<A>) returns (ran: seq<A>)
      requires Valid()
      modifies this
      ensures Valid()
      ensures !old(hasPending) ==> ran == [] && pending == old(pending) && copied == old(copied) && !hasPending
      ensures old(hasPending) ==> copied == old(pending) && ran == Drained(effects, old(pending))
      ensures old(hasPending) ==> pending == Enqueued(effects, ran)
    {
      ran := [];
      if !hasPending {
        return;
      }
      copied := [];
      copied := copied + pending;
      pending := [];
      hasPending := false;
      ghost var batch := copied;
      var i := 0;
      while i < |copied|
        invariant Valid()
        invariant copied == batch == old(pending)
        invariant 0 <= i <= |batch|
        invariant forall j :: 0 <= j < i ==> !effects(batch[j]).threw
        invariant pending == Enqueued(effects, batch[..i])
      {
        var action := copied[i];
        var threw := Run(action, effects);
        EnqueuedStep(effects, batch, i);
        if threw {
          DrainedStopsAtThrow(effects, batch, i);
          return copied[..i + 1];
        }
        i := i + 1;
      }
      assert batch[..i] == batch;
      DrainedRunsAll(effects, batch);
      ran := copied;
    }

    /** Running one action: whatever it enqueues goes to the back of the
        pending list, one `ExecuteOnMainThread` at a time. */
    method Run(action: A, effects: A -> Outcome<A>) returns (threw: bool)
      requires Valid()
      modifies this`pending, this`hasPending
      ensures Valid() && pending == old(pending) + effects(action).enqueued
      ensures threw == effects(action).threw
    {
      var more := effects(action).enqueued;
      for j := 0 to |more|
        invariant Valid()
        invariant pending == old(pending) + more[..j]
      {
        ExecuteOnMainThread(Some(more[j]));
        assert more[..j + 1] == more[..j] + [more[j]];
      }
      assert more[..|more|] == more;
      threw := effects(action).threw;
    }
  }
}
