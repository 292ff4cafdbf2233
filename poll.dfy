/** The readiness poll: after the upload, the program re-fetches the remote
    file handle every five seconds until its state is ACTIVE. */
module Poll {

  /** The lifecycle states a remote file reports. */
  datatype FileState = Unspecified | Processing | Active | Failed

  /** The answer to one re-fetch of the handle: its new state, or a
      transport error (fatal). */
  datatype Fetch = Got(state: FileState) | TransportError

  /** How the poll ends. `NeverActive` means the given answers ran out with
      the file still not active: the program itself would go on polling. */
  datatype PollOutcome = Ready(fetches: nat) | FetchFailed(at: nat) | NeverActive

  /** The loop guard as written: `state == Unspecified || state != Active`.
      Its first disjunct adds nothing: the guard holds exactly when the
      file is not active. */
  function KeepPolling(state: FileState): (b: bool)
    ensures b <==> state != Active
  {
    state == Unspecified || state != Active
  }

  /** The first k answers were all states. */
  predicate AllGot(fetches: seq<Fetch>, k: nat)
    requires k <= |fetches|
  {
    forall j :: 0 <= j < k ==> fetches[j].Got?
  }

  /** The state the program holds after k successful re-fetches. */
  function StateAfter(initial: FileState, fetches: seq<Fetch>, k: nat): FileState
    requires k <= |fetches| && AllGot(fetches, k)
  {
    if k == 0 then initial else fetches[k - 1].state
  }

  /** Some prefix of the answers consists of states only and leaves the
      file active. */
  predicate BecomesActive(initial: FileState, fetches: seq<Fetch>)
  {
    exists k :: 0 <= k <= |fetches| && AllGot(fetches, k) && StateAfter(initial, fetches, k) == Active
  }

  /** If no state up to answer `at` is active and answer `at` is a transport
      error (or the answers end there), no prefix of the answers leaves the
      file active. */
  lemma {:induction false} NeverActiveBefore(initial: FileState, fetches: seq<Fetch>, at: nat)
    requires at <= |fetches| && AllGot(fetches, at)
    requires at < |fetches| ==> fetches[at] == TransportError
    requires forall j :: 0 <= j <= at ==> StateAfter(initial, fetches, j) != Active
    ensures !BecomesActive(initial, fetches)
  {
    forall k | 0 <= k <= |fetches|
      ensures AllGot(fetches, k) ==> StateAfter(initial, fetches, k) != Active
    {
      if k > at {
        assert !fetches[at].Got?;
      }
    }
  }

  /** The poll loop, fed the state returned by the upload and the answers
      of the successive re-fetches. Besides the outcome it returns the
      state the program holds when the loop ends. */
  method PollUntilActive(initial: FileState, fetches: seq<Fetch>)
    returns (outcome: PollOutcome, last: FileState)
    ensures outcome.Ready? ==>
      && outcome.fetches <= |fetches|
      && AllGot(fetches, outcome.fetches)
      && last == StateAfter(initial, fetches, outcome.fetches) == Active
      && forall j :: 0 <= j < outcome.fetches ==> StateAfter(initial, fetches, j) != Active
    ensures outcome.FetchFailed? ==>
      && outcome.at < |fetches|
      && AllGot(fetches, outcome.at)
      && fetches[outcome.at] == TransportError
      && forall j :: 0 <= j <= outcome.at ==> StateAfter(initial, fetches, j) != Active
    ensures outcome.NeverActive? ==>
      && AllGot(fetches, |fetches|)
      && forall j :: 0 <= j <= |fetches| ==> StateAfter(initial, fetches, j) != Active
    ensures last == Active <==> outcome.Ready?
    ensures outcome.Ready? <==> BecomesActive(initial, fetches)
  {
    var state := initial;
    var k := 0;
    while KeepPolling(state)
      invariant 0 <= k <= |fetches|
      invariant AllGot(fetches, k)
      invariant state == StateAfter(initial, fetches, k)
      invariant forall j :: 0 <= j < k ==> StateAfter(initial, fetches, j) != Active
      decreases |fetches| - k
    {
      if k == |fetches| {
        NeverActiveBefore(initial, fetches, k);
        return NeverActive, state;
      }
      match fetches[k]
      case TransportError =>
        NeverActiveBefore(initial, fetches, k);
        return FetchFailed(k), state;
      case Got(s) =>
        state := s;
        k := k + 1;
    }
    outcome, last := Ready(k), state;
  }
}
