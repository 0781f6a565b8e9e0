/**
 Waiting for a process by repeated short polls (crates/agent-protocol/src/client.rs); the loops for
 the init process and for exec processes are the same. Times are nanoseconds since the wait began.
 */
module Waiting {
  import opened Bytes

  const MILLISECOND: nat := 1_000_000
  const POLL_INTERVAL: nat := 25 * MILLISECOND

  datatype Answer = Exited(status: int) | Expired | OtherError

  /** One poll: when its timeout was chosen, when its answer was looked at, and the answer. */
  datatype Poll = Poll(asked: nat, answered: nat, answer: Answer)

  datatype WaitEnd = Status(status: int) | TimedOut | Failed | StillWaiting

  predicate ClockRuns(polls: seq<Poll>) {
    && (forall i :: 0 <= i < |polls| ==> polls[i].asked <= polls[i].answered)
    && (forall i, j :: 0 <= i < j < |polls| ==> polls[i].answered <= polls[j].asked)
  }

  /** What is left of the budget, never negative. */
  function Remaining(limit: nat, elapsed: nat): nat { if elapsed < limit then limit - elapsed else 0 }

  /** Poll `i` leaves the loop running: it expired before the budget was used up. */
  predicate GoesOn(limit: Option<nat>, poll: Poll) {
    poll.answer.Expired? && (limit.Some? ==> poll.answered < limit.value)
  }

  /**
   The loop over the polls that happen. It ends at the first one that does not leave it running, and
   only there; its own deadline error needs a limit that has been reached.
   */
  method WaitLoop(timeoutMillis: Option<nat>, polls: seq<Poll>) returns (r: WaitEnd, sent: seq<nat>)
    requires ClockRuns(polls)
    ensures var limit := Limit(timeoutMillis);
            && |sent| <= |polls| && (r.StillWaiting? ==> |sent| == |polls|) && (!r.StillWaiting? ==> |sent| > 0)
            // which polls are made
            && (forall i :: 0 <= i < |sent| - (if r.StillWaiting? then 0 else 1) ==> GoesOn(limit, polls[i]))
            && (!r.StillWaiting? ==> !GoesOn(limit, polls[|sent| - 1]))
            // and how it ends
            && (r.TimedOut? ==> limit.Some? && polls[|sent| - 1].answer.Expired? && polls[|sent| - 1].answered >= limit.value)
            && (r.Status? ==> polls[|sent| - 1].answer == Exited(r.status))
            && (r.Failed? ==> polls[|sent| - 1].answer.OtherError?)
    // every timeout sent is within the interval and within the budget left
    ensures forall i :: 0 <= i < |sent| ==> sent[i] <= 25
    ensures timeoutMillis.Some? ==> forall i :: 0 <= i < |sent| ==>
              sent[i] * MILLISECOND <= Remaining(timeoutMillis.value * MILLISECOND, polls[i].asked)
    // and no shorter than whole milliseconds force it to be
    ensures forall i :: 0 <= i < |sent| && sent[i] < 25 ==>
              timeoutMillis.Some? && (sent[i] + 1) * MILLISECOND > Remaining(timeoutMillis.value * MILLISECOND, polls[i].asked)
  {
    var limit := Limit(timeoutMillis);
    sent := [];
    for i := 0 to |polls|
      invariant |sent| == i
      invariant forall k :: 0 <= k < i ==> GoesOn(limit, polls[k])
      invariant forall k :: 0 <= k < i ==> sent[k] <= 25
      invariant limit.Some? ==> forall k :: 0 <= k < i ==> sent[k] * MILLISECOND <= Remaining(limit.value, polls[k].asked)
      invariant forall k :: 0 <= k < i && sent[k] < 25 ==>
        limit.Some? && (sent[k] + 1) * MILLISECOND > Remaining(limit.value, polls[k].asked)
    {
      var timeout := POLL_INTERVAL;
      if limit.Some? && Remaining(limit.value, polls[i].asked) < timeout {
        timeout := Remaining(limit.value, polls[i].asked);
      }
      sent := sent + [timeout / MILLISECOND];
      match polls[i].answer {
        case Exited(status) => return Status(status), sent;
        case OtherError => return Failed, sent;
        case Expired =>
          if limit.Some? && polls[i].answered >= limit.value { return TimedOut, sent; }
      }
    }
    return StillWaiting, sent;
  }

  function Limit(timeoutMillis: Option<nat>): Option<nat> {
    if timeoutMillis.Some? then Some(timeoutMillis.value * MILLISECOND) else None
  }

  /** Every expired poll takes at least one tick. */
  predicate Ticks(polls: seq<Poll>, tick: nat) {
    forall i :: 0 <= i < |polls| && polls[i].answer.Expired? ==> polls[i].answered >= polls[i].asked + tick
  }

  lemma {:induction false} ExpiredPollsTakeTime(polls: seq<Poll>, tick: nat, i: nat)
    requires ClockRuns(polls) && Ticks(polls, tick) && i < |polls|
    requires forall k :: 0 <= k <= i ==> polls[k].answer.Expired?
    ensures polls[i].answered >= (i + 1) * tick
  {
    if i > 0 { ExpiredPollsTakeTime(polls, tick, i - 1); }
  }

  /** With a limit and a clock that ticks, the loop cannot be kept running past limit / tick polls. */
  lemma WaitTerminates(limit: nat, polls: seq<Poll>, tick: nat)
    requires ClockRuns(polls) && tick > 0 && Ticks(polls, tick) && |polls| * tick >= limit && polls != []
    ensures exists i :: 0 <= i < |polls| && !GoesOn(Some(limit), polls[i])
  {
    var last := |polls| - 1;
    if forall i :: 0 <= i < |polls| ==> GoesOn(Some(limit), polls[i]) {
      ExpiredPollsTakeTime(polls, tick, last);
    }
  }
}
