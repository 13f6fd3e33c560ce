/**
 * The capture interval: one shared `u64` field of `ScreenCaptureState`
 * (screen_capture.rs), read by `get_capture_interval` and written by
 * `set_capture_interval` (commands.rs) only when the new value is 1..10.
 */
module CaptureSettings {
  import opened Results

  newtype u64 = x: int | 0 <= x < 0x1_0000_0000_0000_0000

  /** The interval a fresh state starts with, in seconds. */
  const DefaultInterval: u64 := 3

  const RangeError: string := "Interval must be between 1 and 10 seconds"

  /** The intervals `set_capture_interval` accepts. */
  predicate Accepted(interval: u64) {
    1 <= interval <= 10
  }

  /** What `set_capture_interval` leaves stored and what it answers. */
  function IntervalUpdate(current: u64, requested: u64): (r: (u64, Result<()>))
    ensures r.1.Ok? <==> Accepted(requested)
    ensures Accepted(requested) ==> r.0 == requested
    ensures !Accepted(requested) ==> r.0 == current && r.1 == Err(RangeError)
  {
    if requested < 1 || requested > 10 then (current, Err(RangeError)) else (requested, Ok(()))
  }

  /** `ScreenCaptureState`. */
  class ScreenCaptureState {
    var intervalSeconds: u64

    /** `ScreenCaptureState::default`. */
    constructor ()
      ensures intervalSeconds == DefaultInterval
    {
      intervalSeconds := DefaultInterval;
    }

    /** `get_capture_interval`: the stored value, always `Ok`. */
    method GetCaptureInterval() returns (r: Result<u64>)
      ensures r == Ok(intervalSeconds)
    {
      return Ok(intervalSeconds);
    }

    /** `set_capture_interval`. */
    method SetCaptureInterval(interval: u64) returns (r: Result<()>)
      modifies this
      ensures (intervalSeconds, r) == IntervalUpdate(old(intervalSeconds), interval)
      ensures Accepted(old(intervalSeconds)) ==> Accepted(intervalSeconds)
    {
      if interval < 1 || interval > 10 {
        return Err(RangeError);
      }
      intervalSeconds := interval;
      return Ok(());
    }
  }

  /** The interval stored after a series of `set_capture_interval` calls. */
  function AfterRequests(current: u64, requests: seq<u64>): u64
    decreases |requests|
  {
    if requests == [] then current
    else AfterRequests(IntervalUpdate(current, requests[0]).0, requests[1..])
  }

  /** Starting in range, the stored interval stays in 1..10 whatever is requested. */
  lemma {:induction false} IntervalStaysInRange(current: u64, requests: seq<u64>)
    requires Accepted(current)
    ensures Accepted(AfterRequests(current, requests))
    decreases |requests|
  {
    if requests != [] {
      IntervalStaysInRange(IntervalUpdate(current, requests[0]).0, requests[1..]);
    }
  }

  /** Request `i` is accepted and no later one is. */
  predicate LastAccepted(requests: seq<u64>, i: int) {
    0 <= i < |requests| && Accepted(requests[i]) &&
    forall j :: i < j < |requests| ==> !Accepted(requests[j])
  }

  /**
   * After a series of requests the stored interval is the last accepted one,
   * or the starting value when none was accepted.
   */
  lemma {:induction false} LastAcceptedWins(current: u64, requests: seq<u64>)
    ensures (forall i :: 0 <= i < |requests| ==> !Accepted(requests[i])) ==>
      AfterRequests(current, requests) == current
    ensures forall i :: LastAccepted(requests, i) ==> AfterRequests(current, requests) == requests[i]
    decreases |requests|
  {
    if requests != [] {
      var rest := requests[1..];
      LastAcceptedWins(IntervalUpdate(current, requests[0]).0, rest);
      forall i | LastAccepted(requests, i)
        ensures AfterRequests(current, requests) == requests[i]
      {
        if i > 0 {
          assert LastAccepted(rest, i - 1) by {
            forall j | i - 1 < j < |rest|
              ensures !Accepted(rest[j])
            {
              assert rest[j] == requests[j + 1];
            }
          }
        } else {
          forall j | 0 <= j < |rest|
            ensures !Accepted(rest[j])
          {
            assert rest[j] == requests[j + 1];
          }
        }
      }
      if forall i :: 0 <= i < |requests| ==> !Accepted(requests[i]) {
        forall j | 0 <= j < |rest|
          ensures !Accepted(rest[j])
        {
          assert rest[j] == requests[j + 1];
        }
      }
    }
  }
}
