/**
 * The screen monitor of `start_monitoring` in commands.rs: after every
 * capture it emits `screen-changed` only when the image hash differs from the
 * last one it emitted. Capturing, hashing, sleeping and the spawned loop
 * are outside the model; each capture outcome is an input.
 */
module ScreenMonitor {
  import opened Results

  /** `CaptureResult`; the hash is an opaque string. */
  datatype CaptureResult = CaptureResult(imageBase64: string, hash: string, timestamp: int)

  /** One iteration of the loop: the new last hash and what is emitted. */
  function MonitorStep(lastHash: string, capture: Result<CaptureResult>): (r: (string, Option<CaptureResult>))
    ensures r.1.Some? <==> capture.Ok? && capture.value.hash != lastHash
    ensures r.1.Some? ==> r.1.value == capture.value && r.0 == capture.value.hash
    ensures r.1.None? ==> r.0 == lastHash
  {
    match capture
    case Ok(result) => if result.hash != lastHash then (result.hash, Some(result)) else (lastHash, None)
    case Err(_) => (lastHash, None)
  }

  /** The state the monitoring task keeps between iterations. */
  class Monitor {
    var lastHash: string

    constructor ()
      ensures lastHash == ""
    {
      lastHash := "";
    }

    /** Handle one capture outcome; the result is the payload of a `screen-changed` event, if any. */
    method OnCapture(capture: Result<CaptureResult>) returns (emitted: Option<CaptureResult>)
      modifies this
      ensures (lastHash, emitted) == MonitorStep(old(lastHash), capture)
    {
      emitted := None;
      match capture {
        case Ok(result) =>
          if result.hash != lastHash {
            lastHash := result.hash;
            emitted := Some(result);
          }
        case Err(_) =>
      }
    }
  }

  /** The events a run of captures emits, starting from `lastHash`. */
  function Emitted(lastHash: string, captures: seq<Result<CaptureResult>>): seq<CaptureResult>
    decreases |captures|
  {
    if captures == [] then []
    else
      var (next, out) := MonitorStep(lastHash, captures[0]);
      (if out.Some? then [out.value] else []) + Emitted(next, captures[1..])
  }

  /** The last hash after a run of captures. */
  function FinalHash(lastHash: string, captures: seq<Result<CaptureResult>>): string
    decreases |captures|
  {
    if captures == [] then lastHash else FinalHash(MonitorStep(lastHash, captures[0]).0, captures[1..])
  }

  /** Hashes that change at every step. */
  predicate HashesChange(e: seq<CaptureResult>) {
    forall i :: 0 <= i < |e| - 1 ==> e[i].hash != e[i + 1].hash
  }

  /** Putting in front an event whose hash differs from the next one keeps the hashes changing. */
  lemma HashesChangeCons(x: CaptureResult, rest: seq<CaptureResult>)
    requires HashesChange(rest) && (rest != [] ==> rest[0].hash != x.hash)
    ensures HashesChange([x] + rest)
  {
    var e := [x] + rest;
    forall i | 0 <= i < |e| - 1
      ensures e[i].hash != e[i + 1].hash
    {
      if i > 0 {
        assert e[i] == rest[i - 1] && e[i + 1] == rest[i];
      }
    }
  }

  /**
   * Over any run: the first event differs from the starting hash, two
   * consecutive events never carry the same hash, and the stored hash is that
   * of the last event (or the starting one when nothing was emitted).
   */
  lemma {:induction false} EmittedHashesChange(lastHash: string, captures: seq<Result<CaptureResult>>)
    ensures var e := Emitted(lastHash, captures);
      (e != [] ==> e[0].hash != lastHash) && HashesChange(e) &&
      FinalHash(lastHash, captures) == (if e == [] then lastHash else e[|e| - 1].hash)
    decreases |captures|
  {
    if captures != [] {
      var step := MonitorStep(lastHash, captures[0]);
      var rest := Emitted(step.0, captures[1..]);
      EmittedHashesChange(step.0, captures[1..]);
      assert FinalHash(lastHash, captures) == FinalHash(step.0, captures[1..]);
      if step.1.Some? {
        assert Emitted(lastHash, captures) == [step.1.value] + rest;
        HashesChangeCons(step.1.value, rest);
      } else {
        assert Emitted(lastHash, captures) == rest;
      }
    }
  }

  /** Every event is one of the successful captures, and there are at most as many events as captures. */
  lemma {:induction false} EmittedComeFromCaptures(lastHash: string, captures: seq<Result<CaptureResult>>)
    ensures |Emitted(lastHash, captures)| <= |captures|
    ensures forall e :: e in Emitted(lastHash, captures) ==> Ok(e) in captures
    decreases |captures|
  {
    if captures != [] {
      var (next, out) := MonitorStep(lastHash, captures[0]);
      EmittedComeFromCaptures(next, captures[1..]);
      assert forall c :: c in captures[1..] ==> c in captures;
    }
  }
}
