/**
 * The focus-change detector of `ProcessMonitor::start_monitoring` in
 * process_monitor/windows.rs. Every half second the monitoring thread asks
 * for the foreground process name; it remembers the last name it saw and
 * reports `focus_changed` when the name changes, except on a change away
 * from an empty name (the starting name, or an empty name a probe returned).
 * The probe, the clock, the thread and the
 * sleep are outside the model: each iteration's probe result and time are
 * inputs.
 */
module FocusMonitor {
  import opened Results

  /** `ProcessEvent`. */
  datatype ProcessEvent = ProcessEvent(eventType: string, processName: string, timestamp: int)

  const FocusChanged: string := "focus_changed"

  /**
   * One iteration: the new `last_active` and the event passed to the
   * callback, if any. `probe` is what `get_active_process` returned; `now` is
   * the time in seconds since the Unix epoch.
   */
  function FocusStep(lastActive: string, probe: Result<string>, now: int): (r: (string, Option<ProcessEvent>))
    ensures probe.Err? ==> r == (lastActive, None)
    ensures probe.Ok? ==> r.0 == probe.value
    ensures r.1.Some? <==> probe.Ok? && probe.value != lastActive && lastActive != ""
    ensures r.1.Some? ==> r.1.value == ProcessEvent(FocusChanged, probe.value, now)
  {
    match probe
    case Ok(current) =>
      if current != lastActive then
        (current, if lastActive != "" then Some(ProcessEvent(FocusChanged, current, now)) else None)
      else (lastActive, None)
    case Err(_) => (lastActive, None)
  }

  /** The state of one monitoring thread. */
  class FocusTracker {
    var lastActive: string

    constructor ()
      ensures lastActive == ""
    {
      lastActive := "";
    }

    /** One iteration of the thread's loop. */
    method Step(probe: Result<string>, now: int) returns (event: Option<ProcessEvent>)
      modifies this
      ensures (lastActive, event) == FocusStep(old(lastActive), probe, now)
    {
      event := None;
      match probe {
        case Ok(current) =>
          if current != lastActive {
            if lastActive != "" {
              event := Some(ProcessEvent(FocusChanged, current, now));
            }
            lastActive := current;
          }
        case Err(_) =>
      }
    }
  }

  /** `mpsc::Sender<ProcessEvent>`: only whether one is held matters here. */
  datatype Sender = Sender

  /** `ProcessMonitor`. */
  class ProcessMonitor {
    var sender: Option<Sender>

    /** `ProcessMonitor::new`. */
    constructor ()
      ensures sender == None
    {
      sender := None;
    }

    /**
     * `start_monitoring`: keeps a sender and starts a thread, whose state is
     * the returned tracker; it always answers `Ok`.
     */
    method StartMonitoring() returns (r: Result<()>, thread: FocusTracker)
      modifies this
      ensures sender == Some(Sender) && r == Ok(())
      ensures fresh(thread) && thread.lastActive == ""
    {
      sender := Some(Sender);
      thread := new FocusTracker();
      r := Ok(());
    }
  }

  /** One probe of a run, with the time it was taken. */
  datatype Observation = Observation(probe: Result<string>, now: int)

  /** The events a run of probes produces, starting from `lastActive`. */
  function Events(lastActive: string, run: seq<Observation>): seq<ProcessEvent>
    decreases |run|
  {
    if run == [] then []
    else
      var (next, out) := FocusStep(lastActive, run[0].probe, run[0].now);
      (if out.Some? then [out.value] else []) + Events(next, run[1..])
  }

  /** `last_active` after a run of probes. */
  function LastActive(lastActive: string, run: seq<Observation>): string
    decreases |run|
  {
    if run == [] then lastActive else LastActive(FocusStep(lastActive, run[0].probe, run[0].now).0, run[1..])
  }

  /** The name of the last successful probe of a run, if there was one. */
  function LastSeen(run: seq<Observation>): Option<string>
    decreases |run|
  {
    if run == [] then None
    else if run[|run| - 1].probe.Ok? then Some(run[|run| - 1].probe.value)
    else LastSeen(run[..|run| - 1])
  }

  /** One more probe acts on the state the earlier ones left. */
  lemma {:induction false} LastActiveSnoc(lastActive: string, run: seq<Observation>, o: Observation)
    ensures LastActive(lastActive, run + [o]) == FocusStep(LastActive(lastActive, run), o.probe, o.now).0
    decreases |run|
  {
    if run == [] {
      assert [] + [o] == [o];
    } else {
      LastActiveSnoc(FocusStep(lastActive, run[0].probe, run[0].now).0, run[1..], o);
      assert (run + [o])[1..] == run[1..] + [o];
    }
  }

  /** After a run, `last_active` is the name of the last successful probe; failed probes change nothing. */
  lemma {:induction false} LastActiveIsLastSeen(lastActive: string, run: seq<Observation>)
    ensures LastActive(lastActive, run) == LastSeen(run).UnwrapOr(lastActive)
    decreases |run|
  {
    if run != [] {
      var front, o := run[..|run| - 1], run[|run| - 1];
      assert run == front + [o];
      LastActiveSnoc(lastActive, front, o);
      LastActiveIsLastSeen(lastActive, front);
    }
  }

  /** Probes that fail or repeat the remembered name emit nothing and leave the state as it is. */
  lemma {:induction false} RepeatsAndFailuresAreSilent(lastActive: string, run: seq<Observation>)
    requires forall i :: 0 <= i < |run| ==> run[i].probe.Err? || run[i].probe.value == lastActive
    ensures Events(lastActive, run) == []
    ensures LastActive(lastActive, run) == lastActive
    decreases |run|
  {
    if run != [] {
      RepeatsAndFailuresAreSilent(lastActive, run[1..]);
    }
  }

  /** Every event names a process some probe of the run returned, and there is at most one event per probe. */
  lemma {:induction false} EventsComeFromProbes(lastActive: string, run: seq<Observation>)
    ensures |Events(lastActive, run)| <= |run|
    ensures forall e :: e in Events(lastActive, run) ==>
      e.eventType == FocusChanged && exists i :: 0 <= i < |run| && run[i].probe == Ok(e.processName)
    decreases |run|
  {
    if run != [] {
      var (next, out) := FocusStep(lastActive, run[0].probe, run[0].now);
      EventsComeFromProbes(next, run[1..]);
      forall e | e in Events(next, run[1..])
        ensures exists i :: 0 <= i < |run| && run[i].probe == Ok(e.processName)
      {
        var i :| 0 <= i < |run[1..]| && run[1..][i].probe == Ok(e.processName);
        assert run[i + 1].probe == Ok(e.processName);
      }
      if out.Some? {
        assert run[0].probe == Ok(out.value.processName);
      }
    }
  }

  /**
   * A change to the empty name is reported and resets the state to `""`, so
   * the next change, to a non-empty name, is not reported.
   */
  lemma EmptyNameHidesNextChange(a: string, b: string, t1: int, t2: int)
    requires a != "" && b != ""
    ensures Events(a, [Observation(Ok(""), t1), Observation(Ok(b), t2)]) == [ProcessEvent(FocusChanged, "", t1)]
    ensures LastActive(a, [Observation(Ok(""), t1), Observation(Ok(b), t2)]) == b
  {
    var run := [Observation(Ok(""), t1), Observation(Ok(b), t2)];
    var rest := [Observation(Ok(b), t2)];
    assert run[1..] == rest && rest[1..] == [];
    assert FocusStep(a, Ok(""), t1) == ("", Some(ProcessEvent(FocusChanged, "", t1)));
    assert FocusStep("", Ok(b), t2) == (b, None);
    assert Events("", rest) == [];
    assert LastActive("", rest) == b;
  }

  /** A fresh thread reports nothing for its first successful probe, and then remembers the name. */
  lemma FirstProbeIsSilent(failures: seq<Observation>, first: string, now: int)
    requires forall i :: 0 <= i < |failures| ==> failures[i].probe.Err?
    ensures Events("", failures + [Observation(Ok(first), now)]) == []
    ensures LastActive("", failures + [Observation(Ok(first), now)]) == first
  {
    var run := failures + [Observation(Ok(first), now)];
    RepeatsAndFailuresAreSilent("", run[..|failures|]) by {
      assert run[..|failures|] == failures;
    }
    EventsSnocSilent("", failures, Observation(Ok(first), now));
    LastActiveSnoc("", failures, Observation(Ok(first), now));
  }

  /** A last probe that reports nothing adds no event to a run. */
  lemma {:induction false} EventsSnocSilent(lastActive: string, run: seq<Observation>, o: Observation)
    requires FocusStep(LastActive(lastActive, run), o.probe, o.now).1.None?
    ensures Events(lastActive, run + [o]) == Events(lastActive, run)
    decreases |run|
  {
    if run == [] {
      assert [] + [o] == [o];
      assert [o][1..] == [];
    } else {
      EventsSnocSilent(FocusStep(lastActive, run[0].probe, run[0].now).0, run[1..], o);
      assert (run + [o])[1..] == run[1..] + [o];
    }
  }
}
