/**
  The live viewer's reconnection logic (`CamViewer` inside
  `abrir_visor_camara`): every frame-read callback either succeeds and
  resets the failure counter, or fails and retries, until three consecutive
  failures stop the polling.

  The Tk event queue is modelled by one flag, `scheduled`: whether a call of
  `update_frame` is pending. A callback that reschedules itself sets it; one
  that does not clears it.
*/
module Viewer {
  import opened Common

  /** What the status label shows. */
  datatype Status = Connecting | Connected | Retrying(attempt: nat) | Disconnected | Reconnecting

  /** The viewer's state: `running`, `connection_attempts`, the status shown, and whether a frame read is pending. */
  datatype ViewerState = ViewerState(running: bool, attempts: nat, status: Status, scheduled: bool)

  /** `max_attempts`. */
  const MaxAttempts: nat := 3

  /** Right after construction: running, no failures, and the first frame read under way. */
  const Initial := ViewerState(true, 0, Connecting, true)

  /** Milliseconds before the next frame read after a good frame, and after a failed one. */
  const FrameDelay: nat := 30
  const RetryDelay: nat := 1000

  /** The state after one `update_frame` call that read a frame (`frameRead`) or failed to. */
  function AfterTick(v: ViewerState, frameRead: bool): ViewerState {
    if !v.running then v.(scheduled := false)
    else if frameRead then v.(attempts := 0, status := Connected, scheduled := true)
    else
      var a := v.attempts + 1;
      if a < MaxAttempts then v.(attempts := a, status := Retrying(a), scheduled := true)
      else v.(attempts := a, status := Disconnected, scheduled := false)
  }

  /** The delay with which `update_frame` reschedules itself, `None` when it does not. */
  function TickDelay(v: ViewerState, frameRead: bool): Option<nat> {
    if !v.running then None
    else if frameRead then Some(FrameDelay)
    else if v.attempts + 1 < MaxAttempts then Some(RetryDelay)
    else None
  }

  /** `stop`: the viewer stops running (the capture is released). */
  function AfterStop(v: ViewerState): ViewerState {
    v.(running := false)
  }

  /** `reconnect` as written: the counter is reset and the label changed, but no frame read is scheduled. */
  function AfterReconnectAsWritten(v: ViewerState): ViewerState {
    v.(attempts := 0, status := Reconnecting)
  }

  /** `reconnect` as evidently intended: also restart the frame reads when they had stopped. */
  function AfterReconnect(v: ViewerState): ViewerState {
    v.(attempts := 0, status := Reconnecting, scheduled := v.scheduled || v.running)
  }

  /** Frame reads fed to the viewer in order; once no read is pending, later outcomes are never asked for. */
  function Run(v: ViewerState, outcomes: seq<bool>): ViewerState
    decreases |outcomes|
  {
    if outcomes == [] then v
    else
      var r := Run(v, outcomes[..|outcomes| - 1]);
      if r.scheduled then AfterTick(r, outcomes[|outcomes| - 1]) else r
  }

  /** The number of failed reads at the end of `outcomes`, since the last good frame. */
  function TrailingFailures(outcomes: seq<bool>): nat
    decreases |outcomes|
  {
    if outcomes == [] || outcomes[|outcomes| - 1] then 0 else TrailingFailures(outcomes[..|outcomes| - 1]) + 1
  }

  /** Three failed reads in a row occur somewhere in `outcomes`. */
  predicate ThreeFailuresInARow(outcomes: seq<bool>) {
    exists i :: 0 <= i && i + 2 < |outcomes| && !outcomes[i] && !outcomes[i + 1] && !outcomes[i + 2]
  }

  /**
    Every callback reschedules itself, after 30 ms following a good frame
    and after 1000 ms following a failure, except the one that meets the
    third consecutive failure, and any callback after `stop`.
  */
  lemma TickSchedule(v: ViewerState, frameRead: bool)
    requires v.attempts < MaxAttempts
    ensures TickDelay(v, frameRead).Some? <==> AfterTick(v, frameRead).scheduled
    ensures TickDelay(v, frameRead) == None <==> !v.running || (!frameRead && v.attempts == MaxAttempts - 1)
    ensures v.running && frameRead ==>
      TickDelay(v, frameRead) == Some(30) && AfterTick(v, frameRead).attempts == 0 && AfterTick(v, frameRead).status == Connected
    ensures v.running && !frameRead ==> AfterTick(v, frameRead).attempts == v.attempts + 1
    ensures v.running && !frameRead && v.attempts + 1 < MaxAttempts ==>
      TickDelay(v, frameRead) == Some(1000) && AfterTick(v, frameRead).status == Retrying(v.attempts + 1)
    ensures v.running && !frameRead && v.attempts + 1 == MaxAttempts ==>
      TickDelay(v, frameRead) == None && AfterTick(v, frameRead).status == Disconnected
    ensures !v.running ==> AfterTick(v, frameRead) == v.(scheduled := false)
  {
  }

  /** Three failures in a row at the end are exactly two trailing failures before a third. */
  lemma ThreeInARowExtend(outcomes: seq<bool>, b: bool)
    ensures ThreeFailuresInARow(outcomes + [b]) <==> ThreeFailuresInARow(outcomes) || (!b && TrailingFailures(outcomes) >= 2)
  {
    var s := outcomes + [b];
    assert forall k :: 0 <= k < |outcomes| ==> s[k] == outcomes[k];
    if ThreeFailuresInARow(s) && !ThreeFailuresInARow(outcomes) {
      var i :| 0 <= i && i + 2 < |s| && !s[i] && !s[i + 1] && !s[i + 2];
      assert i + 2 == |outcomes|;
      TrailingTwo(outcomes);
    }
    if !b && TrailingFailures(outcomes) >= 2 {
      TrailingTwo(outcomes);
      assert !s[|outcomes| - 2] && !s[|outcomes| - 1] && !s[|outcomes|];
    }
  }

  /** At least two trailing failures means the last two reads failed. */
  lemma TrailingTwo(outcomes: seq<bool>)
    ensures TrailingFailures(outcomes) >= 2 <==> |outcomes| >= 2 && !outcomes[|outcomes| - 1] && !outcomes[|outcomes| - 2]
  {
    if |outcomes| >= 1 && !outcomes[|outcomes| - 1] {
      var p := outcomes[..|outcomes| - 1];
      if |p| >= 1 {
        assert p[|p| - 1] == outcomes[|outcomes| - 2];
      }
    }
  }

  /**
    From a fresh viewer, over any sequence of frame reads: while reads are
    still pending the counter is the number of failures since the last good
    frame and stays below three; the reads stop exactly when three
    consecutive failures have occurred, and then the viewer shows
    `Disconnected` with the counter at three.
  */
  lemma {:induction false} RunCounter(outcomes: seq<bool>)
    ensures var r := Run(Initial, outcomes);
      r.running && r.attempts <= MaxAttempts &&
      (r.scheduled ==> r.attempts == TrailingFailures(outcomes) && r.attempts < MaxAttempts)
    ensures !Run(Initial, outcomes).scheduled <==> ThreeFailuresInARow(outcomes)
    ensures !Run(Initial, outcomes).scheduled ==> Run(Initial, outcomes).status == Disconnected && Run(Initial, outcomes).attempts == MaxAttempts
    decreases |outcomes|
  {
    if outcomes != [] {
      var p := outcomes[..|outcomes| - 1];
      var b := outcomes[|outcomes| - 1];
      RunCounter(p);
      assert outcomes == p + [b];
      ThreeInARowExtend(p, b);
    }
  }

  /**
    As written, a reconnect after the reads have stopped restarts nothing:
    no further read ever happens and the label keeps saying `Reconnecting`,
    while the intended reconnect resumes the reads, so that one good frame
    shows `Connected` again.
  */
  lemma ReconnectAfterDisconnect(outcomes: seq<bool>, later: seq<bool>)
    requires ThreeFailuresInARow(outcomes)
    ensures Run(AfterReconnectAsWritten(Run(Initial, outcomes)), later) == AfterReconnectAsWritten(Run(Initial, outcomes))
    ensures Run(AfterReconnect(Run(Initial, outcomes)), [true]).status == Connected
  {
    RunCounter(outcomes);
    StoppedStays(AfterReconnectAsWritten(Run(Initial, outcomes)), later);
  }

  /** Once no read is pending, feeding more outcomes changes nothing. */
  lemma {:induction false} StoppedStays(v: ViewerState, later: seq<bool>)
    requires !v.scheduled
    ensures Run(v, later) == v
    decreases |later|
  {
    if later != [] {
      StoppedStays(v, later[..|later| - 1]);
    }
  }

  /** While reads are still pending, both reconnects do the same. */
  lemma ReconnectWhilePolling(v: ViewerState)
    requires v.scheduled
    ensures AfterReconnect(v) == AfterReconnectAsWritten(v)
  {
  }

  /** The viewer of one camera URL. */
  class CamViewer {
    var running: bool
    var attempts: nat
    var status: Status
    var scheduled: bool
    const maxAttempts: nat

    function State(): ViewerState
      reads this
    {
      ViewerState(running, attempts, status, scheduled)
    }

    /** The constructor: running, no failures, and the first frame read started at once. */
    constructor()
      ensures State() == Initial && maxAttempts == MaxAttempts
    {
      running := true;
      attempts := 0;
      status := Connecting;
      scheduled := true;
      maxAttempts := MaxAttempts;
    }

    /** `update_frame`: one frame read; `delay` is when the next read is scheduled, `None` if never. */
    method UpdateFrame(frameRead: bool) returns (delay: Option<nat>)
      requires maxAttempts == MaxAttempts
      modifies this
      ensures delay == TickDelay(old(State()), frameRead)
      ensures State() == AfterTick(old(State()), frameRead)
    {
      scheduled := false;
      if !running {
        return None;
      }
      if frameRead {
        status := Connected;
        attempts := 0;
        scheduled := true;
        return Some(FrameDelay);
      }
      attempts := attempts + 1;
      if attempts < maxAttempts {
        status := Retrying(attempts);
        scheduled := true;
        delay := Some(RetryDelay);
      } else {
        status := Disconnected;
        delay := None;
      }
    }

    /** `stop`. */
    method Stop()
      modifies this
      ensures State() == AfterStop(old(State()))
    {
      running := false;
    }

    /** `reconnect` as written. */
    method ReconnectAsWritten()
      modifies this
      ensures State() == AfterReconnectAsWritten(old(State()))
    {
      attempts := 0;
      status := Reconnecting;
    }

    /** `reconnect` as evidently intended; `restarted` says whether it scheduled a frame read. */
    method Reconnect() returns (restarted: bool)
      modifies this
      ensures restarted == (!old(scheduled) && old(running))
      ensures State() == AfterReconnect(old(State()))
    {
      attempts := 0;
      status := Reconnecting;
      restarted := !scheduled && running;
      if restarted {
        scheduled := true;
      }
    }
  }
}
