/** `start`, `stop` and `run` of main.py: the `running` flag and the
    cleanup that `stop` performs for whatever was acquired. */
module Lifecycle {
  import opened Results

  /** How far `start` got: the device could not be opened, the device came
      up but a later step (starting its streams or connecting the session)
      raised, or the session connected. */
  datatype Setup = DeviceUnavailable | SessionFailed | Connected

  /** The chat object's resources and flag. */
  datatype Chat = Chat(device: bool, session: bool, running: bool)

  /** The cleanup steps `stop` can perform, in the order it performs them. */
  datatype Cleanup = CloseSession | StopRecording | StopPlaying | ReleaseDevice

  const Fresh: Chat := Chat(false, false, false)

  /** `start`: the device is assigned first, the session only once connect
      returns, and `running` is set last, so it is true only after both. */
  function Start(setup: Setup): (c: Chat)
    ensures c.running <==> setup == Connected
    ensures c.running ==> c.device && c.session
    ensures c.session ==> c.device
    ensures c.device <==> setup != DeviceUnavailable
  {
    match setup
    case DeviceUnavailable => Fresh
    case SessionFailed => Chat(true, false, false)
    case Connected => Chat(true, true, true)
  }

  const DeviceCleanup: seq<Cleanup> := [StopRecording, StopPlaying, ReleaseDevice]

  /** The steps `stop` performs when none of them raises: close the session
      if there is one, then stop recording, stop playing and release the
      device if there is one. */
  function Planned(c: Chat): seq<Cleanup>
  {
    (if c.session then [CloseSession] else []) + (if c.device then DeviceCleanup else [])
  }

  /** The plan closes the session first and handles the device last, each
      only when it is held, and repeats no step. */
  lemma PlannedOrder(c: Chat)
    ensures CloseSession in Planned(c) <==> c.session
    ensures StopRecording in Planned(c) <==> c.device
    ensures StopPlaying in Planned(c) <==> c.device
    ensures ReleaseDevice in Planned(c) <==> c.device
    ensures forall i, j :: 0 <= i < j < |Planned(c)| ==> Planned(c)[i] != Planned(c)[j]
    ensures CloseSession in Planned(c) ==> Planned(c)[0] == CloseSession
    ensures c.device ==> |Planned(c)| >= 3 && Planned(c)[|Planned(c)| - 3..] == DeviceCleanup
    ensures |Planned(c)| <= 4
  {
    var p := Planned(c);
    if c.session && c.device {
      assert p == [CloseSession, StopRecording, StopPlaying, ReleaseDevice];
    } else if c.session {
      assert p == [CloseSession];
    } else if c.device {
      assert p == [StopRecording, StopPlaying, ReleaseDevice];
    } else {
      assert p == [];
    }
  }

  /** Position of a step within a list of steps. */
  function StepIndex(p: seq<Cleanup>, x: Cleanup): (i: nat)
    requires x in p
    ensures i < |p| && p[i] == x && x !in p[..i]
  {
    if p[0] == x then 0
    else
      var i := StepIndex(p[1..], x);
      assert p[..i + 1] == [p[0]] + p[1..][..i];
      i + 1
  }

  /** What `stop` did: the new state, the steps it attempted in order, and
      whether one of them raised out of `stop`. */
  datatype StopResult = StopResult(chat: Chat, steps: seq<Cleanup>, raised: bool)

  /** `stop`: clears `running`, then performs the planned steps one after
      another with no `try` around any of them. `fault` names the step that
      raises, if any; a fault on a step that is not performed has no effect.
      The raising step is the last one attempted, and the exception leaves
      `stop`. */
  function Stop(c: Chat, fault: Option<Cleanup>): (r: StopResult)
    ensures !r.chat.running && r.chat.device == c.device && r.chat.session == c.session
    ensures r.raised <==> fault.Some? && fault.value in Planned(c)
    ensures r.steps <= Planned(c)
    ensures !r.raised ==> r.steps == Planned(c)
    ensures r.raised ==> |r.steps| > 0 && r.steps[|r.steps| - 1] == fault.value
  {
    var (steps, raised) := Attempt(Planned(c), fault);
    StopResult(c.(running := false), steps, raised)
  }

  /** Performing `p` in order until the step `fault` raises. */
  function Attempt(p: seq<Cleanup>, fault: Option<Cleanup>): (r: (seq<Cleanup>, bool))
    ensures r.1 <==> fault.Some? && fault.value in p
    ensures r.0 <= p
    ensures !r.1 ==> r.0 == p
    ensures r.1 ==> |r.0| > 0 && r.0[|r.0| - 1] == fault.value
  {
    if fault.Some? && fault.value in p then
      var i := StepIndex(p, fault.value);
      var steps := p[..i + 1];
      assert steps[|steps| - 1] == fault.value;
      assert steps <= p;
      (steps, true)
    else (p, false)
  }

  /** A planned step that `stop` did not attempt comes after a step that
      raised: a close that raises leaves the device running, and a
      `stop_recording` that raises leaves playback on and the device held. */
  lemma RaisingStepCutsCleanup(c: Chat, fault: Option<Cleanup>, x: Cleanup)
    requires x in Planned(c) && x !in Stop(c, fault).steps
    ensures Stop(c, fault).raised
    ensures StepIndex(Planned(c), fault.value) < StepIndex(Planned(c), x)
  {
    var p, r := Planned(c), Stop(c, fault);
    PlannedOrder(c);
    assert r.raised by {
      assert !r.raised ==> x in r.steps;
    }
    PrefixCut(p, r.steps, x);
  }

  /** In a list without repeats, a prefix that misses `x` ends before `x`. */
  lemma PrefixCut(p: seq<Cleanup>, steps: seq<Cleanup>, x: Cleanup)
    requires forall i, j :: 0 <= i < j < |p| ==> p[i] != p[j]
    requires steps <= p && |steps| > 0
    requires x in p && x !in steps
    ensures steps[|steps| - 1] in p
    ensures StepIndex(p, steps[|steps| - 1]) < StepIndex(p, x)
  {
    var n := |steps|;
    assert steps == p[..n];
    assert forall m :: 0 <= m < n ==> steps[m] == p[m];
    var k := StepIndex(p, x);
    assert n <= k;
    var i := StepIndex(p, steps[n - 1]);
    assert p[i] == p[n - 1];
  }

  /** What `stop` plans after each outcome of `start`. */
  lemma PlannedAfterStart(setup: Setup)
    ensures setup == DeviceUnavailable ==> Planned(Start(setup)) == []
    ensures setup == SessionFailed ==> Planned(Start(setup)) == DeviceCleanup
    ensures setup == Connected ==> Planned(Start(setup)) == [CloseSession] + DeviceCleanup
  {
  }

  /** Every step but the close is a device step, and every step is planned
      for a connected chat. */
  lemma StepMembership(fault: Option<Cleanup>)
    ensures fault.Some? ==> (fault.value in DeviceCleanup <==> fault.value != CloseSession)
    ensures fault.Some? ==> fault.value in [CloseSession] + DeviceCleanup
  {
    if fault.Some? {
      match fault.value
      case CloseSession =>
      case StopRecording =>
      case StopPlaying =>
      case ReleaseDevice =>
    }
  }

  /** The outcome of `run`: whether the three loops were started, the
      cleanup its `finally` performed, and whether that cleanup raised. */
  datatype RunResult = RunResult(loopsStarted: bool, cleanup: seq<Cleanup>, final: Chat, raised: bool)

  /** `run`: start, run the loops only if start completed, and stop in every case. */
  function Run(setup: Setup, fault: Option<Cleanup>): (r: RunResult)
    ensures r.loopsStarted <==> setup == Connected
    ensures !r.final.running
    ensures setup == DeviceUnavailable ==> r.cleanup == [] && !r.raised
    ensures setup == SessionFailed ==> r.cleanup <= DeviceCleanup
    ensures setup == SessionFailed ==> (r.raised <==> fault.Some? && fault.value != CloseSession)
    ensures setup == Connected ==> r.cleanup <= [CloseSession] + DeviceCleanup
    ensures setup == Connected ==> (r.raised <==> fault.Some?)
    ensures !r.raised && setup == SessionFailed ==> r.cleanup == DeviceCleanup
    ensures !r.raised && setup == Connected ==> r.cleanup == [CloseSession] + DeviceCleanup
    ensures r.raised ==> |r.cleanup| > 0 && r.cleanup[|r.cleanup| - 1] == fault.value
  {
    var c := Start(setup);
    PlannedAfterStart(setup);
    StepMembership(fault);
    var s := Stop(c, fault);
    RunResult(c.running, s.steps, s.chat, s.raised)
  }
}
