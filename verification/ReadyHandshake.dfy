/**
  The kernel's ready handshake (extension/src/notebook/pty-kernel-client.ts): one spawn, one
  verdict, whatever the order of start calls, records, timeouts, exits and socket ends.
 */
module ReadyHandshake {
  import opened Common
  import opened Text

  datatype Promise = Absent | Pending | Resolved | Rejected

  /** Where `start` stands: never called, awaiting the listening socket, or past it. */
  datatype Phase = Idle | Listening | Launched

  datatype Severity = Major | Minor | Unknown
  datatype Drift = Drift(attribute: string, expected: string, observed: string, severity: Severity)

  datatype State = State(
    promise: Promise,
    settler: bool, // readyResolve and readyReject are set
    isReady: bool,
    phase: Phase,
    spawned: nat,
    ptyAlive: bool,
    timer: bool,
    disposed: bool,
    drift: seq<Drift>,
    settled: nat, // calls of resolve or reject
    terms: nat)   // kernels terminated by the ready timer while ready

  datatype Step =
    | Start
    | Listened(spawnOk: bool)
    | ListenFailed
    | LogRecord(eventName: string, attrs: map<string, string>)
    | TimerFires
    | PtyExit
    | SocketEnd
    | Shutdown

  const INITIAL := State(Absent, false, false, Idle, 0, false, false, false, [], 0, 0)

  const READY := "kernel.ready"
  const RFC_VERSIONS: seq<(string, string)> := [
    ("rfc_005_version", "1.0.0"), ("rfc_006_version", "2.0.0"),
    ("rfc_007_version", "1.0.0"), ("rfc_008_version", "1.0.0")]

  // ---- version drift -----------------------------------------------------------------------

  /** `split('.')` read by pattern: a missing part is undefined. */
  function Part(v: string, i: nat): Option<string> {
    var ps := Split(v, '.');
    if i < |ps| then Some(ps[i]) else None
  }

  function CompareVersions(expected: string, observed: string): Option<Severity> {
    if expected == observed then None
    else if Part(expected, 0) == Some("") || Part(observed, 0) == Some("") then Some(Unknown)
    else if Part(expected, 0) != Part(observed, 0) then Some(Major)
    else if Part(expected, 1) != Part(observed, 1) then Some(Minor)
    else Some(Unknown)
  }

  function DriftsFrom(table: seq<(string, string)>, attrs: map<string, string>): seq<Drift> {
    if table == [] then []
    else
      var (key, expected) := ("llmnb.kernel." + table[0].0, table[0].1);
      (if key in attrs && attrs[key] != "" && CompareVersions(expected, attrs[key]).Some?
       then [Drift(key, expected, attrs[key], CompareVersions(expected, attrs[key]).value)] else [])
      + DriftsFrom(table[1..], attrs)
  }

  /** A drift event is recorded for exactly the attributes that are present, non-empty and different. */
  lemma {:induction false} DriftExactly(table: seq<(string, string)>, attrs: map<string, string>, d: Drift)
    ensures d in DriftsFrom(table, attrs) <==>
      exists i :: 0 <= i < |table| && d.attribute == "llmnb.kernel." + table[i].0 && d.expected == table[i].1
        && d.attribute in attrs && attrs[d.attribute] == d.observed && d.observed != "" && d.observed != d.expected
        && CompareVersions(d.expected, d.observed) == Some(d.severity)
  {
    if table != [] {
      DriftExactly(table[1..], attrs, d);
      var here := DriftsFrom(table, attrs)[..|DriftsFrom(table, attrs)| - |DriftsFrom(table[1..], attrs)|];
      assert DriftsFrom(table, attrs) == here + DriftsFrom(table[1..], attrs);
      assert forall i :: 0 < i < |table| ==> table[i] == table[1..][i - 1];
      assert forall i :: 0 <= i < |table| - 1 ==> table[1..][i] == table[i + 1];
    }
  }

  /** On versions of three parts: a difference in the first part is major, in the second minor, further on unknown. */
  lemma SeverityExactly(a: string, b: string, c: string, x: string, y: string, z: string)
    requires forall p <- [a, b, c, x, y, z] :: '.' !in p
    requires a != "" && x != ""
    ensures CompareVersions(Join([a, b, c], '.'), Join([x, y, z], '.'))
         == if a != x then Some(Major) else if b != y then Some(Minor) else if c != z then Some(Unknown) else None
  {
    var v, w := [a, b, c], [x, y, z];
    forall p | p in v || p in w ensures '.' !in p {
      assert p in [a, b, c, x, y, z];
    }
    SplitJoin(v, '.');
    SplitJoin(w, '.');
    assert v == w <==> a == x && b == y && c == z;
  }

  // ---- the steps -----------------------------------------------------------------------------

  function CompleteReady(s: State): State {
    var t := s.(timer := false, isReady := true);
    if s.settler then t.(promise := Resolved, settler := false, settled := s.settled + 1) else t
  }

  function FailReady(s: State): State {
    var t := s.(timer := false);
    if s.settler then t.(promise := Rejected, settler := false, settled := s.settled + 1) else t
  }

  function Enabled(s: State, step: Step): bool {
    match step
    case Listened(_) => s.phase == Listening
    case ListenFailed => s.phase == Listening
    case TimerFires => s.timer
    case PtyExit => s.ptyAlive
    case _ => true
  }

  function Apply(s: State, step: Step): State
    requires Enabled(s, step)
  {
    match step
    case Start =>
      if s.promise != Absent then s else s.(promise := Pending, settler := true, phase := Listening)
    case Listened(spawnOk) =>
      if spawnOk then s.(phase := Launched, spawned := s.spawned + 1, ptyAlive := true, timer := true)
      else FailReady(s.(phase := Launched))
    case ListenFailed => FailReady(s.(phase := Launched))
    case LogRecord(name, attrs) =>
      if name == READY && s.settler then CompleteReady(s.(drift := s.drift + DriftsFrom(RFC_VERSIONS, attrs))) else s
    case TimerFires =>
      FailReady(s).(terms := s.terms + if s.isReady && s.ptyAlive then 1 else 0)
    case PtyExit => (if s.settler then FailReady(s) else s).(ptyAlive := false, timer := false)
    case SocketEnd => if s.settler then FailReady(s) else s
    case Shutdown => if s.disposed then s else s.(disposed := true, timer := false)
  }

  class KernelClient {
    var promise: Promise
    var settler: bool
    var isReady: bool
    var phase: Phase
    var spawned: nat
    var ptyAlive: bool
    var timer: bool
    var disposed: bool
    var driftEvents: seq<Drift>
    var settled: nat
    var terms: nat

    ghost function View(): State
      reads this
    {
      State(promise, settler, isReady, phase, spawned, ptyAlive, timer, disposed, driftEvents, settled, terms)
    }

    constructor ()
      ensures View() == INITIAL
    {
      promise, settler, isReady, phase, spawned, ptyAlive := Absent, false, false, Idle, 0, false;
      timer, disposed, driftEvents, settled, terms := false, false, [], 0, 0;
    }

    method BeginStart()
      modifies this
      ensures View() == Apply(old(View()), Start)
    {
      if promise != Absent {
        return;
      }
      promise, settler, phase := Pending, true, Listening;
    }

    /** `start` after `listenSocket` resolved: spawn the kernel and arm the timer, or fail. */
    method Launch(spawnOk: bool)
      requires Enabled(View(), Listened(spawnOk))
      modifies this
      ensures View() == Apply(old(View()), Listened(spawnOk))
    {
      phase := Launched;
      if spawnOk {
        spawned, ptyAlive, timer := spawned + 1, true, true;
      } else {
        Fail();
      }
    }

    method OnListenError()
      requires Enabled(View(), ListenFailed)
      modifies this
      ensures View() == Apply(old(View()), ListenFailed)
    {
      phase := Launched;
      Fail();
    }

    method Fail()
      modifies this
      ensures View() == FailReady(old(View()))
    {
      timer := false;
      if settler {
        settler, promise, settled := false, Rejected, settled + 1;
      }
    }

    method Complete()
      modifies this
      ensures View() == CompleteReady(old(View()))
    {
      timer, isReady := false, true;
      if settler {
        settler, promise, settled := false, Resolved, settled + 1;
      }
    }

    /** The version loop of `handleReadyRecord`. */
    method RecordDrifts(table: seq<(string, string)>, attrs: map<string, string>)
      modifies this`driftEvents
      ensures driftEvents == old(driftEvents) + DriftsFrom(table, attrs)
    {
      assert table[0..] == table;
      for i := 0 to |table|
        invariant driftEvents + DriftsFrom(table[i..], attrs) == old(driftEvents) + DriftsFrom(table, attrs)
      {
        var (shortKey, expected) := table[i];
        assert table[i..][1..] == table[i + 1..];
        var key := "llmnb.kernel." + shortKey;
        if key in attrs && attrs[key] != "" {
          var severity := CompareVersions(expected, attrs[key]);
          if severity.Some? {
            driftEvents := driftEvents + [Drift(key, expected, attrs[key], severity.value)];
          }
        }
      }
    }

    /** `routeLogRecord` and, for the ready record, `handleReadyRecord`. */
    method RouteLogRecord(name: string, attrs: map<string, string>)
      modifies this
      ensures View() == Apply(old(View()), LogRecord(name, attrs))
    {
      if name == READY && settler {
        RecordDrifts(RFC_VERSIONS, attrs);
        Complete();
      }
    }

    method OnTimer()
      requires Enabled(View(), TimerFires)
      modifies this
      ensures View() == Apply(old(View()), TimerFires)
    {
      Fail();
      if isReady && ptyAlive {
        terms := terms + 1;
      }
    }

    method OnPtyExit()
      requires Enabled(View(), PtyExit)
      modifies this
      ensures View() == Apply(old(View()), PtyExit)
    {
      if settler {
        Fail();
      }
      ptyAlive, timer := false, false;
    }

    method OnSocketEnd()
      modifies this
      ensures View() == Apply(old(View()), SocketEnd)
    {
      if settler {
        Fail();
      }
    }

    method BeginShutdown()
      modifies this
      ensures View() == Apply(old(View()), Shutdown)
    {
      if disposed {
        return;
      }
      disposed, timer := true, false;
    }
  }

  // ---- every run -----------------------------------------------------------------------------

  ghost predicate IsRun(s: State, steps: seq<Step>, t: State)
    decreases |steps|
  {
    if steps == [] then s == t else Enabled(s, steps[0]) && IsRun(Apply(s, steps[0]), steps[1..], t)
  }

  predicate Inv(s: State) {
    && (s.settler <==> s.promise == Pending)
    && (s.isReady <==> s.promise == Resolved)
    && s.settled == (if s.promise == Resolved || s.promise == Rejected then 1 else 0)
    && (s.phase == Idle <==> s.promise == Absent)
    && (s.phase != Launched ==> s.spawned == 0) && s.spawned <= 1
    && (s.timer || s.ptyAlive ==> s.spawned == 1) && (s.timer ==> s.ptyAlive)
    && (s.drift != [] ==> s.promise == Resolved)
  }

  lemma {:induction false} RunKeepsInv(s: State, steps: seq<Step>, t: State)
    requires Inv(s) && IsRun(s, steps, t)
    ensures Inv(t)
    decreases |steps|
  {
    if steps != [] {
      RunKeepsInv(Apply(s, steps[0]), steps[1..], t);
    }
  }

  /** At most one kernel, at most one verdict, and ready means resolved, in every reachable state. */
  lemma OneKernelOneVerdict(steps: seq<Step>, t: State)
    requires IsRun(INITIAL, steps, t)
    ensures t.spawned <= 1 && t.settled <= 1
    ensures t.isReady <==> t.promise == Resolved
    ensures t.settled == 1 <==> t.promise == Resolved || t.promise == Rejected
  {
    RunKeepsInv(INITIAL, steps, t);
  }

  /** What a step means for the promise, told by the step alone: the first call of `start` makes it, a ready record
      resolves it, and anything that goes wrong first rejects it. */
  function NextPromise(p: Promise, step: Step): Promise {
    match p
    case Absent => if step == Start then Pending else Absent
    case Pending =>
      if step.LogRecord? && step.eventName == "kernel.ready" then Resolved
      else if step in {Listened(false), ListenFailed, TimerFires, PtyExit, SocketEnd} then Rejected
      else Pending
    case _ => p
  }

  function PromiseAfter(p: Promise, steps: seq<Step>): Promise
    decreases |steps|
  {
    if steps == [] then p else PromiseAfter(NextPromise(p, steps[0]), steps[1..])
  }

  /** In every run the verdict is the one that the steps tell: the first of them that decides, decides. */
  lemma {:induction false} VerdictExactly(s: State, steps: seq<Step>, t: State)
    requires Inv(s) && IsRun(s, steps, t)
    ensures t.promise == PromiseAfter(s.promise, steps)
    decreases |steps|
  {
    if steps != [] {
      NextVerdict(s, steps[0]);
      VerdictExactly(Apply(s, steps[0]), steps[1..], t);
    }
  }

  lemma NextVerdict(s: State, step: Step)
    requires Inv(s) && Enabled(s, step)
    ensures Inv(Apply(s, step)) && Apply(s, step).promise == NextPromise(s.promise, step)
  {
  }

  /** The ready timer runs from the spawn to the verdict, unless it fires, the kernel exits or the client is shut down
      before. */
  lemma TimerExactly(s: State, step: Step)
    requires Inv(s) && Enabled(s, step)
    ensures var t := Apply(s, step);
      t.timer <==> step == Listened(true)
                   || (s.timer && t.promise == s.promise && step != TimerFires && step != PtyExit
                       && (step == Shutdown ==> s.disposed))
  {
  }

  /** A verdict is final: whatever follows, neither readiness nor the drift events change. */
  lemma {:induction false} VerdictIsFinal(s: State, steps: seq<Step>, t: State)
    requires Inv(s) && (s.promise == Resolved || s.promise == Rejected) && IsRun(s, steps, t)
    ensures t.promise == s.promise && t.isReady == s.isReady && t.drift == s.drift && t.settled == s.settled
    decreases |steps|
  {
    if steps != [] {
      VerdictIsFinal(Apply(s, steps[0]), steps[1..], t);
    }
  }

  predicate IsReadyRecord(step: Step) {
    step.LogRecord? && step.eventName == READY
  }

  // ---- the ready timer on a ready kernel ---------------------------------------------------------

  predicate Armed(s: State) {
    s.isReady && s.timer
  }

  /** At some point of the run the timer is armed although the kernel is ready. */
  ghost predicate EverArmed(s: State, steps: seq<Step>)
    decreases |steps|
  {
    Armed(s) || (steps != [] && Enabled(s, steps[0]) && EverArmed(Apply(s, steps[0]), steps[1..]))
  }

  predicate EarlyRecord(s: State, step: Step) {
    IsReadyRecord(step) && s.phase == Listening && s.settler
  }

  /** A ready record is accepted between listening and spawning, and the kernel is spawned later. */
  ghost predicate EarlyThenLaunched(s: State, steps: seq<Step>)
    decreases |steps|
  {
    steps != [] &&
    (if EarlyRecord(s, steps[0]) then Listened(true) in steps[1..]
     else Enabled(s, steps[0]) && EarlyThenLaunched(Apply(s, steps[0]), steps[1..]))
  }

  /** Past listening nothing arms the timer, and nothing is launched again. */
  lemma {:induction false} NeverArmedAgain(s: State, steps: seq<Step>, t: State)
    requires Inv(s) && s.phase == Launched && IsRun(s, steps, t) && !Armed(s)
    ensures !EverArmed(s, steps) && !EarlyThenLaunched(s, steps) && Listened(true) !in steps && t.terms == s.terms
    decreases |steps|
  {
    if steps != [] {
      NeverArmedAgain(Apply(s, steps[0]), steps[1..], t);
      assert steps == [steps[0]] + steps[1..];
    }
  }

  /** Ready while still listening: the launch, if it comes, arms the timer. */
  lemma {:induction false} ReadyTooEarly(s: State, steps: seq<Step>, t: State)
    requires Inv(s) && s.phase == Listening && s.isReady && !s.timer && IsRun(s, steps, t)
    ensures EverArmed(s, steps) <==> Listened(true) in steps
    ensures !EverArmed(s, steps) ==> t.terms == s.terms
    decreases |steps|
  {
    if steps != [] {
      var next := Apply(s, steps[0]);
      assert steps == [steps[0]] + steps[1..];
      if steps[0] == Listened(true) {
        assert Armed(next);
      } else if next.phase == Launched {
        NeverArmedAgain(next, steps[1..], t);
      } else {
        ReadyTooEarly(next, steps[1..], t);
      }
    }
  }

  lemma {:induction false} ArmedFrom(s: State, steps: seq<Step>, t: State)
    requires Inv(s) && IsRun(s, steps, t)
    requires (s.phase == Launched ==> !Armed(s)) && (s.phase == Listening ==> !s.isReady)
    ensures EverArmed(s, steps) <==> EarlyThenLaunched(s, steps)
    ensures !EverArmed(s, steps) ==> t.terms == s.terms
    decreases |steps|
  {
    if s.phase == Launched {
      NeverArmedAgain(s, steps, t);
    } else if steps != [] {
      var next := Apply(s, steps[0]);
      if EarlyRecord(s, steps[0]) {
        ReadyTooEarly(next, steps[1..], t);
      } else {
        ArmedFrom(next, steps[1..], t);
      }
    }
  }

  /** In every run: the timer is armed on a ready kernel if and only if a ready record was accepted between listening
      and spawning and the kernel was spawned after it; otherwise the timer terminates no ready kernel. */
  lemma TimerSparesReadyKernel(steps: seq<Step>, t: State)
    requires IsRun(INITIAL, steps, t)
    ensures EverArmed(INITIAL, steps) <==> EarlyThenLaunched(INITIAL, steps)
    ensures t.terms > 0 ==> EarlyThenLaunched(INITIAL, steps)
  {
    ArmedFrom(INITIAL, steps, t);
  }

  /** And a timer armed on a ready kernel terminates it when it fires. */
  lemma ArmedTimerKills(steps: seq<Step>, t: State)
    requires IsRun(INITIAL, steps, t) && Armed(t)
    ensures Enabled(t, TimerFires) && Apply(t, TimerFires).terms == t.terms + 1
  {
    RunKeepsInv(INITIAL, steps, t);
  }

  /** One such run. */
  lemma EarlyRecordKillsKernel()
    ensures var steps := [Start, LogRecord(READY, map[]), Listened(true), TimerFires];
      exists t :: IsRun(INITIAL, steps, t) && t.isReady && t.terms == 1
  {
    var s1 := Apply(INITIAL, Start);
    var s2 := Apply(s1, LogRecord(READY, map[]));
    var s3 := Apply(s2, Listened(true));
    var s4 := Apply(s3, TimerFires);
    var steps := [Start, LogRecord(READY, map[]), Listened(true), TimerFires];
    assert IsRun(s4, [], s4);
    assert [TimerFires][1..] == [] && IsRun(s3, [TimerFires], s4);
    assert [Listened(true), TimerFires][1..] == [TimerFires] && IsRun(s2, [Listened(true), TimerFires], s4);
    assert steps[1..][1..] == [Listened(true), TimerFires] && IsRun(s1, steps[1..], s4);
    assert IsRun(INITIAL, steps, s4);
  }
}
