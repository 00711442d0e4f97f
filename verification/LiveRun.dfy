/**
  The live-mode driver (llm_client/executor.py, `_run_live_mode`): ship one envelope per cell,
  drain replies until a correlated reply, a silence or a deadline, and file a verdict.

  The clock, the socket and the kernel are an environment: the n-th clock reading, the n-th
  receive and the n-th send have given outcomes.
 */
module LiveRun {
  import opened Common
  import opened Json

  type Snapshot = map<string, seq<Json>> // outputs by cell id

  /** A reply; an empty string stands for an absent field. */
  datatype Reply = Reply(
    msgType: string, snapshot: Option<Snapshot>,
    correlationId: string, requestId: string, payloadCorrelationId: string, payloadRequestId: string,
    kCode: string, cellId: string)

  datatype Received = Silence | Raised | Interrupt | Got(reply: Reply)

  /** `reach(d)` is a reading at which the clock has passed d. */
  datatype Env = Env(clock: nat -> real, recv: nat -> Received, sendOk: nat -> bool, reach: real -> nat)

  ghost predicate ValidEnv(env: Env) {
    && (forall i, j :: 0 <= i <= j ==> env.clock(i) <= env.clock(j))
    && (forall d :: env.clock(env.reach(d)) >= d)
  }

  datatype Params = Params(session: string, cellTimeout: real, window: real, totalTimeout: real)

  /** A cell record; `title` is what the section parser finds, if anything. */
  datatype Record = NotDict | Dict(kind: string, agentId: string, title: Option<string>)

  /** What a run is given: its environment and settings, the ordered cells, their records, the working state. */
  datatype Run = Run(env: Env, p: Params, ids: seq<string>, cells: map<string, Record>, rts: Snapshot)

  /** What was put in a list for a cell; `first` is the first receive of the silence. */
  datatype Cause =
    | TotalTimeout
    | NoOp
    | SendFailed
    | AfterSendFailure
    | RecvRaised
    | AfterRaise(outputs: seq<Json>)
    | Correlated(reply: Reply)
    | KCoded(reply: Reply)
    | CellTimeout
    | Quiet(first: nat, outputs: seq<Json>)

  datatype Verdict = Verdict(ordinal: nat, cause: Cause)

  /** Counters of the environment used so far, the working state, and the lists being built. */
  datatype Sim = Sim(tick: nat, recvs: nat, sends: nat, rts: Snapshot, succeeded: seq<Verdict>, failed: seq<Verdict>)

  /** The start of a silence: the first silent receive, and the reading taken after it. */
  datatype Silent = Silent(first: nat, since: real)

  datatype DrainEnd =
    | Answered(reply: Reply) | KCode(reply: Reply) | Lost | Still(first: nat) | Expired | Stopped

  datatype RunEnd = Finished | InterruptedAt(ordinal: nat) | InterruptedInTail

  // ---- one cell --------------------------------------------------------------------------------

  predicate HasDict(run: Run, k: nat)
    requires k < |run.ids|
  {
    run.ids[k] in run.cells && run.cells[run.ids[k]].Dict?
  }

  /** Which records ship an envelope. */
  predicate Ships(r: Record)
    requires r.Dict?
  {
    r.kind == "spawn" || (r.kind == "agent" && r.agentId != "") || (r.kind == "section" && r.title.Some?)
  }

  function RequestId(p: Params, ordinal: nat): string {
    p.session + ":" + Dec(ordinal)
  }

  /** The `or` chain: the first non-empty id. */
  function Correlation(r: Reply): string {
    if r.correlationId != "" then r.correlationId
    else if r.requestId != "" then r.requestId
    else if r.payloadCorrelationId != "" then r.payloadCorrelationId
    else r.payloadRequestId
  }

  function Absorb(rts: Snapshot, r: Reply): Snapshot {
    if r.msgType == "notebook.metadata" && r.snapshot.Some? then r.snapshot.value else rts
  }

  function OutputsOf(rts: Snapshot, id: string): seq<Json> {
    if id in rts then rts[id] else []
  }

  function Left(env: Env, deadline: real, tick: nat): nat {
    if tick < env.reach(deadline) then env.reach(deadline) - tick else 0
  }

  lemma NotYet(env: Env, deadline: real, tick: nat)
    requires ValidEnv(env) && env.clock(tick) < deadline
    ensures tick < env.reach(deadline)
  {
    assert env.clock(env.reach(deadline)) >= deadline;
  }

  /** A reply completes cell k by its correlation id, or by a K code for the cell. */
  function ReplyEnd(run: Run, k: nat, r: Reply): Option<DrainEnd>
    requires k < |run.ids|
  {
    if Correlation(r) == RequestId(run.p, k) then Some(Answered(r))
    else if r.kCode != "" && r.cellId == run.ids[k] then Some(KCode(r))
    else None
  }

  /** One turn of the drain loop: over, or on to the next turn with the silence seen so far. */
  datatype Turn = Over(s: Sim, end: DrainEnd) | Next(s: Sim, q: Option<Silent>)

  function DrainTurn(run: Run, k: nat, deadline: real, s: Sim, q: Option<Silent>): Turn
    requires k < |run.ids|
  {
    var env := run.env;
    var s1 := s.(tick := s.tick + 1, recvs := s.recvs + 1);
    if env.clock(s.tick) >= deadline then Over(s.(tick := s.tick + 1), Expired)
    else match env.recv(s.recvs)
      case Interrupt => Over(s1, Stopped)
      case Raised => Over(s1, Lost)
      case Silence =>
        var s2 := s1.(tick := s1.tick + 1);
        if q.None? then Next(s2, Some(Silent(s.recvs, env.clock(s1.tick))))
        else if env.clock(s1.tick) - q.value.since >= run.p.window then Over(s2, Still(q.value.first))
        else Next(s2, q)
      case Got(r) =>
        var s2 := s1.(rts := Absorb(s1.rts, r));
        var answer := ReplyEnd(run, k, r);
        if answer.Some? then Over(s2, answer.value) else Next(s2, None)
  }

  lemma TurnProgress(run: Run, k: nat, deadline: real, s: Sim, q: Option<Silent>)
    requires ValidEnv(run.env) && k < |run.ids| && DrainTurn(run, k, deadline, s, q).Next?
    ensures Left(run.env, deadline, DrainTurn(run, k, deadline, s, q).s.tick) < Left(run.env, deadline, s.tick)
  {
    NotYet(run.env, deadline, s.tick);
  }

  /** The drain loop of one cell. */
  function Drain(run: Run, k: nat, deadline: real, s: Sim, q: Option<Silent>): (Sim, DrainEnd)
    requires ValidEnv(run.env) && k < |run.ids|
    decreases Left(run.env, deadline, s.tick)
  {
    match DrainTurn(run, k, deadline, s, q)
    case Over(end, why) => (end, why)
    case Next(next, silence) =>
      TurnProgress(run, k, deadline, s, q);
      Drain(run, k, deadline, next, silence)
  }

  /** What the loop files on its way out. */
  function FileInLoop(s: Sim, k: nat, end: DrainEnd): Sim {
    match end
    case Answered(r) =>
      if r.kCode != "" then s.(failed := s.failed + [Verdict(k, Correlated(r))])
      else s.(succeeded := s.succeeded + [Verdict(k, Correlated(r))])
    case KCode(r) => s.(failed := s.failed + [Verdict(k, KCoded(r))])
    case Lost => s.(failed := s.failed + [Verdict(k, RecvRaised)])
    case _ => s
  }

  /** What is filed after the loop: a timeout, or a success whenever no reply completed the cell. */
  function FileAfterLoop(s: Sim, id: string, k: nat, end: DrainEnd): Sim {
    match end
    case Expired => s.(failed := s.failed + [Verdict(k, CellTimeout)])
    case Still(first) => s.(succeeded := s.succeeded + [Verdict(k, Quiet(first, OutputsOf(s.rts, id)))])
    case Lost => s.(succeeded := s.succeeded + [Verdict(k, AfterRaise(OutputsOf(s.rts, id)))])
    case _ => s
  }

  function FailRest(vs: seq<Verdict>, from: nat, n: nat): seq<Verdict>
    decreases n - from
  {
    if from >= n then vs else FailRest(vs + [Verdict(from, AfterSendFailure)], from + 1, n)
  }

  /** One turn of the cell loop. */
  datatype CellTurn = Stop(s: Sim, end: RunEnd) | Go(s: Sim)

  /** The state in which the drain of a cell starts: two readings were taken and the envelope was sent. */
  function DrainStart(s: Sim): Sim {
    s.(tick := s.tick + 2, sends := s.sends + 1)
  }

  function CellDeadline(run: Run, s: Sim): real {
    run.env.clock(s.tick + 1) + run.p.cellTimeout
  }

  function DrainCellOf(run: Run, k: nat, s: Sim): (Sim, DrainEnd)
    requires ValidEnv(run.env) && k < |run.ids|
  {
    Drain(run, k, CellDeadline(run, s), DrainStart(s), None)
  }

  /** Ship cell k and drain its replies; a failed send fails every later cell too. */
  function ShipCell(run: Run, k: nat, s: Sim): CellTurn
    requires ValidEnv(run.env) && k < |run.ids|
  {
    if !run.env.sendOk(s.sends) then
      var lost := s.failed + [Verdict(k, SendFailed)];
      Stop(s.(tick := s.tick + 1, sends := s.sends + 1, failed := FailRest(lost, k + 1, |run.ids|)), Finished)
    else
      var d := DrainCellOf(run, k, s);
      if d.1 == Stopped then Stop(d.0, InterruptedAt(k))
      else Go(FileAfterLoop(FileInLoop(d.0, k, d.1), run.ids[k], k, d.1))
  }

  function RunDeadline(run: Run): real {
    run.env.clock(0) + run.p.totalTimeout
  }

  function RunCell(run: Run, k: nat, s: Sim): CellTurn
    requires ValidEnv(run.env) && k < |run.ids|
  {
    var s1 := s.(tick := s.tick + 1);
    if run.env.clock(s.tick) > RunDeadline(run) then Go(s1.(failed := s1.failed + [Verdict(k, TotalTimeout)]))
    else if !HasDict(run, k) then Go(s1)
    else if !Ships(run.cells[run.ids[k]]) then Go(s1.(succeeded := s1.succeeded + [Verdict(k, NoOp)]))
    else ShipCell(run, k, s)
  }

  /** The cell loop from cell k on. */
  function RunFrom(run: Run, k: nat, s: Sim): CellTurn
    requires ValidEnv(run.env) && k <= |run.ids|
    decreases |run.ids| - k
  {
    if k == |run.ids| then Go(s)
    else match RunCell(run, k, s)
      case Stop(end, why) => Stop(end, why)
      case Go(next) => RunFrom(run, k + 1, next)
  }

  /** The trailing drain: only snapshots matter; an interrupt escapes. */
  function TailDrain(env: Env, deadline: real, s: Sim): (Sim, RunEnd)
    requires ValidEnv(env)
    decreases Left(env, deadline, s.tick)
  {
    if env.clock(s.tick) >= deadline then (s.(tick := s.tick + 1), Finished)
    else
      NotYet(env, deadline, s.tick);
      var s1 := s.(tick := s.tick + 1, recvs := s.recvs + 1);
      match env.recv(s.recvs)
      case Silence => TailDrain(env, deadline, s1)
      case Got(r) => TailDrain(env, deadline, s1.(rts := Absorb(s1.rts, r)))
      case Raised => (s1, Finished)
      case Interrupt => (s1, InterruptedInTail)
  }

  function Begin(run: Run): Sim {
    Sim(1, 0, 0, run.rts, [], [])
  }

  function Tail(run: Run, s: Sim): (Sim, RunEnd)
    requires ValidEnv(run.env)
  {
    TailDrain(run.env, run.env.clock(s.tick) + run.p.window, s.(tick := s.tick + 1))
  }

  /** A whole run once the hydrate envelope has been sent. */
  function Outcome(run: Run): (Sim, RunEnd)
    requires ValidEnv(run.env)
  {
    match RunFrom(run, 0, Begin(run))
    case Stop(s, InterruptedAt(k)) => (s, InterruptedAt(k))
    case Stop(s, _) => Tail(run, s)
    case Go(s) => Tail(run, s)
  }

  // ---- the loops ---------------------------------------------------------------------------------

  function Filed(turn: Turn, k: nat): Turn {
    if turn.Over? then Over(FileInLoop(turn.s, k, turn.end), turn.end) else turn
  }

  method DrainCell(run: Run, k: nat, deadline: real, start: Sim) returns (s: Sim, end: DrainEnd)
    requires ValidEnv(run.env) && k < |run.ids|
    ensures var d := Drain(run, k, deadline, start, None); end == d.1 && s == FileInLoop(d.0, k, end)
  {
    s := start;
    var quiescence: Option<Silent> := None;
    while run.env.clock(s.tick) < deadline
      invariant Drain(run, k, deadline, s, quiescence) == Drain(run, k, deadline, start, None)
      decreases Left(run.env, deadline, s.tick)
    {
      NotYet(run.env, deadline, s.tick);
      var turn := DrainOnce(run, k, deadline, s, quiescence);
      if turn.Over? {
        return turn.s, turn.end;
      }
      s, quiescence := turn.s, turn.q;
    }
    s, end := s.(tick := s.tick + 1), Expired;
  }

  /** The body of the drain loop. */
  method DrainOnce(run: Run, k: nat, deadline: real, before: Sim, q: Option<Silent>) returns (turn: Turn)
    requires k < |run.ids| && run.env.clock(before.tick) < deadline
    ensures turn == Filed(DrainTurn(run, k, deadline, before, q), k)
  {
    var s, index := before.(tick := before.tick + 1, recvs := before.recvs + 1), before.recvs;
    match run.env.recv(index) {
      case Interrupt =>
        return Over(s, Stopped);
      case Raised =>
        s := s.(failed := s.failed + [Verdict(k, RecvRaised)]);
        return Over(s, Lost);
      case Silence =>
        var t := run.env.clock(s.tick);
        s := s.(tick := s.tick + 1);
        if q.None? {
          return Next(s, Some(Silent(index, t)));
        }
        if t - q.value.since >= run.p.window {
          return Over(s, Still(q.value.first));
        }
        return Next(s, q);
      case Got(reply) =>
        s := s.(rts := Absorb(s.rts, reply));
        var answer;
        s, answer := OnReply(run, k, s, reply);
        if answer.Some? {
          return Over(s, answer.value);
        }
        return Next(s, None);
    }
  }

  /** Does the reply complete the cell?  If so it is filed. */
  method OnReply(run: Run, k: nat, before: Sim, reply: Reply) returns (s: Sim, answer: Option<DrainEnd>)
    requires k < |run.ids|
    ensures answer == ReplyEnd(run, k, reply)
    ensures s == if answer.Some? then FileInLoop(before, k, answer.value) else before
  {
    s := before;
    if Correlation(reply) == RequestId(run.p, k) {
      if reply.kCode != "" {
        s := s.(failed := s.failed + [Verdict(k, Correlated(reply))]);
      } else {
        s := s.(succeeded := s.succeeded + [Verdict(k, Correlated(reply))]);
      }
      return s, Some(Answered(reply));
    }
    if reply.kCode != "" && reply.cellId == run.ids[k] {
      s := s.(failed := s.failed + [Verdict(k, KCoded(reply))]);
      return s, Some(KCode(reply));
    }
    return s, None;
  }

  method DrainTail(env: Env, deadline: real, start: Sim) returns (s: Sim, end: RunEnd)
    requires ValidEnv(env)
    ensures (s, end) == TailDrain(env, deadline, start)
  {
    s := start;
    while env.clock(s.tick) < deadline
      invariant TailDrain(env, deadline, s) == TailDrain(env, deadline, start)
      decreases Left(env, deadline, s.tick)
    {
      NotYet(env, deadline, s.tick);
      var received := env.recv(s.recvs);
      s := s.(tick := s.tick + 1, recvs := s.recvs + 1);
      if received.Interrupt? {
        return s, InterruptedInTail;
      }
      if received.Raised? {
        return s, Finished;
      }
      if received.Got? {
        s := s.(rts := Absorb(s.rts, received.reply));
      }
    }
    s, end := s.(tick := s.tick + 1), Finished;
  }

  method FailRemaining(start: seq<Verdict>, from: nat, n: nat) returns (failed: seq<Verdict>)
    requires from <= n
    ensures failed == FailRest(start, from, n)
  {
    failed := start;
    for r := from to n
      invariant FailRest(failed, r, n) == FailRest(start, from, n)
    {
      failed := failed + [Verdict(r, AfterSendFailure)];
    }
  }

  method ShipAndDrain(run: Run, k: nat, start: Sim) returns (turn: CellTurn)
    requires ValidEnv(run.env) && k < |run.ids|
    ensures turn == ShipCell(run, k, start)
  {
    var s := start.(tick := start.tick + 1, sends := start.sends + 1);
    if !run.env.sendOk(start.sends) {
      var failed := FailRemaining(s.failed + [Verdict(k, SendFailed)], k + 1, |run.ids|);
      return Stop(s.(failed := failed), Finished);
    }
    turn := DrainShipped(run, k, s);
  }

  /** What follows a send that went out. */
  method DrainShipped(run: Run, k: nat, shipped: Sim) returns (turn: CellTurn)
    requires ValidEnv(run.env) && k < |run.ids|
    ensures var deadline := run.env.clock(shipped.tick) + run.p.cellTimeout;
      var d := Drain(run, k, deadline, shipped.(tick := shipped.tick + 1), None);
      turn == if d.1 == Stopped then Stop(d.0, InterruptedAt(k))
              else Go(FileAfterLoop(FileInLoop(d.0, k, d.1), run.ids[k], k, d.1))
  {
    var deadline := run.env.clock(shipped.tick) + run.p.cellTimeout;
    var s, end := DrainCell(run, k, deadline, shipped.(tick := shipped.tick + 1));
    if end == Stopped {
      return Stop(s, InterruptedAt(k));
    }
    return Go(FileAfterLoop(s, run.ids[k], k, end));
  }

  method RunCells(run: Run, start: Sim) returns (turn: CellTurn)
    requires ValidEnv(run.env)
    ensures turn == RunFrom(run, 0, start)
  {
    var s := start;
    var runDeadline := run.env.clock(0) + run.p.totalTimeout;
    for ordinal := 0 to |run.ids|
      invariant RunFrom(run, ordinal, s) == RunFrom(run, 0, start)
    {
      var id := run.ids[ordinal];
      if run.env.clock(s.tick) > runDeadline {
        s := s.(tick := s.tick + 1, failed := s.failed + [Verdict(ordinal, TotalTimeout)]);
      } else if id !in run.cells || run.cells[id].NotDict? {
        s := s.(tick := s.tick + 1);
      } else if !Ships(run.cells[id]) {
        s := s.(tick := s.tick + 1, succeeded := s.succeeded + [Verdict(ordinal, NoOp)]);
      } else {
        turn := ShipAndDrain(run, ordinal, s);
        if turn.Stop? {
          return;
        }
        s := turn.s;
      }
    }
    turn := Go(s);
  }

  method RunLive(run: Run) returns (s: Sim, end: RunEnd)
    requires ValidEnv(run.env)
    ensures (s, end) == Outcome(run)
  {
    var turn := RunCells(run, Begin(run));
    s := turn.s;
    if turn.Stop? && turn.end.InterruptedAt? {
      return s, turn.end;
    }
    s, end := DrainTail(run.env, run.env.clock(s.tick) + run.p.window, s.(tick := s.tick + 1));
  }
}
