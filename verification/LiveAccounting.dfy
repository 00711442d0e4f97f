/** Accounting theorems about live runs: how many verdicts each cell gets, told by the environment. */
module LiveAccounting {
  import opened LiveRun
  import opened LiveCells
  import opened LiveReasons

  function Count(vs: seq<Verdict>, k: nat): nat {
    if vs == [] then 0 else Count(vs[..|vs| - 1], k) + if vs[|vs| - 1].ordinal == k then 1 else 0
  }

  lemma CountAppend(vs: seq<Verdict>, v: Verdict, k: nat)
    ensures Count(vs + [v], k) == Count(vs, k) + if v.ordinal == k then 1 else 0
  {
    assert (vs + [v])[..|vs|] == vs;
  }

  /** The entries of both lists for cell k. */
  function Verdicts(s: Sim, k: nat): nat {
    Count(s.succeeded, k) + Count(s.failed, k)
  }

  function Total(s: Sim): nat {
    |s.succeeded| + |s.failed|
  }

  // ---- what the environment says -------------------------------------------------------------------

  /** A receive of cell k's turn, between the state before it and the state after it. */
  ghost predicate InTurn(run: Run, k: nat, r: nat)
    requires Reached(run, k)
  {
    Before(run, k).recvs <= r < After(run, k).recvs
  }

  ghost predicate Raises(run: Run, k: nat) {
    Reached(run, k) && exists r :: InTurn(run, k, r) && run.env.recv(r) == Raised
  }

  ghost predicate Interrupted(run: Run, k: nat) {
    Reached(run, k) && exists r :: InTurn(run, k, r) && run.env.recv(r) == Interrupt
  }

  /** The loop passed over cell k: in time, but its record is no dictionary. */
  ghost predicate Skipped(run: Run, k: nat) {
    Reached(run, k) && !Overdue(run, k) && !HasDict(run, k)
  }

  ghost predicate LostBefore(run: Run, k: nat) {
    exists j :: 0 <= j < k && SendLost(run, j)
  }

  /** The number of verdicts owed to cell k. */
  ghost function Owed(run: Run, k: nat): nat {
    if LostBefore(run, k) then 1
    else if !Reached(run, k) || Skipped(run, k) || Interrupted(run, k) then 0
    else if Raises(run, k) then 2
    else 1
  }

  // ---- one cell ------------------------------------------------------------------------------------

  /** The only receive of a turn that can raise or be an interrupt is the last, and it tells how the drain ended. */
  lemma OnlyLast(run: Run, k: nat, r: nat)
    requires Due(run, k) && run.env.sendOk(Before(run, k).sends) && InTurn(run, k, r)
    requires run.env.recv(r) == Raised || run.env.recv(r) == Interrupt
    ensures r == After(run, k).recvs - 1 && EndsBy(run, k, run.env.recv(r), DrainCellOf(run, k, Before(run, k)).1)
  {
    ShippedEnds(run, k);
    var b, end := Before(run, k), DrainCellOf(run, k, Before(run, k)).1;
    DecidingReceive(run, k, CellDeadline(run, b), DrainStart(b), After(run, k).recvs, end, r);
  }

  lemma LastOf(run: Run, k: nat)
    requires Due(run, k) && run.env.sendOk(Before(run, k).sends)
    requires var end := DrainCellOf(run, k, Before(run, k)).1; end == Lost || end == Stopped
    ensures var last := After(run, k).recvs - 1;
      && last >= 0 && InTurn(run, k, last)
      && run.env.recv(last) == if DrainCellOf(run, k, Before(run, k)).1 == Lost then Raised else Interrupt
  {
    ShippedEnds(run, k);
  }

  lemma TurnEnds(run: Run, k: nat)
    requires Due(run, k) && run.env.sendOk(Before(run, k).sends)
    ensures var end := DrainCellOf(run, k, Before(run, k)).1;
      && (Raises(run, k) <==> end == Lost)
      && (Interrupted(run, k) <==> end == Stopped)
  {
    if Raises(run, k) {
      var r :| InTurn(run, k, r) && run.env.recv(r) == Raised;
      OnlyLast(run, k, r);
    }
    if Interrupted(run, k) {
      var r :| InTurn(run, k, r) && run.env.recv(r) == Interrupt;
      OnlyLast(run, k, r);
    }
    var end := DrainCellOf(run, k, Before(run, k)).1;
    if end == Lost || end == Stopped {
      LastOf(run, k);
    }
  }

  /** The drain of a shipped cell ends with an answer exactly when a receive of its turn answers it, and with a K code
      exactly when one blames it; that receive is then the last of the turn. */
  lemma RepliesDecide(run: Run, k: nat, r: Reply)
    requires Due(run, k) && run.env.sendOk(Before(run, k).sends)
    ensures var end := DrainCellOf(run, k, Before(run, k)).1;
      && (end == Answered(r) <==> Answers(run, k, r) && exists i :: InTurn(run, k, i) && run.env.recv(i) == Got(r))
      && (end == KCode(r) <==> Blames(run, k, r) && exists i :: InTurn(run, k, i) && run.env.recv(i) == Got(r))
  {
    ShippedEnds(run, k);
    var b, end := Before(run, k), DrainCellOf(run, k, Before(run, k)).1;
    if i :| InTurn(run, k, i) && run.env.recv(i) == Got(r) && (Answers(run, k, r) || Blames(run, k, r)) {
      DecidingReceive(run, k, CellDeadline(run, b), DrainStart(b), After(run, k).recvs, end, i);
    }
    if end == Answered(r) || end == KCode(r) {
      assert InTurn(run, k, After(run, k).recvs - 1);
    }
  }

  /** A cell that is not shipped receives nothing. */
  lemma NoTurn(run: Run, k: nat)
    requires Reached(run, k) && !(Due(run, k) && run.env.sendOk(Before(run, k).sends))
    ensures !Raises(run, k) && !Interrupted(run, k)
  {
  }

  lemma {:induction false} RestCount(vs: seq<Verdict>, from: nat, n: nat, k: nat)
    ensures Count(FailRest(vs, from, n), k) == Count(vs, k) + if from <= k < n then 1 else 0
    ensures |FailRest(vs, from, n)| == |vs| + if from < n then n - from else 0
    decreases n - from
  {
    if from < n {
      CountAppend(vs, Verdict(from, AfterSendFailure), k);
      RestCount(vs + [Verdict(from, AfterSendFailure)], from + 1, n, k);
    }
  }

  /** How many verdicts the way a drain ended files. */
  function Files(end: DrainEnd): nat {
    match end
    case Lost => 2
    case Stopped => 0
    case _ => 1
  }

  lemma FilesCount(s: Sim, id: string, k: nat, end: DrainEnd, j: nat)
    ensures var t := FileAfterLoop(FileInLoop(s, k, end), id, k, end);
      Verdicts(t, j) == Verdicts(s, j) + (if j == k then Files(end) else 0) && Total(t) == Total(s) + Files(end)
  {
    match end
    case Answered(r) =>
      CountAppend(s.failed, Verdict(k, Correlated(r)), j);
      CountAppend(s.succeeded, Verdict(k, Correlated(r)), j);
    case KCode(r) => CountAppend(s.failed, Verdict(k, KCoded(r)), j);
    case Expired => CountAppend(s.failed, Verdict(k, CellTimeout), j);
    case Still(first) => CountAppend(s.succeeded, Verdict(k, Quiet(first, OutputsOf(s.rts, id))), j);
    case Lost =>
      CountAppend(s.failed, Verdict(k, RecvRaised), j);
      CountAppend(s.succeeded, Verdict(k, AfterRaise(OutputsOf(s.rts, id))), j);
    case Stopped =>
  }

  /** Nothing was lost before a cell the loop got to, and after a stop it gets to none. */
  lemma ReachedIsLive(run: Run, k: nat)
    requires Reached(run, k)
    ensures !LostBefore(run, k)
  {
    forall j | 0 <= j < k ensures !SendLost(run, j) {
      LiveBefore(run, j, k);
    }
  }

  lemma LiveBefore(run: Run, j: nat, k: nat)
    requires Reached(run, k) && j < k
    ensures Reach(run, j + 1).Go? && !SendLost(run, j)
  {
    if Reach(run, j + 1).Stop? {
      StaysStopped(run, j + 1, k);
    }
  }

  lemma NotReachedAfterStop(run: Run, k: nat, j: nat)
    requires Reached(run, k) && Reach(run, k + 1).Stop? && k < j
    ensures !Reached(run, j)
  {
    if j < |run.ids| {
      StaysStopped(run, k + 1, j);
    }
  }

  lemma LostAfterStop(run: Run, k: nat, j: nat)
    requires Reached(run, k) && Reach(run, k + 1).Stop? && k < j < |run.ids|
    ensures LostBefore(run, j) <==> SendLost(run, k)
  {
    ReachedIsLive(run, k);
    forall i | k < i < j ensures !SendLost(run, i) {
      NotLostAfterStop(run, k, i);
    }
  }

  lemma NotLostAfterStop(run: Run, k: nat, i: nat)
    requires Reached(run, k) && Reach(run, k + 1).Stop? && k < i
    ensures !SendLost(run, i)
  {
    NotReachedAfterStop(run, k, i);
  }

  /** One turn that goes on files what is owed to its cell, and nothing else. */
  lemma TurnGoes(run: Run, k: nat, j: nat)
    requires Reached(run, k) && Reach(run, k + 1).Go?
    ensures !SendLost(run, k) && !Interrupted(run, k)
    ensures Verdicts(After(run, k), j) == Verdicts(Before(run, k), j) + if j == k then Owed(run, k) else 0
    ensures Total(After(run, k)) == Total(Before(run, k)) + Owed(run, k)
  {
    var b := Before(run, k);
    ReachedIsLive(run, k);
    if Due(run, k) {
      var d := DrainCellOf(run, k, b);
      TurnEnds(run, k);
      CellDrained(run, k, b);
      FilesCount(d.0, run.ids[k], k, d.1, j);
    } else {
      NoTurn(run, k);
      CountAppend(b.failed, Verdict(k, TotalTimeout), j);
      CountAppend(b.succeeded, Verdict(k, NoOp), j);
    }
  }

  /** A turn that stops the loop: the send failed and every cell from here on gets one verdict, or it was interrupted
      and gets none. */
  lemma TurnStops(run: Run, k: nat, j: nat)
    requires Reached(run, k) && Reach(run, k + 1).Stop? && j < |run.ids|
    ensures SendLost(run, k) || (Interrupted(run, k) && Reach(run, k + 1).end == InterruptedAt(k))
    ensures SendLost(run, k) ==> !Raises(run, k) && !Interrupted(run, k) && Reach(run, k + 1).end == Finished
    ensures Verdicts(After(run, k), j) == Verdicts(Before(run, k), j) + if SendLost(run, k) && j >= k then 1 else 0
    ensures Total(After(run, k)) == Total(Before(run, k)) + if SendLost(run, k) then |run.ids| - k else 0
  {
    if SendLost(run, k) {
      NoTurn(run, k);
      LostCounts(run, k, j);
    } else {
      TurnEnds(run, k);
      CellDrained(run, k, Before(run, k));
    }
  }

  /** A failed send files one verdict for its cell and each later one. */
  lemma LostCounts(run: Run, k: nat, j: nat)
    requires SendLost(run, k) && j < |run.ids|
    ensures Reach(run, k + 1).Stop? && Reach(run, k + 1).end == Finished
    ensures Verdicts(After(run, k), j) == Verdicts(Before(run, k), j) + if j >= k then 1 else 0
    ensures Total(After(run, k)) == Total(Before(run, k)) + |run.ids| - k
  {
    var b := Before(run, k);
    CountAppend(b.failed, Verdict(k, SendFailed), j);
    RestCount(b.failed + [Verdict(k, SendFailed)], k + 1, |run.ids|, j);
  }

  // ---- all cells -----------------------------------------------------------------------------------

  /** The entries for cell j after n turns of the loop. */
  ghost function FiledBy(run: Run, n: nat, j: nat): nat
    requires ValidEnv(run.env) && n <= |run.ids|
  {
    Verdicts(Reach(run, n).s, j)
  }

  /** What cell j is owed by then. */
  ghost function OwedBy(run: Run, n: nat, j: nat): nat
    requires ValidEnv(run.env) && n <= |run.ids|
  {
    if Reach(run, n).Stop? || j < n then Owed(run, j) else 0
  }

  lemma StopCounts(run: Run, k: nat, j: nat)
    requires Reached(run, k) && Reach(run, k + 1).Stop? && j < |run.ids| && FiledBy(run, k, j) == OwedBy(run, k, j)
    ensures FiledBy(run, k + 1, j) == OwedBy(run, k + 1, j)
  {
    TurnStops(run, k, j);
    if k <= j {
      OwedAfterStop(run, k, j);
    }
  }

  /** The cell that stops the loop, and each later one, is owed a verdict exactly if its send failed. */
  lemma OwedAfterStop(run: Run, k: nat, j: nat)
    requires Reached(run, k) && Reach(run, k + 1).Stop? && k <= j < |run.ids|
    ensures Owed(run, j) == if SendLost(run, k) then 1 else 0
  {
    if k < j {
      NotReachedAfterStop(run, k, j);
      LostAfterStop(run, k, j);
    } else {
      OwedAtStop(run, k);
    }
  }

  lemma OwedAtStop(run: Run, k: nat)
    requires Reached(run, k) && Reach(run, k + 1).Stop?
    ensures Owed(run, k) == if SendLost(run, k) then 1 else 0
  {
    TurnStops(run, k, k);
    ReachedIsLive(run, k);
  }

  lemma GoCounts(run: Run, k: nat, j: nat)
    requires Reached(run, k) && Reach(run, k + 1).Go? && j < |run.ids| && FiledBy(run, k, j) == OwedBy(run, k, j)
    ensures FiledBy(run, k + 1, j) == OwedBy(run, k + 1, j)
  {
    TurnGoes(run, k, j);
  }

  lemma StayCounts(run: Run, k: nat, j: nat)
    requires ValidEnv(run.env) && k < |run.ids| && Reach(run, k).Stop? && FiledBy(run, k, j) == OwedBy(run, k, j)
    ensures FiledBy(run, k + 1, j) == OwedBy(run, k + 1, j)
  {
    assert Reach(run, k + 1) == Reach(run, k);
  }

  lemma CellCounts(run: Run, k: nat, j: nat)
    requires ValidEnv(run.env) && k < |run.ids| && j < |run.ids| && FiledBy(run, k, j) == OwedBy(run, k, j)
    ensures FiledBy(run, k + 1, j) == OwedBy(run, k + 1, j)
  {
    if Reach(run, k).Stop? {
      StayCounts(run, k, j);
    } else if Reach(run, k + 1).Go? {
      GoCounts(run, k, j);
    } else {
      StopCounts(run, k, j);
    }
  }

  lemma {:induction false} ReachCounts(run: Run, n: nat, j: nat)
    requires ValidEnv(run.env) && n <= |run.ids| && j < |run.ids|
    ensures FiledBy(run, n, j) == OwedBy(run, n, j)
  {
    if n > 0 {
      ReachCounts(run, n - 1, j);
      CellCounts(run, n - 1, j);
    } else {
      BeginCounts(run, j);
    }
  }

  lemma BeginCounts(run: Run, j: nat)
    requires ValidEnv(run.env) && j < |run.ids|
    ensures FiledBy(run, 0, j) == OwedBy(run, 0, j)
  {
  }

  lemma OutcomeLists(run: Run)
    requires ValidEnv(run.env)
    ensures SameButClock(Reach(run, |run.ids|).s, Outcome(run).0)
  {
    OutcomeIs(run);
    ReachUpToDate(run, |run.ids|);
    var s := Reach(run, |run.ids|).s;
    TailUpToDate(run, run.env.clock(s.tick) + run.p.window, s.(tick := s.tick + 1));
  }

  /** In every environment each ordered cell gets what it is owed: one verdict if a send failed before it; none if the
      loop did not get to it, it was interrupted, or its record is no dictionary; two if a receive of its turn raised;
      one otherwise. */
  lemma VerdictsAccounted(run: Run, k: nat)
    requires ValidEnv(run.env) && k < |run.ids|
    ensures Verdicts(Outcome(run).0, k) == Owed(run, k)
  {
    ReachCounts(run, |run.ids|, k);
    OutcomeLists(run);
  }

  // ---- totals --------------------------------------------------------------------------------------

  /** How many of the first n receives raised. */
  ghost function RaiseCount(env: Env, n: nat): nat {
    if n == 0 then 0 else RaiseCount(env, n - 1) + if env.recv(n - 1) == Raised then 1 else 0
  }

  lemma {:induction false} NoRaises(env: Env, a: nat, b: nat)
    requires a <= b && forall r :: a <= r < b ==> env.recv(r) != Raised
    ensures RaiseCount(env, b) == RaiseCount(env, a)
  {
    if a < b {
      NoRaises(env, a, b - 1);
    }
  }

  /** A drain raised once if it was lost to a raise, and else not at all. */
  lemma DrainedRaises(run: Run, k: nat, deadline: real, d: Sim, n: nat, end: DrainEnd)
    requires k < |run.ids| && Drained(run, k, deadline, d, n, end)
    ensures RaiseCount(run.env, n) == RaiseCount(run.env, d.recvs) + if end == Lost then 1 else 0
  {
    var upTo := if end.Expired? || end.Still? then n else n - 1;
    forall r | d.recvs <= r < upTo ensures run.env.recv(r) != Raised {
      assert !Decides(run, k, run.env.recv(r));
    }
    NoRaises(run.env, d.recvs, upTo);
  }

  lemma TurnRaises(run: Run, k: nat)
    requires Reached(run, k)
    ensures Before(run, k).recvs <= After(run, k).recvs
    ensures RaiseCount(run.env, After(run, k).recvs)
         == RaiseCount(run.env, Before(run, k).recvs) + if Raises(run, k) then 1 else 0
  {
    var b, a := Before(run, k), After(run, k);
    if Due(run, k) && run.env.sendOk(b.sends) {
      TurnEnds(run, k);
      ShippedEnds(run, k);
      DrainedRaises(run, k, CellDeadline(run, b), DrainStart(b), a.recvs, DrainCellOf(run, k, b).1);
    } else {
      NoTurn(run, k);
    }
  }

  predicate AllDicts(run: Run) {
    forall k :: 0 <= k < |run.ids| ==> HasDict(run, k)
  }

  /** The receives of the cell loop. */
  ghost function LoopRecvs(run: Run): nat
    requires ValidEnv(run.env)
  {
    Reach(run, |run.ids|).s.recvs
  }

  lemma {:induction false} ReachTotals(run: Run, n: nat)
    requires ValidEnv(run.env) && n <= |run.ids| && AllDicts(run)
    ensures var x := Reach(run, n);
      x.Go? || x.end == Finished ==>
        Total(x.s) == (if x.Go? then n else |run.ids|) + RaiseCount(run.env, x.s.recvs)
  {
    if n > 0 {
      var k := n - 1;
      ReachTotals(run, k);
      if Reach(run, k).Go? {
        TurnRaises(run, k);
        ReachedIsLive(run, k);
        if Reach(run, n).Go? {
          TurnGoes(run, k, k);
        } else {
          TurnStops(run, k, k);
        }
      }
    }
  }

  /** A receive of the loop belongs to the turn of a cell. */
  lemma {:induction false} TurnOf(run: Run, n: nat, r: nat) returns (k: nat)
    requires ValidEnv(run.env) && n <= |run.ids| && r < Reach(run, n).s.recvs
    ensures Reached(run, k) && InTurn(run, k, r)
  {
    assert n > 0;
    var m := n - 1;
    if r < Reach(run, m).s.recvs {
      k := TurnOf(run, m, r);
    } else {
      assert Reach(run, m).Go?;
      k := m;
    }
  }

  lemma {:induction false} RecvsGrow(run: Run, m: nat, n: nat)
    requires ValidEnv(run.env) && m <= n <= |run.ids|
    ensures Reach(run, m).s.recvs <= Reach(run, n).s.recvs
  {
    if m < n {
      RecvsGrow(run, m, n - 1);
      if Reach(run, n - 1).Go? {
        TurnRaises(run, n - 1);
      }
    }
  }

  /** No receive of the cell loop was an interrupt. */
  ghost predicate NoInterrupt(run: Run) {
    ValidEnv(run.env) && forall r :: 0 <= r < LoopRecvs(run) ==> run.env.recv(r) != Interrupt
  }

  lemma NotInterrupted(run: Run, k: nat)
    requires NoInterrupt(run) && Reached(run, k)
    ensures !Interrupted(run, k)
  {
    RecvsGrow(run, k + 1, |run.ids|);
  }

  /** An interrupt, and nothing else, keeps the loop from coming to its end. */
  lemma {:induction false} LoopFinishes(run: Run, n: nat)
    requires NoInterrupt(run) && n <= |run.ids|
    ensures Reach(run, n).Stop? ==> Reach(run, n).end == Finished && LostBefore(run, n)
  {
    if n > 0 {
      if Reach(run, n - 1).Stop? {
        LoopFinishes(run, n - 1);
      } else if Reach(run, n).Stop? {
        TurnFinishes(run, n - 1);
      }
    }
  }

  lemma TurnFinishes(run: Run, k: nat)
    requires NoInterrupt(run) && Reached(run, k) && Reach(run, k + 1).Stop?
    ensures Reach(run, k + 1).end == Finished && SendLost(run, k)
  {
    TurnStops(run, k, k);
    NotInterrupted(run, k);
  }

  /** With dictionary records and no interrupt during the loop, send failures and timeouts included: a cell gets
      one verdict, or two if a receive of its turn raised; the lists hold one entry per cell and one more for each
      receive of the loop that raised. */
  lemma OneVerdictUnlessRaised(run: Run, k: nat)
    requires NoInterrupt(run) && AllDicts(run) && k < |run.ids|
    ensures Verdicts(Outcome(run).0, k) == if Raises(run, k) then 2 else 1
    ensures Total(Outcome(run).0) == |run.ids| + RaiseCount(run.env, LoopRecvs(run))
  {
    VerdictsAccounted(run, k);
    LoopFinishes(run, |run.ids|);
    LoopFinishes(run, k);
    if Reached(run, k) {
      NotInterrupted(run, k);
      ReachedIsLive(run, k);
    }
    ReachTotals(run, |run.ids|);
    OutcomeLists(run);
  }

  ghost predicate NoRaise(run: Run) {
    ValidEnv(run.env) && forall r :: 0 <= r < LoopRecvs(run) ==> run.env.recv(r) != Raised
  }

  lemma NoTurnRaises(run: Run, k: nat)
    requires NoRaise(run)
    ensures !Raises(run, k)
  {
    if Reached(run, k) {
      RecvsGrow(run, k + 1, |run.ids|);
    }
  }

  lemma SomeTurnRaises(run: Run) returns (k: nat)
    requires ValidEnv(run.env) && !NoRaise(run)
    ensures k < |run.ids| && Raises(run, k)
  {
    var r :| 0 <= r < LoopRecvs(run) && run.env.recv(r) == Raised;
    k := TurnOf(run, |run.ids|, r);
  }

  /** So every cell gets exactly one verdict if and only if no receive of the loop raised. */
  lemma ExactlyOneVerdict(run: Run)
    requires NoInterrupt(run) && AllDicts(run)
    ensures (forall k: nat :: k < |run.ids| ==> Verdicts(Outcome(run).0, k) == 1) <==> NoRaise(run)
  {
    if NoRaise(run) {
      forall k: nat | k < |run.ids| ensures Verdicts(Outcome(run).0, k) == 1 {
        OneVerdictUnlessRaised(run, k);
        NoTurnRaises(run, k);
      }
    } else {
      var k := SomeTurnRaises(run);
      OneVerdictUnlessRaised(run, k);
    }
  }

  // ---- a raise counts twice ------------------------------------------------------------------------

  /** If the first receive of a shipped cell raises in time, the cell is filed both as failed and as
      succeeded, whatever the environment does otherwise. */
  lemma RaiseCountsTwice(run: Run, k: nat, s: Sim)
    requires ValidEnv(run.env) && k < |run.ids| && run.env.sendOk(s.sends) && run.env.recv(s.recvs) == Raised
    requires run.env.clock(s.tick + 2) < CellDeadline(run, s)
    ensures var turn := ShipCell(run, k, s);
      && turn.Go?
      && turn.s.failed == s.failed + [Verdict(k, RecvRaised)]
      && turn.s.succeeded == s.succeeded + [Verdict(k, AfterRaise(OutputsOf(s.rts, run.ids[k])))]
  {
  }

  /** Such environments exist. */
  lemma RaisingEnvironment()
    ensures var env := Env((n: nat) => n as real, (n: nat) => Raised, (n: nat) => true,
                           (d: real) => if d < 0.0 then 0 else d.Floor + 1);
      ValidEnv(env) && env.recv(0) == Raised && env.sendOk(0) && env.clock(3) < env.clock(2) + 60.0
  {
  }

  // ---- how a run ends ------------------------------------------------------------------------------

  lemma {:induction false} LoopEnds(run: Run, n: nat, k: nat)
    requires ValidEnv(run.env) && n <= |run.ids|
    ensures Reach(run, n).Stop? && Reach(run, n).end == InterruptedAt(k) ==> k < n && Interrupted(run, k)
    ensures Reach(run, n).Stop? ==> Reach(run, n).end != InterruptedInTail
  {
    if n > 0 {
      LoopEnds(run, n - 1, k);
      if Reach(run, n - 1).Go? && Reach(run, n).Stop? {
        TurnStops(run, n - 1, n - 1);
      }
    }
  }

  lemma InterruptStops(run: Run, k: nat)
    requires Interrupted(run, k)
    ensures Reach(run, |run.ids|).Stop? && Reach(run, |run.ids|).end == InterruptedAt(k)
  {
    if Reach(run, k + 1).Go? {
      TurnGoes(run, k, k);
    } else {
      TurnStops(run, k, k);
      StaysStopped(run, k + 1, |run.ids|);
    }
  }

  ghost predicate TailInterrupted(env: Env, a: nat, b: nat) {
    exists r :: a <= r < b && env.recv(r) == Interrupt
  }

  /** The trailing drain ends at the first receive that raises or is an interrupt, and with an interrupt if that is
      one. */
  lemma {:induction false} TailEnds(env: Env, deadline: real, s: Sim)
    requires ValidEnv(env)
    ensures var (t, end) := TailDrain(env, deadline, s);
      && s.recvs <= t.recvs && (end == InterruptedInTail || end == Finished)
      && (end == InterruptedInTail <==> TailInterrupted(env, s.recvs, t.recvs))
      && forall r :: s.recvs <= r < t.recvs - 1 ==> !env.recv(r).Raised? && !env.recv(r).Interrupt?
    decreases Left(env, deadline, s.tick)
  {
    if env.clock(s.tick) < deadline {
      NotYet(env, deadline, s.tick);
      var s1 := s.(tick := s.tick + 1, recvs := s.recvs + 1);
      match env.recv(s.recvs)
      case Silence => TailEnds(env, deadline, s1);
      case Got(r) => TailEnds(env, deadline, s1.(rts := Absorb(s1.rts, r)));
      case _ =>
    }
  }

  /** A run ends with the interrupt of a cell exactly if a receive of that cell's turn was one, and with an interrupt
      of the trailing drain exactly if one of its receives was; otherwise it comes to its end. */
  lemma RunEndsExactly(run: Run, k: nat)
    requires ValidEnv(run.env)
    ensures var (s, end) := Outcome(run);
      && (end == InterruptedAt(k) <==> Interrupted(run, k))
      && (end == InterruptedInTail <==>
            (forall j: nat :: !Interrupted(run, j)) && TailInterrupted(run.env, LoopRecvs(run), s.recvs))
  {
    var loop := Reach(run, |run.ids|);
    OutcomeIs(run);
    LoopEnds(run, |run.ids|, k);
    if Interrupted(run, k) {
      InterruptStops(run, k);
    }
    TailEnds(run.env, run.env.clock(loop.s.tick) + run.p.window, loop.s.(tick := loop.s.tick + 1));
    if loop.Stop? && loop.end.InterruptedAt? {
      LoopEnds(run, |run.ids|, loop.end.ordinal);
    } else {
      forall j: nat ensures !Interrupted(run, j) {
        if Interrupted(run, j) {
          InterruptStops(run, j);
        }
      }
    }
  }
}
