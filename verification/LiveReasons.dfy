/** Why a live run files a verdict, and which snapshot it ends with. */
module LiveReasons {
  import opened Json
  import opened LiveRun
  import opened LiveCells

  // ---- what happened to a cell ---------------------------------------------------------------------

  /** The loop got to cell k too late: more than the total timeout after the first reading. */
  ghost predicate Overdue(run: Run, k: nat) {
    Reached(run, k) && run.env.clock(Before(run, k).tick) > run.env.clock(0) + run.p.totalTimeout
  }

  /** Records without an envelope: other kinds, agents without an id, sections without a title. */
  predicate Inert(r: Record) {
    match r
    case NotDict => false
    case Dict(kind, agentId, title) =>
      kind !in {"spawn", "agent", "section"} || (kind == "agent" && agentId == "") || (kind == "section" && title.None?)
  }

  /** The loop got to cell k before the run deadline, and its record ships an envelope. */
  ghost predicate Due(run: Run, k: nat) {
    Reached(run, k) && !Overdue(run, k) && HasDict(run, k) && !Inert(run.cells[run.ids[k]])
  }

  ghost predicate SendLost(run: Run, k: nat) {
    Due(run, k) && !run.env.sendOk(Before(run, k).sends)
  }

  /** The envelope of cell k was sent and its own drain ended so: the deadline counts from the reading taken after
      the send, and the receives are those from before the drain to after it. */
  ghost predicate Ended(run: Run, k: nat, end: DrainEnd) {
    && Due(run, k) && run.env.sendOk(Before(run, k).sends)
    && var b := Before(run, k);
    var deadline, start := run.env.clock(b.tick + 1) + run.p.cellTimeout, b.(tick := b.tick + 2, sends := b.sends + 1);
    Drained(run, k, deadline, start, After(run, k).recvs, end)
  }

  /** The outputs of cell k in the last snapshot received by the end of its turn. */
  ghost function OutputsAfter(run: Run, k: nat): seq<Json>
    requires Reached(run, k)
  {
    var rts := LastSnapshot(run.env, After(run, k).recvs, run.rts);
    if run.ids[k] in rts then rts[run.ids[k]] else []
  }

  /** What a success (or failure) rests on, told by the environment. */
  ghost predicate Reason(run: Run, v: Verdict, good: bool) {
    var k := v.ordinal;
    match v.cause
    case AfterSendFailure => !good && k < |run.ids| && exists j :: 0 <= j < k && SendLost(run, j)
    case TotalTimeout => !good && Overdue(run, k)
    case NoOp => good && Reached(run, k) && HasDict(run, k) && Inert(run.cells[run.ids[k]])
    case SendFailed => !good && SendLost(run, k)
    case RecvRaised => !good && Ended(run, k, Lost)
    case AfterRaise(outputs) => good && Ended(run, k, Lost) && outputs == OutputsAfter(run, k)
    case Correlated(r) => Ended(run, k, Answered(r)) && good == (r.kCode == "")
    case KCoded(r) => !good && Ended(run, k, KCode(r))
    case CellTimeout => !good && Ended(run, k, Expired)
    case Quiet(first, outputs) => good && Ended(run, k, Still(first)) && outputs == OutputsAfter(run, k)
  }

  ghost predicate AllReasons(run: Run, s: Sim) {
    && (forall v <- s.succeeded :: Reason(run, v, true))
    && (forall v <- s.failed :: Reason(run, v, false))
  }

  // ---- one cell ------------------------------------------------------------------------------------

  /** The drain of a shipped cell ended as the environment tells. */
  lemma ShippedEnds(run: Run, k: nat)
    requires Due(run, k) && run.env.sendOk(Before(run, k).sends)
    ensures Ended(run, k, DrainCellOf(run, k, Before(run, k)).1)
  {
    CellDrained(run, k, Before(run, k));
    TurnRecvs(run, k);
  }

  /** Filing receives nothing. */
  lemma TurnRecvs(run: Run, k: nat)
    requires Due(run, k) && run.env.sendOk(Before(run, k).sends)
    ensures After(run, k).recvs == DrainCellOf(run, k, Before(run, k)).0.recvs
  {
  }

  lemma {:induction false} RestFailed(vs: seq<Verdict>, from: nat, n: nat)
    ensures forall v <- FailRest(vs, from, n) :: v in vs || (from <= v.ordinal < n && v.cause == AfterSendFailure)
    decreases n - from
  {
    if from < n {
      RestFailed(vs + [Verdict(from, AfterSendFailure)], from + 1, n);
    }
  }

  lemma LostReasons(run: Run, k: nat)
    requires SendLost(run, k) && AllReasons(run, Before(run, k))
    ensures AllReasons(run, Reach(run, k + 1).s)
  {
    var vs := Before(run, k).failed + [Verdict(k, SendFailed)];
    RestFailed(vs, k + 1, |run.ids|);
    forall v | v in FailRest(vs, k + 1, |run.ids|) ensures Reason(run, v, false) {
      if v !in Before(run, k).failed && v.cause == AfterSendFailure {
        assert SendLost(run, k);
      }
    }
  }

  /** Filing one more verdict. */
  lemma OneMore(run: Run, s: Sim, t: Sim, v: Verdict, good: bool)
    requires AllReasons(run, s) && Reason(run, v, good)
    requires t.succeeded == (if good then s.succeeded + [v] else s.succeeded)
    requires t.failed == (if good then s.failed else s.failed + [v])
    ensures AllReasons(run, t)
  {
  }

  lemma ShippedReasons(run: Run, k: nat)
    requires Due(run, k) && run.env.sendOk(Before(run, k).sends) && AllReasons(run, Before(run, k))
    ensures AllReasons(run, Reach(run, k + 1).s)
  {
    ShippedEnds(run, k);
    CellDrained(run, k, Before(run, k));
    ReachUpToDate(run, k + 1);
    match DrainCellOf(run, k, Before(run, k)).1
    case Answered(r) => ReplyReasons(run, k);
    case KCode(r) => ReplyReasons(run, k);
    case _ => NoReplyReasons(run, k);
  }

  lemma ReplyReasons(run: Run, k: nat)
    requires Due(run, k) && run.env.sendOk(Before(run, k).sends) && AllReasons(run, Before(run, k))
    requires var d := DrainCellOf(run, k, Before(run, k));
      (d.1.Answered? || d.1.KCode?) && Ended(run, k, d.1) && SameButClock(DrainStart(Before(run, k)), d.0)
    ensures AllReasons(run, Reach(run, k + 1).s)
  {
    var b, a := Before(run, k), Reach(run, k + 1).s;
    match DrainCellOf(run, k, b).1
    case Answered(r) => OneMore(run, b, a, Verdict(k, Correlated(r)), r.kCode == "");
    case KCode(r) => OneMore(run, b, a, Verdict(k, KCoded(r)), false);
  }

  lemma NoReplyReasons(run: Run, k: nat)
    requires Due(run, k) && run.env.sendOk(Before(run, k).sends) && AllReasons(run, Before(run, k))
    requires var d := DrainCellOf(run, k, Before(run, k));
      !d.1.Answered? && !d.1.KCode? && Ended(run, k, d.1) && SameButClock(DrainStart(Before(run, k)), d.0)
    requires UpToDate(run, Reach(run, k + 1).s)
    ensures AllReasons(run, Reach(run, k + 1).s)
  {
    var b, a, d := Before(run, k), Reach(run, k + 1).s, DrainCellOf(run, k, Before(run, k));
    match d.1
    case Expired => OneMore(run, b, a, Verdict(k, CellTimeout), false);
    case Still(first) => OneMore(run, b, a, Verdict(k, Quiet(first, OutputsAfter(run, k))), true);
    case Lost =>
      var raised := FileInLoop(d.0, k, Lost);
      OneMore(run, b, raised, Verdict(k, RecvRaised), false);
      OneMore(run, raised, a, Verdict(k, AfterRaise(OutputsAfter(run, k))), true);
    case Stopped =>
  }

  lemma CellReasons(run: Run, k: nat)
    requires Reached(run, k) && AllReasons(run, Before(run, k))
    ensures AllReasons(run, Reach(run, k + 1).s)
  {
    var b, a := Before(run, k), Reach(run, k + 1).s;
    if run.env.clock(b.tick) > RunDeadline(run) {
      OneMore(run, b, a, Verdict(k, TotalTimeout), false);
    } else if HasDict(run, k) {
      if !Ships(run.cells[run.ids[k]]) {
        OneMore(run, b, a, Verdict(k, NoOp), true);
      } else if run.env.sendOk(b.sends) {
        ShippedReasons(run, k);
      } else {
        LostReasons(run, k);
      }
    }
  }

  lemma {:induction false} ReachReasons(run: Run, n: nat)
    requires ValidEnv(run.env) && n <= |run.ids|
    ensures AllReasons(run, Reach(run, n).s)
  {
    if n > 0 {
      ReachReasons(run, n - 1);
      if Reach(run, n - 1).Go? {
        CellReasons(run, n - 1);
      }
    }
  }

  /** Every verdict of every run has its reason in the environment.  A success by silence rests on a silence of the
      cell's own drain, unbroken from one receive to another, whose readings lie the window apart; a success by reply on
      the reply received last in that drain, correlated and without a K code; a timeout on a reading of that drain at or
      past the send time plus the cell timeout; no earlier receive of the drain would have ended it.  And the run ends
      with the last snapshot it received, or the initial one. */
  lemma EveryVerdictHasItsReason(run: Run)
    requires ValidEnv(run.env)
    ensures var s := Outcome(run).0;
      && (forall v <- s.succeeded :: Reason(run, v, true))
      && (forall v <- s.failed :: Reason(run, v, false))
      && s.rts == LastSnapshot(run.env, s.recvs, run.rts)
  {
    var n := |run.ids|;
    ReachReasons(run, n);
    ReachUpToDate(run, n);
    OutcomeIs(run);
    var s := Reach(run, n).s;
    TailUpToDate(run, run.env.clock(s.tick) + run.p.window, s.(tick := s.tick + 1));
  }
}
