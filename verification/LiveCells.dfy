/** The cells of a live run one by one: the state before each, and what its drain saw. */
module LiveCells {
  import opened Common
  import opened Json
  import opened LiveRun
  import Attrs

  // ---- what completes a cell, told by the fields of a reply ------------------------------------------

  /** The places where a reply may carry an id, in the order in which they count. */
  function IdFields(r: Reply): seq<string> {
    [r.correlationId, r.requestId, r.payloadCorrelationId, r.payloadRequestId]
  }

  /** The first id a reply carries. */
  predicate Carries(r: Reply, id: string) {
    id != "" && exists i :: 0 <= i < 4 && IdFields(r)[i] == id && forall j :: 0 <= j < i ==> IdFields(r)[j] == ""
  }

  /** The reply names the request of cell k: the session and the cell's ordinal. */
  predicate Answers(run: Run, k: nat, r: Reply) {
    Carries(r, run.p.session + ":" + Dec(k))
  }

  /** The reply names another request or none, but blames cell k with a K code. */
  predicate Blames(run: Run, k: nat, r: Reply)
    requires k < |run.ids|
  {
    !Answers(run, k, r) && r.kCode != "" && r.cellId == run.ids[k]
  }

  lemma CarriesFirst(r: Reply, id: string)
    requires id != ""
    ensures Carries(r, id) <==> Correlation(r) == id
  {
    var ids := IdFields(r);
    assert ids[0] == r.correlationId && ids[1] == r.requestId;
    assert ids[2] == r.payloadCorrelationId && ids[3] == r.payloadRequestId;
  }

  lemma ReplyEndIs(run: Run, k: nat, r: Reply)
    requires k < |run.ids|
    ensures ReplyEnd(run, k, r)
         == if Answers(run, k, r) then Some(Answered(r)) else if Blames(run, k, r) then Some(KCode(r)) else None
  {
    CarriesFirst(r, run.p.session + ":" + Dec(k));
  }

  /** No reply answers two cells. */
  lemma AnswersOne(run: Run, j: nat, k: nat, r: Reply)
    requires Answers(run, j, r) && Answers(run, k, r)
    ensures j == k
  {
    var head := run.p.session + ":";
    CarriesFirst(r, head + Dec(j));
    CarriesFirst(r, head + Dec(k));
    assert (head + Dec(j))[|head|..] == Dec(j) && (head + Dec(k))[|head|..] == Dec(k);
    Attrs.DecParses(j);
    Attrs.DecParses(k);
  }

  // ---- the readings of a drain -------------------------------------------------------------------

  ghost function Silences(env: Env, a: nat, b: nat): nat
    decreases b
  {
    if b <= a then 0 else Silences(env, a, b - 1) + if env.recv(b - 1) == Silence then 1 else 0
  }

  /** In a drain that starts in state d, the clock reading checked before receive r: one per receive so far, and
      one more for each that was silent. */
  ghost function TestedAt(env: Env, d: Sim, r: nat): nat
    requires d.recvs <= r
  {
    d.tick + (r - d.recvs) + Silences(env, d.recvs, r)
  }

  /** The reading taken after receive r if that was silent. */
  ghost function HeardAt(env: Env, d: Sim, r: nat): nat
    requires d.recvs <= r
  {
    TestedAt(env, d, r) + 1
  }

  /** Outcomes of a receive that end the drain of cell k at once. */
  predicate Decides(run: Run, k: nat, x: Received)
    requires k < |run.ids|
  {
    x.Raised? || x.Interrupt? || (x.Got? && (Answers(run, k, x.reply) || Blames(run, k, x.reply)))
  }

  /** No receive from a to b ended the drain. */
  ghost predicate Undecided(run: Run, k: nat, a: nat, b: nat)
    requires k < |run.ids|
  {
    forall r {:trigger Decides(run, k, run.env.recv(r))} :: a <= r < b ==> !Decides(run, k, run.env.recv(r))
  }

  /** The last receive before n, and so every one of the drain, was made in time. */
  ghost predicate InTime(env: Env, deadline: real, d: Sim, n: nat)
    requires d.recvs <= n
  {
    n > d.recvs ==> env.clock(TestedAt(env, d, n - 1)) < deadline
  }

  ghost predicate SilentFrom(env: Env, a: nat, b: nat) {
    forall r :: a <= r < b ==> env.recv(r) == Silence
  }

  predicate SameButClock(d: Sim, s: Sim) {
    s == d.(tick := s.tick, recvs := s.recvs, rts := s.rts)
  }

  ghost predicate Draining(run: Run, k: nat, deadline: real, d: Sim, s: Sim, q: Option<Silent>)
    requires k < |run.ids|
  {
    && SameButClock(d, s) && d.recvs <= s.recvs && s.tick == TestedAt(run.env, d, s.recvs)
    && Undecided(run, k, d.recvs, s.recvs) && InTime(run.env, deadline, d, s.recvs)
    && (q.Some? ==>
          && d.recvs <= q.value.first < s.recvs && SilentFrom(run.env, q.value.first, s.recvs)
          && q.value.since == run.env.clock(HeardAt(run.env, d, q.value.first)))
  }

  /** How the drain of cell k that starts in state d and stops before receive n ended, told by the environment. */
  ghost predicate Drained(run: Run, k: nat, deadline: real, d: Sim, n: nat, end: DrainEnd)
    requires k < |run.ids|
  {
    var env, last := run.env, n - 1;
    && d.recvs <= n && InTime(env, deadline, d, n)
    && match end
       case Expired => Undecided(run, k, d.recvs, n) && env.clock(TestedAt(env, d, n)) >= deadline
       case Still(first) => d.recvs <= first < last && Undecided(run, k, d.recvs, n) && Spans(run, d, first, last)
       case _ => d.recvs <= last && Undecided(run, k, d.recvs, last) && EndsBy(run, k, env.recv(last), end)
  }

  /** The receive that ended a drain. */
  predicate EndsBy(run: Run, k: nat, x: Received, end: DrainEnd)
    requires k < |run.ids|
  {
    match x
    case Raised => end == Lost
    case Interrupt => end == Stopped
    case Got(r) => (Answers(run, k, r) && end == Answered(r)) || (Blames(run, k, r) && end == KCode(r))
    case Silence => false
  }

  /** An unbroken silence from receive `first` to receive `last`; the readings taken after the two lie the window
      apart. */
  ghost predicate Spans(run: Run, d: Sim, first: nat, last: nat)
    requires d.recvs <= first <= last
  {
    && SilentFrom(run.env, first, last + 1)
    && run.env.clock(HeardAt(run.env, d, last)) - run.env.clock(HeardAt(run.env, d, first)) >= run.p.window
  }

  lemma OneMoreReceive(env: Env, d: Sim, r: nat)
    requires d.recvs <= r
    ensures TestedAt(env, d, r + 1) == TestedAt(env, d, r) + if env.recv(r) == Silence then 2 else 1
  {
  }

  lemma SilentTurn(run: Run, k: nat, deadline: real, d: Sim, s: Sim, q: Option<Silent>)
    requires k < |run.ids| && Draining(run, k, deadline, d, s, q)
    requires run.env.clock(s.tick) < deadline && run.env.recv(s.recvs) == Silence
    ensures var t, heard := s.(tick := s.tick + 2, recvs := s.recvs + 1), run.env.clock(s.tick + 1);
      && (q.None? ==> Draining(run, k, deadline, d, t, Some(Silent(s.recvs, heard))))
      && (q.Some? ==> Draining(run, k, deadline, d, t, q))
      && (q.Some? && heard - q.value.since >= run.p.window ==>
            Drained(run, k, deadline, d, t.recvs, Still(q.value.first)))
  {
    OneMoreReceive(run.env, d, s.recvs);
  }

  lemma ReplyTurn(run: Run, k: nat, deadline: real, d: Sim, s: Sim, q: Option<Silent>)
    requires k < |run.ids| && Draining(run, k, deadline, d, s, q)
    requires run.env.clock(s.tick) < deadline && run.env.recv(s.recvs).Got?
    ensures var r := run.env.recv(s.recvs).reply;
      var t, end := s.(tick := s.tick + 1, recvs := s.recvs + 1, rts := Absorb(s.rts, r)), ReplyEnd(run, k, r);
      && (end.None? ==> Draining(run, k, deadline, d, t, None))
      && (end.Some? ==> Drained(run, k, deadline, d, t.recvs, end.value))
  {
    ReplyEndIs(run, k, run.env.recv(s.recvs).reply);
    OneMoreReceive(run.env, d, s.recvs);
  }

  ghost predicate Told(run: Run, k: nat, deadline: real, d: Sim, turn: Turn)
    requires k < |run.ids|
  {
    match turn
    case Over(t, end) => Drained(run, k, deadline, d, t.recvs, end) && SameButClock(d, t)
    case Next(t, silence) => Draining(run, k, deadline, d, t, silence)
  }

  lemma SilentTurnTold(run: Run, k: nat, deadline: real, d: Sim, s: Sim, q: Option<Silent>)
    requires k < |run.ids| && Draining(run, k, deadline, d, s, q)
    requires run.env.clock(s.tick) < deadline && run.env.recv(s.recvs) == Silence
    ensures Told(run, k, deadline, d, DrainTurn(run, k, deadline, s, q))
  {
    SilentTurn(run, k, deadline, d, s, q);
    var t := s.(tick := s.tick + 2, recvs := s.recvs + 1);
    assert SameButClock(d, t);
    assert DrainTurn(run, k, deadline, s, q).s == t;
  }

  lemma ReplyTurnTold(run: Run, k: nat, deadline: real, d: Sim, s: Sim, q: Option<Silent>)
    requires k < |run.ids| && Draining(run, k, deadline, d, s, q)
    requires run.env.clock(s.tick) < deadline && run.env.recv(s.recvs).Got?
    ensures Told(run, k, deadline, d, DrainTurn(run, k, deadline, s, q))
  {
    ReplyTurn(run, k, deadline, d, s, q);
  }

  lemma BrokenTurnTold(run: Run, k: nat, deadline: real, d: Sim, s: Sim, q: Option<Silent>)
    requires k < |run.ids| && Draining(run, k, deadline, d, s, q)
    requires run.env.clock(s.tick) < deadline && (run.env.recv(s.recvs).Raised? || run.env.recv(s.recvs).Interrupt?)
    ensures Told(run, k, deadline, d, DrainTurn(run, k, deadline, s, q))
  {
  }

  lemma LateTurnTold(run: Run, k: nat, deadline: real, d: Sim, s: Sim, q: Option<Silent>)
    requires k < |run.ids| && Draining(run, k, deadline, d, s, q)
    requires run.env.clock(s.tick) >= deadline
    ensures Told(run, k, deadline, d, DrainTurn(run, k, deadline, s, q))
  {
  }

  lemma TurnDrains(run: Run, k: nat, deadline: real, d: Sim, s: Sim, q: Option<Silent>)
    requires k < |run.ids| && Draining(run, k, deadline, d, s, q)
    ensures Told(run, k, deadline, d, DrainTurn(run, k, deadline, s, q))
  {
    if run.env.clock(s.tick) >= deadline {
      LateTurnTold(run, k, deadline, d, s, q);
    } else {
      match run.env.recv(s.recvs)
      case Silence => SilentTurnTold(run, k, deadline, d, s, q);
      case Got(_) => ReplyTurnTold(run, k, deadline, d, s, q);
      case _ => BrokenTurnTold(run, k, deadline, d, s, q);
    }
  }

  lemma {:induction false} DrainIsDrained(run: Run, k: nat, deadline: real, d: Sim, s: Sim, q: Option<Silent>)
    requires ValidEnv(run.env) && k < |run.ids| && Draining(run, k, deadline, d, s, q)
    ensures var e := Drain(run, k, deadline, s, q); Drained(run, k, deadline, d, e.0.recvs, e.1) && SameButClock(d, e.0)
    decreases Left(run.env, deadline, s.tick)
  {
    TurnDrains(run, k, deadline, d, s, q);
    var turn := DrainTurn(run, k, deadline, s, q);
    if turn.Next? {
      TurnProgress(run, k, deadline, s, q);
      DrainIsDrained(run, k, deadline, d, turn.s, turn.q);
    }
  }

  /** A receive of a drain that ends it is its last, and tells how it ended. */
  lemma DecidingReceive(run: Run, k: nat, deadline: real, d: Sim, n: nat, end: DrainEnd, r: nat)
    requires k < |run.ids| && Drained(run, k, deadline, d, n, end)
    requires d.recvs <= r < n && Decides(run, k, run.env.recv(r))
    ensures r == n - 1 && EndsBy(run, k, run.env.recv(r), end)
  {
  }

  /** The drain of a shipped cell. */
  lemma CellDrained(run: Run, k: nat, s: Sim)
    requires ValidEnv(run.env) && k < |run.ids|
    ensures var d, e := DrainStart(s), DrainCellOf(run, k, s);
      Drained(run, k, CellDeadline(run, s), d, e.0.recvs, e.1) && SameButClock(d, e.0)
  {
    DrainIsDrained(run, k, CellDeadline(run, s), DrainStart(s), DrainStart(s), None);
  }

  // ---- the working state -------------------------------------------------------------------------

  /** A metadata reply that carries a snapshot. */
  predicate Brings(x: Received) {
    x.Got? && x.reply.msgType == "notebook.metadata" && x.reply.snapshot.Some?
  }

  /** The snapshot of the last such reply among the first n receives, or the initial one if there was none. */
  ghost function LastSnapshot(env: Env, n: nat, rts: Snapshot): Snapshot {
    if n == 0 then rts
    else if Brings(env.recv(n - 1)) then env.recv(n - 1).reply.snapshot.value
    else LastSnapshot(env, n - 1, rts)
  }

  ghost predicate UpToDate(run: Run, s: Sim) {
    s.rts == LastSnapshot(run.env, s.recvs, run.rts)
  }

  lemma {:induction false} DrainUpToDate(run: Run, k: nat, deadline: real, s: Sim, q: Option<Silent>)
    requires ValidEnv(run.env) && k < |run.ids| && UpToDate(run, s)
    ensures UpToDate(run, Drain(run, k, deadline, s, q).0)
    decreases Left(run.env, deadline, s.tick)
  {
    var turn := DrainTurn(run, k, deadline, s, q);
    assert UpToDate(run, turn.s);
    if turn.Next? {
      TurnProgress(run, k, deadline, s, q);
      DrainUpToDate(run, k, deadline, turn.s, turn.q);
    }
  }

  lemma CellUpToDate(run: Run, k: nat, s: Sim)
    requires ValidEnv(run.env) && k < |run.ids| && UpToDate(run, s)
    ensures UpToDate(run, RunCell(run, k, s).s)
  {
    DrainUpToDate(run, k, CellDeadline(run, s), DrainStart(s), None);
  }

  /** One receive by the trailing drain. */
  lemma TailReceives(run: Run, s: Sim)
    requires UpToDate(run, s)
    ensures var x := run.env.recv(s.recvs);
      var rts := if x.Got? then Absorb(s.rts, x.reply) else s.rts;
      UpToDate(run, s.(tick := s.tick + 1, recvs := s.recvs + 1, rts := rts))
  {
  }

  lemma {:induction false} TailUpToDate(run: Run, deadline: real, s: Sim)
    requires ValidEnv(run.env) && UpToDate(run, s)
    ensures var t := TailDrain(run.env, deadline, s).0; UpToDate(run, t) && SameButClock(s, t)
    decreases Left(run.env, deadline, s.tick)
  {
    if run.env.clock(s.tick) < deadline {
      NotYet(run.env, deadline, s.tick);
      TailReceives(run, s);
      var s1 := s.(tick := s.tick + 1, recvs := s.recvs + 1);
      match run.env.recv(s.recvs)
      case Silence => TailUpToDate(run, deadline, s1);
      case Got(r) => TailUpToDate(run, deadline, s1.(rts := Absorb(s1.rts, r)));
      case _ =>
    }
  }

  // ---- the state before each cell ------------------------------------------------------------------

  /** Where the cell loop stands after n turns. */
  ghost function Reach(run: Run, n: nat): CellTurn
    requires ValidEnv(run.env) && n <= |run.ids|
  {
    if n == 0 then Go(Begin(run))
    else match Reach(run, n - 1)
      case Go(s) => RunCell(run, n - 1, s)
      case Stop(s, end) => Stop(s, end)
  }

  /** The loop got to cell k. */
  ghost predicate Reached(run: Run, k: nat) {
    ValidEnv(run.env) && k < |run.ids| && Reach(run, k).Go?
  }

  ghost function Before(run: Run, k: nat): Sim
    requires Reached(run, k)
  {
    Reach(run, k).s
  }

  ghost function After(run: Run, k: nat): Sim
    requires Reached(run, k)
  {
    Reach(run, k + 1).s
  }

  lemma {:induction false} LoopReaches(run: Run, k: nat)
    requires ValidEnv(run.env) && k <= |run.ids|
    ensures match Reach(run, k)
      case Go(s) => RunFrom(run, k, s) == Reach(run, |run.ids|)
      case Stop(s, end) => Reach(run, |run.ids|) == Stop(s, end)
    decreases |run.ids| - k
  {
    if k < |run.ids| {
      LoopReaches(run, k + 1);
    }
  }

  /** The run is the loop's turns, then the trailing drain unless a cell was interrupted. */
  lemma OutcomeIs(run: Run)
    requires ValidEnv(run.env)
    ensures var loop, o := Reach(run, |run.ids|), Outcome(run);
      if loop.Stop? && loop.end.InterruptedAt? then o == (loop.s, loop.end) else o == Tail(run, loop.s)
  {
    LoopReaches(run, 0);
  }

  lemma {:induction false} ReachUpToDate(run: Run, n: nat)
    requires ValidEnv(run.env) && n <= |run.ids|
    ensures UpToDate(run, Reach(run, n).s)
  {
    if n > 0 {
      ReachUpToDate(run, n - 1);
      NextUpToDate(run, n - 1);
    }
  }

  lemma NextUpToDate(run: Run, k: nat)
    requires ValidEnv(run.env) && k < |run.ids| && UpToDate(run, Reach(run, k).s)
    ensures UpToDate(run, Reach(run, k + 1).s)
  {
    if Reach(run, k).Go? {
      CellUpToDate(run, k, Reach(run, k).s);
    }
  }

  /** A stopped loop stays stopped. */
  lemma {:induction false} StaysStopped(run: Run, k: nat, n: nat)
    requires ValidEnv(run.env) && k <= n <= |run.ids| && Reach(run, k).Stop?
    ensures Reach(run, n) == Reach(run, k)
  {
    if k < n {
      StaysStopped(run, k, n - 1);
    }
  }
}
