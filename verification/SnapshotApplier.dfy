/**
  Applying `notebook.metadata` snapshots (extension/src/notebook/metadata-applier.ts).

  The version check runs when an envelope arrives; the version is recorded when the edit that
  carries it has been applied.  Between the two the applier awaits the editor.
 */
module SnapshotApplier {
  import opened Common
  import opened Json
  import opened Text

  type Metadata = map<string, Json>

  const SCHEMA_MAJOR := "1"

  datatype Envelope = Envelope(mode: string, version: int, snapshot: Option<Snapshot>)
  datatype Snapshot = Snapshot(schemaVersion: string, body: Json)

  datatype Failure = UnsupportedMode | ApplyFailed | SchemaMismatch | NonMonotonic | NoActiveNotebook

  /** An edit handed to the editor: the version and the whole metadata it will install. */
  datatype Edit = Edit(version: int, body: Json, next: Metadata)

  /** `accepted` lists the versions recorded, oldest first. */
  datatype State = State(
    last: Option<int>,
    doc: Option<Metadata>,
    pending: seq<Edit>,
    accepted: seq<int>,
    failures: seq<Failure>)

  datatype Step =
    | Receive(env: Envelope)
    | Finish(index: nat, ok: bool) // the editor applied the edit, or refused it
    | OtherEdit(key: string, value: Json) // someone else changes another metadata key

  // ---- the steps -----------------------------------------------------------------------------

  function Major(v: string): string {
    Split(v, '.')[0]
  }

  /** The checks of `onNotebookMetadata`, in order. */
  function Check(last: Option<int>, env: Envelope): Option<Failure> {
    if env.mode != "snapshot" then Some(UnsupportedMode)
    else if env.snapshot.None? then Some(ApplyFailed)
    else if Major(env.snapshot.value.schemaVersion) != SCHEMA_MAJOR then Some(SchemaMismatch)
    else if last.Some? && env.version < last.value then Some(NonMonotonic)
    else None
  }

  function OnEnvelope(s: State, env: Envelope): State {
    var failure := Check(s.last, env);
    if failure.Some? then s.(failures := s.failures + [failure.value])
    else if s.doc.None? then s.(failures := s.failures + [NoActiveNotebook])
    else
      var body := env.snapshot.value.body;
      s.(pending := s.pending + [Edit(env.version, body, s.doc.value["rts" := body])])
  }

  function OnApplied(s: State, i: nat, ok: bool): State
    requires i < |s.pending|
  {
    var e := s.pending[i];
    var rest := s.pending[..i] + s.pending[i + 1..];
    if ok then s.(last := Some(e.version), doc := Some(e.next), pending := rest, accepted := s.accepted + [e.version])
    else s.(pending := rest, failures := s.failures + [ApplyFailed])
  }

  predicate Enabled(s: State, step: Step) {
    match step
    case Finish(i, _) => i < |s.pending|
    case OtherEdit(key, _) => key != "rts" && s.doc.Some?
    case _ => true
  }

  function Apply(s: State, step: Step): State
    requires Enabled(s, step)
  {
    match step
    case Receive(env) => OnEnvelope(s, env)
    case Finish(i, ok) => OnApplied(s, i, ok)
    case OtherEdit(key, value) => s.(doc := Some(s.doc.value[key := value]))
  }

  class Applier {
    var lastAcceptedVersion: Option<int>
    var doc: Option<Metadata>
    var pending: seq<Edit>
    var accepted: seq<int>
    var failures: seq<Failure>

    ghost function View(): State
      reads this
    {
      State(lastAcceptedVersion, doc, pending, accepted, failures)
    }

    constructor (doc: Option<Metadata>)
      ensures View() == State(None, doc, [], [], [])
    {
      this.doc := doc;
      lastAcceptedVersion, pending, accepted, failures := None, [], [], [];
    }

    method OnNotebookMetadata(env: Envelope)
      modifies this
      ensures View() == OnEnvelope(old(View()), env)
    {
      if env.mode != "snapshot" {
        failures := failures + [UnsupportedMode];
        return;
      }
      if env.snapshot.None? {
        failures := failures + [ApplyFailed];
        return;
      }
      var snapshot := env.snapshot.value;
      if Major(snapshot.schemaVersion) != SCHEMA_MAJOR {
        failures := failures + [SchemaMismatch];
        return;
      }
      if lastAcceptedVersion.Some? && env.version < lastAcceptedVersion.value {
        failures := failures + [NonMonotonic];
        return;
      }
      BeginApply(snapshot.body, env.version);
    }

    /** `apply` up to its await: the new metadata is computed here, before the await. */
    method BeginApply(body: Json, version: int)
      modifies this
      ensures old(doc).None? ==> View() == old(View()).(failures := old(failures) + [NoActiveNotebook])
      ensures old(doc).Some? ==>
                var edit := Edit(version, body, old(doc).value["rts" := body]);
                View() == old(View()).(pending := old(pending) + [edit])
    {
      if doc.None? {
        failures := failures + [NoActiveNotebook];
        return;
      }
      pending := pending + [Edit(version, body, doc.value["rts" := body])];
    }

    /** `apply` after its await. */
    method FinishApply(i: nat, ok: bool)
      requires i < |pending|
      modifies this
      ensures View() == OnApplied(old(View()), i, ok)
    {
      var e := pending[i];
      pending := pending[..i] + pending[i + 1..];
      if !ok {
        failures := failures + [ApplyFailed];
        return;
      }
      doc := Some(e.next);
      lastAcceptedVersion := Some(e.version);
      accepted := accepted + [e.version];
    }
  }

  // ---- which envelopes are applied -----------------------------------------------------------------

  /** What the applier asks of an envelope's own fields: a snapshot of schema version 1, whatever follows the dot. */
  predicate Readable(env: Envelope) {
    && env.mode == "snapshot" && env.snapshot.Some?
    && (env.snapshot.value.schemaVersion == "1" || "1." <= env.snapshot.value.schemaVersion)
  }

  lemma ReadableChecks(last: Option<int>, env: Envelope)
    ensures Check(last, env).None? <==> Readable(env) && (last.Some? ==> last.value <= env.version)
    ensures env.mode == "snapshot" && env.snapshot.Some? && !Readable(env) ==> Check(last, env) == Some(SchemaMismatch)
    ensures Readable(env) && Check(last, env).Some? ==> Check(last, env) == Some(NonMonotonic)
  {
    if env.snapshot.Some? {
      FirstPartIs(env.snapshot.value.schemaVersion, '.', "1");
      assert "1" + ['.'] == "1.";
    }
  }

  /** An envelope starts an edit of the document's `rts` if and only if it is readable, not older than the version
      recorded last, and a notebook is open.  Otherwise exactly one failure is reported, which names the first of these
      that does not hold. */
  lemma StartsExactly(s: State, env: Envelope)
    ensures var t := OnEnvelope(s, env);
      if Readable(env) && (s.last.Some? ==> s.last.value <= env.version) && s.doc.Some? then
        t == s.(pending := s.pending + [Edit(env.version, env.snapshot.value.body,
                                             s.doc.value["rts" := env.snapshot.value.body])])
      else
        t == s.(failures := s.failures
          + [if env.mode != "snapshot" then UnsupportedMode
             else if env.snapshot.None? then ApplyFailed
             else if !Readable(env) then SchemaMismatch
             else if s.last.Some? && env.version < s.last.value then NonMonotonic
             else NoActiveNotebook])
  {
    ReadableChecks(s.last, env);
  }

  /** Some readable envelope of the run carries the version. */
  predicate Sent(steps: seq<Step>, v: int) {
    exists x :: x in steps && x.Receive? && Readable(x.env) && x.env.version == v
  }

  /** In every run, every version recorded was carried by a readable envelope of that run, unless it was recorded or in
      flight before. */
  lemma {:induction false} AcceptedWereSent(s: State, steps: seq<Step>, t: State, v: int)
    requires IsRun(s, steps, t) && (v in t.accepted || exists e :: e in t.pending && e.version == v)
    ensures v in s.accepted || (exists e :: e in s.pending && e.version == v) || Sent(steps, v)
    decreases |steps|
  {
    if steps != [] {
      var x := steps[0];
      AcceptedWereSent(Apply(s, x), steps[1..], t, v);
      if Sent(steps[1..], v) {
        var y :| y in steps[1..] && y.Receive? && Readable(y.env) && y.env.version == v;
        assert y in steps;
      } else {
        OneStepSent(s, x, v);
      }
    }
  }

  lemma OneStepSent(s: State, x: Step, v: int)
    requires Enabled(s, x) && (v in Apply(s, x).accepted || exists e :: e in Apply(s, x).pending && e.version == v)
    ensures v in s.accepted || (exists e :: e in s.pending && e.version == v)
         || (x.Receive? && Readable(x.env) && x.env.version == v)
  {
    match x
    case Receive(env) => ReadableChecks(s.last, env);
    case Finish(i, ok) =>
      assert s.pending[i] in s.pending;
      forall e | e in Apply(s, x).pending ensures e in s.pending {
      }
    case OtherEdit(_, _) =>
  }

  // ---- one edit at a time ------------------------------------------------------------------------

  predicate Sorted(vs: seq<int>) {
    forall i, j :: 0 <= i < j < |vs| ==> vs[i] <= vs[j]
  }

  ghost predicate IsRun(s: State, steps: seq<Step>, t: State)
    decreases |steps|
  {
    if steps == [] then s == t else Enabled(s, steps[0]) && IsRun(Apply(s, steps[0]), steps[1..], t)
  }

  /** Each edit finishes before the next envelope arrives and before anyone else edits. */
  ghost predicate OneAtATime(s: State, steps: seq<Step>)
    decreases |steps|
  {
    steps == [] || ((steps[0].Finish? || s.pending == [])
                    && (Enabled(s, steps[0]) ==> OneAtATime(Apply(s, steps[0]), steps[1..])))
  }

  /** The metadata keys other than `rts`. */
  function Others(m: Metadata): Metadata {
    m - {"rts"}
  }

  predicate LastIs(s: State) {
    && (s.last.None? <==> s.accepted == [])
    && (s.last.Some? ==> s.accepted[|s.accepted| - 1] == s.last.value)
  }

  ghost predicate SequentialInv(s: State) {
    && LastIs(s) && Sorted(s.accepted) && |s.pending| <= 1
    && (s.pending != [] ==>
          && s.doc.Some? && s.pending[0].next == s.doc.value["rts" := s.pending[0].body]
          && (s.last.Some? ==> s.last.value <= s.pending[0].version))
  }

  lemma SequentialStep(s: State, step: Step)
    requires SequentialInv(s) && Enabled(s, step) && (step.Finish? || s.pending == [])
    ensures SequentialInv(Apply(s, step))
    ensures !step.OtherEdit? && s.doc.Some? ==>
              Apply(s, step).doc.Some? && Others(Apply(s, step).doc.value) == Others(s.doc.value)
  {
    if step.Finish? && step.ok {
      var e := s.pending[step.index];
      assert Others(e.next) == Others(s.doc.value);
      SortedAfterLast(s, e.version);
    }
  }

  lemma SortedAfterLast(s: State, v: int)
    requires LastIs(s) && Sorted(s.accepted) && (s.last.Some? ==> s.last.value <= v)
    ensures Sorted(s.accepted + [v])
  {
    SortedSnoc(s.accepted, v);
  }

  /** The snapshot the document should show: the body of the last edit that was applied. */
  ghost function Shown(s: State, steps: seq<Step>, body: Option<Json>): Option<Json>
    decreases |steps|
  {
    if steps == [] || !Enabled(s, steps[0]) then body
    else Shown(Apply(s, steps[0]), steps[1..],
               if steps[0].Finish? && steps[0].ok then Some(s.pending[steps[0].index].body) else body)
  }

  predicate ShowsRts(doc: Option<Metadata>, body: Option<Json>) {
    body.Some? ==> doc.Some? && "rts" in doc.value && doc.value["rts"] == body.value
  }

  /** One edit at a time: accepted versions never decrease and the document's `rts` is always the
      snapshot accepted last. */
  lemma {:induction false} SequentialRuns(s: State, steps: seq<Step>, t: State, body: Option<Json>)
    requires SequentialInv(s) && IsRun(s, steps, t) && OneAtATime(s, steps) && ShowsRts(s.doc, body)
    ensures SequentialInv(t) && Sorted(t.accepted)
    ensures ShowsRts(t.doc, Shown(s, steps, body))
    decreases |steps|
  {
    if steps != [] {
      SequentialStep(s, steps[0]);
      SequentialRuns(Apply(s, steps[0]), steps[1..], t,
                     if steps[0].Finish? && steps[0].ok then Some(s.pending[steps[0].index].body) else body);
    }
  }

  /** Every edit in flight leaves the other keys as the document has them. */
  ghost predicate Aligned(s: State) {
    forall e <- s.pending :: s.doc.Some? && Others(e.next) == Others(s.doc.value)
  }

  lemma AlignedStep(s: State, step: Step)
    requires Aligned(s) && Enabled(s, step) && s.doc.Some? && !step.OtherEdit?
    ensures var t := Apply(s, step);
      Aligned(t) && t.doc.Some? && Others(t.doc.value) == Others(s.doc.value)
  {
    var t := Apply(s, step);
    if step.Finish? {
      assert s.pending[step.index] in s.pending;
      forall e | e in t.pending ensures e in s.pending {
      }
    } else {
      forall e | e in t.pending && e !in s.pending ensures Others(e.next) == Others(s.doc.value) {
      }
    }
  }

  /** If nobody else edits, every other metadata key is untouched by the whole run, however many snapshots are in
      flight and in whatever order they finish. */
  lemma {:induction false} OtherKeysKept(s: State, steps: seq<Step>, t: State)
    requires Aligned(s) && IsRun(s, steps, t) && s.doc.Some?
    requires forall x <- steps :: !x.OtherEdit?
    ensures t.doc.Some? && Others(t.doc.value) == Others(s.doc.value)
    decreases |steps|
  {
    if steps != [] {
      assert !steps[0].OtherEdit?;
      AlignedStep(s, steps[0]);
      OtherKeysKept(Apply(s, steps[0]), steps[1..], t);
    }
  }

  // ---- an edit by someone else -----------------------------------------------------------------------

  predicate Shows(m: Metadata, key: string, value: Json) {
    key in m && m[key] == value
  }

  /** The document shows the value now and after every step. */
  ghost predicate ShownThroughout(s: State, steps: seq<Step>, key: string, value: Json)
    decreases |steps|
  {
    && s.doc.Some? && Shows(s.doc.value, key, value)
    && (steps != [] && Enabled(s, steps[0]) ==> ShownThroughout(Apply(s, steps[0]), steps[1..], key, value))
  }

  /** None of the oldest n edits in flight is applied: each is refused, or still in flight at the end. */
  ghost predicate NoneApplied(s: State, steps: seq<Step>, n: nat)
    decreases |steps|
  {
    steps != [] && Enabled(s, steps[0]) ==>
      var x := steps[0];
      && !(x.Finish? && x.ok && x.index < n)
      && NoneApplied(Apply(s, x), steps[1..], if x.Finish? && x.index < n then n - 1 else n)
  }

  /** The oldest n edits in flight would undo the value; the later ones, begun since, carry it. */
  predicate SplitAt(s: State, key: string, value: Json, n: nat) {
    && n <= |s.pending|
    && (forall i :: 0 <= i < n ==> !Shows(s.pending[i].next, key, value))
    && (forall i :: n <= i < |s.pending| ==> Shows(s.pending[i].next, key, value))
  }

  predicate NotTo(key: string, steps: seq<Step>) {
    forall x <- steps :: x.OtherEdit? ==> x.key != key
  }

  lemma SplitStep(s: State, step: Step, key: string, value: Json, n: nat)
    requires Enabled(s, step) && key != "rts"
    requires s.doc.Some? && Shows(s.doc.value, key, value) && SplitAt(s, key, value, n)
    requires (step.OtherEdit? ==> step.key != key) && !(step.Finish? && step.ok && step.index < n)
    ensures var t := Apply(s, step);
      && t.doc.Some? && Shows(t.doc.value, key, value)
      && SplitAt(t, key, value, if step.Finish? && step.index < n then n - 1 else n)
  {
    match step
    case Receive(env) => SplitReceive(s, env, key, value, n);
    case Finish(i, ok) => SplitFinish(s, i, ok, key, value, n);
    case OtherEdit(_, _) =>
  }

  lemma SplitReceive(s: State, env: Envelope, key: string, value: Json, n: nat)
    requires s.doc.Some? && Shows(s.doc.value, key, value) && SplitAt(s, key, value, n) && key != "rts"
    ensures var t := OnEnvelope(s, env); t.doc == s.doc && SplitAt(t, key, value, n)
  {
    var t := OnEnvelope(s, env);
    if t.pending != s.pending {
      assert t.pending == s.pending + [t.pending[|s.pending|]];
    }
  }

  lemma SplitFinish(s: State, k: nat, ok: bool, key: string, value: Json, n: nat)
    requires s.doc.Some? && Shows(s.doc.value, key, value) && SplitAt(s, key, value, n) && k < |s.pending|
    requires ok ==> k >= n
    ensures var t := OnApplied(s, k, ok);
      t.doc.Some? && Shows(t.doc.value, key, value) && SplitAt(t, key, value, if k < n then n - 1 else n)
  {
    var t := OnApplied(s, k, ok);
    forall i | 0 <= i < |t.pending| ensures t.pending[i] == s.pending[if i < k then i else i + 1] {
    }
  }

  /** An edit by someone else to another key, made while snapshots are in flight whose edits would undo it, stays in
      the document if and only if none of those is applied after it; new snapshots carry it. */
  lemma {:induction false} ForeignEditExactly(s: State, steps: seq<Step>, t: State, key: string, value: Json, n: nat)
    requires IsRun(s, steps, t) && NotTo(key, steps) && key != "rts"
    requires s.doc.Some? && Shows(s.doc.value, key, value) && SplitAt(s, key, value, n)
    ensures ShownThroughout(s, steps, key, value) <==> NoneApplied(s, steps, n)
    decreases |steps|
  {
    if steps != [] {
      var x := steps[0];
      assert x in steps && NotTo(key, steps[1..]);
      if x.Finish? && x.ok && x.index < n {
        assert !ShownThroughout(Apply(s, x), steps[1..], key, value);
      } else {
        SplitStep(s, x, key, value, n);
        ForeignEditExactly(Apply(s, x), steps[1..], t, key, value, if x.Finish? && x.index < n then n - 1 else n);
      }
    }
  }

  /** For example, an edit made between a snapshot's arrival and its application is lost. */
  lemma ForeignEditLost(key: string, value: Json)
    requires key != "rts"
    ensures var s := Apply(State(None, Some(map[]), [], [], []), Snap(1));
      var t := Apply(Apply(s, OtherEdit(key, value)), Finish(0, true));
      |s.pending| == 1 && t.doc.Some? && key !in t.doc.value
  {
    MajorOne();
  }

  // ---- edits in flight together --------------------------------------------------------------------

  function Versions(es: seq<Edit>): (vs: seq<int>)
    ensures |vs| == |es| && forall i :: 0 <= i < |es| ==> vs[i] == es[i].version
  {
    seq(|es|, i requires 0 <= i < |es| => es[i].version)
  }

  /** Edits finish in the order they were begun, all successfully. */
  predicate InOrder(steps: seq<Step>) {
    forall x <- steps :: x.Finish? ==> x.index == 0 && x.ok
  }

  /** The guard a caller can check: an envelope that passes the check is not older than any edit
      still in flight. */
  predicate NotOvertaken(s: State, step: Step) {
    step.Receive? && Check(s.last, step.env).None? && s.doc.Some? ==>
      forall e <- s.pending :: e.version <= step.env.version
  }

  ghost predicate NeverOvertaken(s: State, steps: seq<Step>)
    decreases |steps|
  {
    steps == [] || (NotOvertaken(s, steps[0])
                    && (Enabled(s, steps[0]) ==> NeverOvertaken(Apply(s, steps[0]), steps[1..])))
  }

  /** Everything accepted so far and still to be accepted, in order. */
  function Track(s: State): seq<int> {
    s.accepted + Versions(s.pending)
  }

  lemma VersionsCons(e: Edit, es: seq<Edit>)
    ensures Versions([e] + es) == [e.version] + Versions(es)
  {
  }

  lemma VersionsSnoc(es: seq<Edit>, e: Edit)
    ensures Versions(es + [e]) == Versions(es) + [e.version]
  {
  }

  lemma FinishTrack(s: State)
    requires LastIs(s) && s.pending != []
    ensures LastIs(OnApplied(s, 0, true)) && Track(OnApplied(s, 0, true)) == Track(s)
  {
    var e, rest := s.pending[0], s.pending[1..];
    assert s.pending == [e] + rest && s.pending[..0] + rest == rest;
    VersionsCons(e, rest);
    Shift(s.accepted, e.version, Versions(rest));
  }

  lemma Shift(a: seq<int>, v: int, b: seq<int>)
    ensures a + ([v] + b) == (a + [v]) + b
  {
  }

  lemma ReceiveTrack(s: State, env: Envelope)
    requires LastIs(s) && Check(s.last, env).None? && s.doc.Some?
    ensures LastIs(OnEnvelope(s, env)) && Track(OnEnvelope(s, env)) == Track(s) + [env.version]
  {
    var e := OnEnvelope(s, env).pending[|s.pending|];
    VersionsSnoc(s.pending, e);
  }

  lemma TrackStep(s: State, step: Step)
    requires LastIs(s) && Enabled(s, step) && InOrder([step])
    ensures LastIs(Apply(s, step))
    ensures var passes := step.Receive? && Check(s.last, step.env).None? && s.doc.Some?;
      Track(Apply(s, step)) == if passes then Track(s) + [step.env.version] else Track(s)
  {
    assert step in [step];
    if step.Finish? {
      FinishTrack(s);
    } else if step.Receive? && Check(s.last, step.env).None? && s.doc.Some? {
      ReceiveTrack(s, step.env);
    }
  }

  /** Extending a sorted track keeps it sorted exactly when the envelope is not overtaken. */
  lemma TrackSorted(s: State, step: Step)
    requires LastIs(s) && Enabled(s, step) && InOrder([step]) && Sorted(Track(s))
    ensures Sorted(Track(Apply(s, step))) <==> NotOvertaken(s, step)
  {
    TrackStep(s, step);
    if step.Receive? && Check(s.last, step.env).None? && s.doc.Some? {
      SortedSnoc(Track(s), step.env.version);
      TrackBelow(s, step.env.version);
    }
  }

  predicate AllUpTo(vs: seq<int>, v: int) {
    forall i :: 0 <= i < |vs| ==> vs[i] <= v
  }

  lemma SortedSnoc(vs: seq<int>, v: int)
    requires Sorted(vs)
    ensures Sorted(vs + [v]) <==> AllUpTo(vs, v)
  {
    if Sorted(vs + [v]) {
      forall i | 0 <= i < |vs| ensures vs[i] <= v {
        assert (vs + [v])[i] <= (vs + [v])[|vs|];
      }
    }
  }

  lemma UpToConcat(a: seq<int>, b: seq<int>, v: int)
    requires Sorted(a + b) && (a != [] ==> a[|a| - 1] <= v)
    ensures AllUpTo(a + b, v) <==> AllUpTo(b, v)
  {
    forall i | 0 <= i < |a| ensures (a + b)[i] <= v {
      assert (a + b)[|a| - 1] == a[|a| - 1];
    }
    if AllUpTo(a + b, v) {
      forall k | 0 <= k < |b| ensures b[k] <= v {
        assert (a + b)[|a| + k] == b[k];
      }
    }
  }

  lemma PendingUpTo(es: seq<Edit>, v: int)
    ensures AllUpTo(Versions(es), v) <==> forall e <- es :: e.version <= v
  {
    forall k | 0 <= k < |es| ensures es[k] in es && Versions(es)[k] == es[k].version {
    }
  }

  /** What was accepted lies below the last version: only edits in flight can lie above a version that passes. */
  lemma TrackBelow(s: State, v: int)
    requires LastIs(s) && Sorted(Track(s)) && (s.last.Some? ==> s.last.value <= v)
    ensures AllUpTo(Track(s), v) <==> forall e <- s.pending :: e.version <= v
  {
    UpToConcat(s.accepted, Versions(s.pending), v);
    PendingUpTo(s.pending, v);
  }

  lemma UnsortedPrefix(a: seq<int>, b: seq<int>)
    requires a <= b && !Sorted(a)
    ensures !Sorted(b)
  {
    var i, j :| 0 <= i < j < |a| && a[i] > a[j];
    assert b[i] > b[j];
  }

  lemma UnsortedStep(s: State, step: Step)
    requires LastIs(s) && Enabled(s, step) && InOrder([step]) && !Sorted(Track(s))
    ensures LastIs(Apply(s, step)) && !Sorted(Track(Apply(s, step)))
  {
    TrackStep(s, step);
    assert Track(s) <= Track(Apply(s, step));
    UnsortedPrefix(Track(s), Track(Apply(s, step)));
  }

  lemma {:induction false} UnsortedStays(s: State, steps: seq<Step>, t: State)
    requires LastIs(s) && IsRun(s, steps, t) && InOrder(steps) && !Sorted(Track(s))
    ensures !Sorted(Track(t))
    decreases |steps|
  {
    if steps != [] {
      assert steps[0] in steps && InOrder([steps[0]]);
      UnsortedStep(s, steps[0]);
      UnsortedStays(Apply(s, steps[0]), steps[1..], t);
    }
  }

  /** Edits in flight together, applied in order: once all have finished, the accepted versions have
      never decreased if and only if no envelope was overtaken when it was checked. */
  lemma {:induction false} OverlappingRuns(s: State, steps: seq<Step>, t: State)
    requires LastIs(s) && IsRun(s, steps, t) && InOrder(steps) && t.pending == [] && Sorted(Track(s))
    ensures Sorted(t.accepted) <==> NeverOvertaken(s, steps)
    decreases |steps|
  {
    if steps == [] {
      assert Track(t) == t.accepted;
    } else {
      assert steps[0] in steps && InOrder([steps[0]]) && InOrder(steps[1..]);
      TrackStep(s, steps[0]);
      TrackSorted(s, steps[0]);
      if NotOvertaken(s, steps[0]) {
        OverlappingRuns(Apply(s, steps[0]), steps[1..], t);
      } else {
        UnsortedStays(Apply(s, steps[0]), steps[1..], t);
        assert Track(t) == t.accepted;
      }
    }
  }

  /** Edits finish in the order they were begun; any of them may be refused. */
  predicate OldestFirst(steps: seq<Step>) {
    forall x <- steps :: x.Finish? ==> x.index == 0
  }

  lemma RefusedTrack(s: State)
    requires LastIs(s) && s.pending != [] && Sorted(Track(s))
    ensures LastIs(OnApplied(s, 0, false)) && Sorted(Track(OnApplied(s, 0, false)))
  {
    var e, rest := s.pending[0], s.pending[1..];
    assert s.pending == [e] + rest && s.pending[..0] + rest == rest;
    VersionsCons(e, rest);
    DropOne(s.accepted, e.version, Versions(rest));
  }

  lemma DropOne(a: seq<int>, v: int, b: seq<int>)
    requires Sorted(a + ([v] + b))
    ensures Sorted(a + b)
  {
    var n, all := |a|, a + ([v] + b);
    forall i, j | 0 <= i < j < n + |b| ensures (a + b)[i] <= (a + b)[j] {
      assert all[if i < n then i else i + 1] == (a + b)[i] && all[if j < n then j else j + 1] == (a + b)[j];
    }
  }

  /** With refusals too: if no envelope that passed was overtaken, the accepted versions never decrease. */
  lemma {:induction false} RefusedRuns(s: State, steps: seq<Step>, t: State)
    requires LastIs(s) && IsRun(s, steps, t) && OldestFirst(steps) && Sorted(Track(s)) && NeverOvertaken(s, steps)
    ensures Sorted(Track(t)) && Sorted(t.accepted)
    decreases |steps|
  {
    if steps == [] {
      assert forall i :: 0 <= i < |t.accepted| ==> t.accepted[i] == Track(t)[i];
    } else {
      assert steps[0] in steps && OldestFirst(steps[1..]);
      if steps[0].Finish? && !steps[0].ok {
        RefusedTrack(s);
      } else {
        assert InOrder([steps[0]]);
        TrackStep(s, steps[0]);
        TrackSorted(s, steps[0]);
      }
      RefusedRuns(Apply(s, steps[0]), steps[1..], t);
    }
  }

  // ---- any order -----------------------------------------------------------------------------------

  /** The check the applier does not repeat after its await. */
  predicate Stale(s: State, step: Step)
    requires Enabled(s, step)
  {
    step.Finish? && step.ok && s.last.Some? && s.pending[step.index].version < s.last.value
  }

  ghost predicate NeverStale(s: State, steps: seq<Step>)
    decreases |steps|
  {
    steps != [] && Enabled(s, steps[0]) ==> !Stale(s, steps[0]) && NeverStale(Apply(s, steps[0]), steps[1..])
  }

  lemma {:induction false} AcceptedGrows(s: State, steps: seq<Step>, t: State)
    requires IsRun(s, steps, t)
    ensures s.accepted <= t.accepted
    decreases |steps|
  {
    if steps != [] {
      AcceptedGrows(Apply(s, steps[0]), steps[1..], t);
    }
  }

  lemma AcceptSorted(s: State, step: Step)
    requires LastIs(s) && Sorted(s.accepted) && Enabled(s, step)
    ensures LastIs(Apply(s, step)) && (Sorted(Apply(s, step).accepted) <==> !Stale(s, step))
  {
    if step.Finish? && step.ok && s.accepted != [] {
      var n, v := |s.accepted|, s.pending[step.index].version;
      var all := s.accepted + [v];
      assert all[n - 1] == s.last.value && all[n] == v;
      forall i | 0 <= i < n && !Stale(s, step) ensures all[i] <= v {
        assert i == n - 1 || s.accepted[i] <= s.accepted[n - 1];
      }
    }
  }

  /** In every run, whatever finishes when and whatever is refused: the accepted versions never decrease if and only if
      no edit is recorded whose version is below the last one recorded at that moment. */
  lemma {:induction false} EveryRunExactly(s: State, steps: seq<Step>, t: State)
    requires LastIs(s) && Sorted(s.accepted) && IsRun(s, steps, t)
    ensures Sorted(t.accepted) <==> NeverStale(s, steps)
    decreases |steps|
  {
    if steps != [] {
      var next := Apply(s, steps[0]);
      AcceptSorted(s, steps[0]);
      if Stale(s, steps[0]) {
        AcceptedGrows(next, steps[1..], t);
        var i, j :| 0 <= i < j < |next.accepted| && next.accepted[i] > next.accepted[j];
        assert t.accepted[i] > t.accepted[j];
      } else {
        EveryRunExactly(next, steps[1..], t);
      }
    }
  }

  function Snap(v: int): Step {
    Receive(Envelope("snapshot", v, Some(Snapshot("1.0.0", Num(v)))))
  }

  /** Two envelopes in flight: the second is older, passes the check, and the version drops. */
  lemma VersionDrops()
    ensures var s0 := State(None, Some(map[]), [], [], []);
      var s2 := Apply(Apply(s0, Snap(5)), Snap(3));
      var t := Apply(Apply(s2, Finish(0, true)), Finish(0, true));
      && t.accepted == [5, 3] && t.last == Some(3) && t.pending == []
  {
    var s0 := State(None, Some(map[]), [], [], []);
    MajorOne();
    var s1 := Apply(s0, Snap(5));
    var s2 := Apply(s1, Snap(3));
    var s3 := Apply(s2, Finish(0, true));
    assert s3.last == Some(5) && |s3.pending| == 1 && s3.pending[0].version == 3;
  }

  lemma MajorOne()
    ensures Major("1.0.0") == SCHEMA_MAJOR
  {
    assert "1.0.0" == "1" + ['.'] + "0.0";
    SplitConcat("1", "0.0", '.');
    SplitNoSep("1", '.');
  }
}
