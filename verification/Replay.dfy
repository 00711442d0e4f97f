/**
  Stub-mode runs and their replay (llm_client/executor.py, `_run_stub_mode`, `_run_replay_mode`
  and `_stamp_cell_response`).  A recording is the list of entries a stub run writes, one JSON
  line each; reading a line back is taken to give the entry written.
 */
module Replay {
  import opened Common
  import opened Json

  /** A reply: the fields of its payload that the drivers read or stamp, and everything else. */
  datatype Response = Response(
    status: Option<Json>, outputs: Option<Json>, cellId: Option<Json>, ordinal: Option<Json>, others: map<string, Json>)

  datatype Record = NotDict | Dict(text: string, kind: string, agent: Option<string>, outputs: seq<Json>)

  type Cells = map<string, Record>

  /** What a line of a recording says was sent: null, or an envelope with the cell id it names, if any. */
  datatype Sent = NullSent | Envelope(cellId: Option<string>)

  /** One line of a recording: what was sent, and the reply. */
  datatype Entry = Entry(sent: Sent, received: Response)

  datatype Outcome = Outcome(cells: Cells, succeeded: seq<Response>, failed: seq<Response>)

  datatype Replayed = Replayed(outcome: Outcome) | LengthMismatch | CellMismatch(index: nat) | Crashed(index: nat)

  /** The stub registry: any function of kind, text and agent. */
  type Registry = (string, string, Option<string>) -> Response

  // ---- order of execution ------------------------------------------------------------------------

  /** Layout order first, then the cells the layout does not mention, in dictionary order. */
  function OrderedIds(walk: seq<string>, keys: seq<string>): seq<string>
    decreases |keys|
  {
    if keys == [] then walk
    else OrderedIds(if keys[0] in walk then walk else walk + [keys[0]], keys[1..])
  }

  method OrderedIdsLoop(walk: seq<string>, keys: seq<string>) returns (ids: seq<string>)
    ensures ids == OrderedIds(walk, keys)
    ensures walk <= ids && forall k :: k in ids <==> k in walk || k in keys
  {
    ids := walk;
    for i := 0 to |keys|
      invariant OrderedIds(ids, keys[i..]) == OrderedIds(walk, keys)
      invariant walk <= ids && forall k :: k in ids <==> k in walk || k in keys[..i]
    {
      assert keys[i..][1..] == keys[i + 1..] && keys[..i + 1] == keys[..i] + [keys[i]];
      if keys[i] !in ids {
        ids := ids + [keys[i]];
      }
    }
    assert keys[..|keys|] == keys;
  }

  // ---- one reply -----------------------------------------------------------------------------------

  function Stamp(r: Response, id: string, ordinal: nat): Response {
    r.(cellId := Some(Str(id)), ordinal := Some(Num(ordinal)))
  }

  const OK := Str("ok")

  predicate IsOk(r: Response) {
    r.status.None? || r.status.value == OK
  }

  /** Python's falsy values; a zero that is no integer prints as 0.0 or -0.0. */
  predicate Falsy(j: Json) {
    match j
    case Null => true
    case Bool(b) => !b
    case Num(n) => n == 0
    case Fraction(text) => text == "0.0" || text == "-0.0"
    case Str(s) => s == ""
    case Arr(items) => items == []
    case Obj(members) => members == []
  }

  /** `payload.get("outputs") or []`, if it is a list. */
  function Outputs(r: Response): Option<seq<Json>> {
    if r.outputs.None? || Falsy(r.outputs.value) then Some([])
    else if r.outputs.value.Arr? then Some(r.outputs.value.items)
    else None
  }

  /** Filing a reply: the lists, and the outputs of the cell if it is a dictionary. */
  function Accept(o: Outcome, id: string, r: Response): Outcome {
    if !IsOk(r) then o.(failed := o.failed + [r])
    else
      var cells :=
        if Outputs(r).Some? && id in o.cells && o.cells[id].Dict?
        then o.cells[id := o.cells[id].(outputs := Outputs(r).value)] else o.cells;
      o.(cells := cells, succeeded := o.succeeded + [r])
  }

  type Filing = (Outcome, string, Response) -> Outcome

  // ---- the two drivers -------------------------------------------------------------------------------

  function Reply(registry: Registry, r: Record, id: string, ordinal: nat): Response
    requires r.Dict?
  {
    Stamp(registry(if r.kind == "" then "agent" else r.kind, r.text, r.agent), id, ordinal)
  }

  predicate Runs(cells: Cells, id: string) {
    id in cells && cells[id].Dict?
  }

  /** The stub run and its recording after the first n ordered ids. */
  function Stub(registry: Registry, cells: Cells, ids: seq<string>, n: nat): (Outcome, seq<Entry>)
    requires n <= |ids|
  {
    StubBy(Accept, registry, cells, ids, n)
  }

  function StubBy(f: Filing, registry: Registry, cells: Cells, ids: seq<string>, n: nat): (Outcome, seq<Entry>)
    requires n <= |ids|
  {
    if n == 0 then (Outcome(cells, [], []), [])
    else StubTurn(f, registry, StubBy(f, registry, cells, ids, n - 1), ids[n - 1], n - 1)
  }

  /** One id: skipped, or answered, recorded and filed. */
  function StubTurn(f: Filing, registry: Registry, s: (Outcome, seq<Entry>), id: string, ordinal: nat)
    : (Outcome, seq<Entry>)
  {
    if !Runs(s.0.cells, id) then s
    else
      var r := Reply(registry, s.0.cells[id], id, ordinal);
      (f(s.0, id, r), s.1 + [Entry(Envelope(Some(id)), r)])
  }

  method RunStub(registry: Registry, start: Cells, ids: seq<string>) returns (o: Outcome, log: seq<Entry>)
    ensures (o, log) == Stub(registry, start, ids, |ids|)
  {
    var cells, succeeded, failed := start, [], [];
    log := [];
    for ordinal := 0 to |ids|
      invariant (Outcome(cells, succeeded, failed), log) == Stub(registry, start, ids, ordinal)
    {
      var id := ids[ordinal];
      if id !in cells || cells[id].NotDict? {
        continue;
      }
      var record := cells[id];
      var canned := registry(if record.kind == "" then "agent" else record.kind, record.text, record.agent);
      var received := Stamp(canned, id, ordinal);
      log := log + [Entry(Envelope(Some(id)), received)];
      if IsOk(received) {
        succeeded := succeeded + [received];
        var outputs := Outputs(received);
        if outputs.Some? {
          cells := cells[id := record.(outputs := outputs.value)];
        }
      } else {
        failed := failed + [received];
      }
    }
    o := Outcome(cells, succeeded, failed);
  }

  /** Filing the first n entries of a recording. */
  function Refile(cells: Cells, ids: seq<string>, log: seq<Entry>, n: nat): Outcome
    requires n <= |ids| && n <= |log|
  {
    Fold(Accept, Outcome(cells, [], []), ids, log, n)
  }

  function Fold(f: Filing, o: Outcome, ids: seq<string>, log: seq<Entry>, n: nat): Outcome
    requires n <= |ids| && n <= |log|
  {
    if n == 0 then o else f(Fold(f, o, ids, log, n - 1), ids[n - 1], log[n - 1].received)
  }

  predicate Mismatch(e: Entry, id: string) {
    e.sent.Envelope? && e.sent.cellId.Some? && e.sent.cellId.value != id
  }

  /** The driver reads on past this entry: `sent` is no null and names no other cell. */
  predicate Passes(e: Entry, id: string) {
    e.sent.Envelope? && !Mismatch(e, id)
  }

  /** The replay driver: a length check, then entry by entry, stopping at the first mismatch; a null `sent` is
      dereferenced. */
  method RunReplay(start: Cells, ids: seq<string>, log: seq<Entry>) returns (r: Replayed)
    ensures r.LengthMismatch? <==> |log| != |ids|
    ensures r.CellMismatch? ==> r.index < |ids| == |log| && Mismatch(log[r.index], ids[r.index])
                                && forall j :: 0 <= j < r.index ==> Passes(log[j], ids[j])
    ensures r.Crashed? ==> r.index < |ids| == |log| && log[r.index].sent == NullSent
                           && forall j :: 0 <= j < r.index ==> Passes(log[j], ids[j])
    ensures r.Replayed? <==> |log| == |ids| && forall j :: 0 <= j < |ids| ==> Passes(log[j], ids[j])
    ensures r.Replayed? ==> |log| == |ids| && r.outcome == Refile(start, ids, log, |ids|)
  {
    if |log| != |ids| {
      return LengthMismatch;
    }
    var o := Outcome(start, [], []);
    for ordinal := 0 to |ids|
      invariant o == Refile(start, ids, log, ordinal)
      invariant forall j :: 0 <= j < ordinal ==> Passes(log[j], ids[j])
    {
      var id, entry := ids[ordinal], log[ordinal];
      if entry.sent == NullSent {
        return Crashed(ordinal);
      }
      if Mismatch(entry, id) {
        return CellMismatch(ordinal);
      }
      o := FileReply(o, id, entry.received);
    }
    return Replayed(o);
  }

  /** What the replay loop does with a reply. */
  method FileReply(before: Outcome, id: string, received: Response) returns (o: Outcome)
    ensures o == Accept(before, id, received)
  {
    o := before;
    if IsOk(received) {
      o := o.(succeeded := o.succeeded + [received]);
      var outputs := Outputs(received);
      if outputs.Some? && id in o.cells && o.cells[id].Dict? {
        o := o.(cells := o.cells[id := o.cells[id].(outputs := outputs.value)]);
      }
    } else {
      o := o.(failed := o.failed + [received]);
    }
  }

  // ---- what filing writes ----------------------------------------------------------------------------

  type Writes = map<string, seq<Json>>

  /** The outputs each cell ends up with, later entries last. */
  function WritesOf(ids: seq<string>, log: seq<Entry>, n: nat): Writes
    requires n <= |ids| && n <= |log|
  {
    if n == 0 then map[]
    else
      var w, r := WritesOf(ids, log, n - 1), log[n - 1].received;
      if IsOk(r) && Outputs(r).Some? then w[ids[n - 1] := Outputs(r).value] else w
  }

  function Overlay(cells: Cells, w: Writes): Cells {
    map id | id in cells :: if id in w && cells[id].Dict? then cells[id].(outputs := w[id]) else cells[id]
  }

  /** Filing changes outputs only, and those as the entries say. */
  lemma {:induction false} RefileOverlays(cells: Cells, ids: seq<string>, log: seq<Entry>, n: nat)
    requires n <= |ids| && n <= |log|
    ensures Refile(cells, ids, log, n).cells == Overlay(cells, WritesOf(ids, log, n))
  {
    if n > 0 {
      RefileOverlays(cells, ids, log, n - 1);
    }
  }

  lemma AcceptLists(a: Outcome, b: Outcome, id: string, r: Response)
    requires a.succeeded == b.succeeded && a.failed == b.failed
    ensures Accept(a, id, r).succeeded == Accept(b, id, r).succeeded
    ensures Accept(a, id, r).failed == Accept(b, id, r).failed
  {
  }

  /** The lists depend on the recording alone. */
  lemma {:induction false} RefileLists(a: Cells, b: Cells, ids: seq<string>, log: seq<Entry>, n: nat)
    requires n <= |ids| && n <= |log|
    ensures Refile(a, ids, log, n).succeeded == Refile(b, ids, log, n).succeeded
    ensures Refile(a, ids, log, n).failed == Refile(b, ids, log, n).failed
  {
    if n > 0 {
      RefileLists(a, b, ids, log, n - 1);
      AcceptLists(Refile(a, ids, log, n - 1), Refile(b, ids, log, n - 1), ids[n - 1], log[n - 1].received);
    }
  }

  lemma {:induction false} FoldPrefix(f: Filing, o: Outcome, ids: seq<string>, log: seq<Entry>, more: Entry, n: nat)
    requires n <= |ids| && n <= |log|
    ensures Fold(f, o, ids, log + [more], n) == Fold(f, o, ids, log, n)
  {
    if n > 0 {
      FoldPrefix(f, o, ids, log, more, n - 1);
      assert (log + [more])[n - 1] == log[n - 1];
    }
  }

  /** Told by the reply's fields: the status is absent or the text `ok`. */
  predicate Good(r: Response) {
    r.status.Some? ==> r.status.value == Str("ok")
  }

  /** The replies of the first n entries that are good, or those that are not, in order. */
  function Replies(log: seq<Entry>, n: nat, good: bool): seq<Response>
    requires n <= |log|
  {
    if n == 0 then []
    else Replies(log, n - 1, good) + if Good(log[n - 1].received) == good then [log[n - 1].received] else []
  }

  /** Filing sorts the replies into the two lists by their status, in order. */
  lemma {:induction false} FiledByStatus(cells: Cells, ids: seq<string>, log: seq<Entry>, n: nat)
    requires n <= |ids| && n <= |log|
    ensures Files(Refile(cells, ids, log, n), log, n)
  {
    if n > 0 {
      FiledByStatus(cells, ids, log, n - 1);
      RefileNext(cells, ids, log, n);
      FilesNext(Refile(cells, ids, log, n - 1), ids[n - 1], log, n);
    } else {
      assert Refile(cells, ids, log, 0) == Outcome(cells, [], []);
    }
  }

  predicate Files(o: Outcome, log: seq<Entry>, n: nat)
    requires n <= |log|
  {
    o.succeeded == Replies(log, n, true) && o.failed == Replies(log, n, false)
  }

  lemma FilesNext(o: Outcome, id: string, log: seq<Entry>, n: nat)
    requires 0 < n <= |log| && Files(o, log, n - 1)
    ensures Files(Accept(o, id, log[n - 1].received), log, n)
  {
    AcceptFiles(o, id, log[n - 1].received);
  }

  lemma RefileNext(cells: Cells, ids: seq<string>, log: seq<Entry>, n: nat)
    requires 0 < n <= |ids| && n <= |log|
    ensures Refile(cells, ids, log, n) == Accept(Refile(cells, ids, log, n - 1), ids[n - 1], log[n - 1].received)
  {
  }

  lemma AcceptFiles(o: Outcome, id: string, r: Response)
    ensures var t := Accept(o, id, r);
      && t.succeeded == o.succeeded + (if Good(r) then [r] else [])
      && t.failed == o.failed + (if Good(r) then [] else [r])
  {
  }

  /** What a good reply writes to its cell: its list of outputs; nothing if outputs are something else, unless that
      counts as absent, when the outputs are emptied. */
  lemma OutputsExactly(r: Response, items: seq<Json>)
    ensures Outputs(r) == Some(items) <==>
      (r.outputs == Some(Arr(items)) || (items == [] && (r.outputs.None? || Nothing(r.outputs.value))))
  {
  }

  /** The values other than a list that Python takes for false. */
  predicate Nothing(j: Json) {
    || j == Null || j == Bool(false) || j == Str("") || j == Obj([])
    || j == Num(0) || j == Fraction("0.0") || j == Fraction("-0.0")
  }

  /** Every reply of a stub run is the registry's answer for its cell, stamped with the cell and its ordinal. */
  lemma {:induction false} StubStamps(registry: Registry, cells: Cells, ids: seq<string>, n: nat, e: Entry)
    requires n <= |ids| && e in Stub(registry, cells, ids, n).1
    ensures exists k: nat :: k < n && Stamped(registry, cells, ids[k], k, e)
  {
    if e in Stub(registry, cells, ids, n - 1).1 {
      StubStamps(registry, cells, ids, n - 1, e);
    } else {
      StubKeepsText(registry, cells, ids, n - 1, ids[n - 1]);
      assert Stamped(registry, cells, ids[n - 1], n - 1, e);
    }
  }

  /** The answer of the registry for the cell's record as it was before the run, recorded and stamped for the cell; a
      record without a kind is an agent's. */
  predicate Stamped(registry: Registry, cells: Cells, id: string, k: nat, e: Entry) {
    id in cells && cells[id].Dict? && e.sent == Envelope(Some(id)) &&
    var r := cells[id];
    var answer := registry(if r.kind == "" then "agent" else r.kind, r.text, r.agent);
    e.received == answer.(cellId := Some(Str(id)), ordinal := Some(Num(k)))
  }

  /** A stub run changes nothing of a cell but its outputs. */
  lemma {:induction false} StubKeepsText(registry: Registry, cells: Cells, ids: seq<string>, n: nat, id: string)
    requires n <= |ids|
    ensures var now := Stub(registry, cells, ids, n).0.cells;
      && (Runs(now, id) <==> Runs(cells, id))
      && (Runs(now, id) ==> now[id] == cells[id].(outputs := now[id].outputs))
  {
    if n > 0 {
      StubKeepsText(registry, cells, ids, n - 1, id);
    }
  }

  // ---- replaying a stub recording ----------------------------------------------------------------------

  /** Filing never changes which ids have a dictionary. */
  ghost predicate KeepsRuns(f: Filing) {
    forall o, id, r, j :: Runs(f(o, id, r).cells, j) <==> Runs(o.cells, j)
  }

  lemma AcceptKeepsRuns()
    ensures KeepsRuns(Accept)
  {
  }

  lemma {:induction false} StubKeepsRuns(f: Filing, registry: Registry, cells: Cells, ids: seq<string>,
                                         n: nat, j: string)
    requires n <= |ids| && KeepsRuns(f)
    ensures Runs(StubBy(f, registry, cells, ids, n).0.cells, j) <==> Runs(cells, j)
  {
    if n > 0 {
      StubKeepsRuns(f, registry, cells, ids, n - 1, j);
    }
  }

  lemma {:induction false} StubLogLength(f: Filing, registry: Registry, cells: Cells, ids: seq<string>, n: nat)
    requires n <= |ids| && KeepsRuns(f)
    ensures var log := StubBy(f, registry, cells, ids, n).1;
      |log| <= n && (|log| == n <==> forall i :: 0 <= i < n ==> Runs(cells, ids[i]))
  {
    if n > 0 {
      StubLogLength(f, registry, cells, ids, n - 1);
      StubKeepsRuns(f, registry, cells, ids, n - 1, ids[n - 1]);
    }
  }

  /** While every id so far runs, the stub run is the filing of its own recording, which names the ids. */
  lemma {:induction false} StubFolds(f: Filing, registry: Registry, cells: Cells, ids: seq<string>, n: nat)
    requires n <= |ids| && KeepsRuns(f) && forall i :: 0 <= i < n ==> Runs(cells, ids[i])
    ensures var (o, log) := StubBy(f, registry, cells, ids, n);
      && |log| == n && o == Fold(f, Outcome(cells, [], []), ids, log, n)
      && forall i :: 0 <= i < n ==> log[i].sent == Envelope(Some(ids[i]))
  {
    if n > 0 {
      StubFolds(f, registry, cells, ids, n - 1);
      StubKeepsRuns(f, registry, cells, ids, n - 1, ids[n - 1]);
      var s := StubBy(f, registry, cells, ids, n - 1);
      var r := Reply(registry, s.0.cells[ids[n - 1]], ids[n - 1], n - 1);
      FoldPrefix(f, Outcome(cells, [], []), ids, s.1, Entry(Envelope(Some(ids[n - 1])), r), n - 1);
    }
  }

  lemma StubIsRefile(registry: Registry, cells: Cells, ids: seq<string>)
    requires forall i :: 0 <= i < |ids| ==> Runs(cells, ids[i])
    ensures var (o, log) := Stub(registry, cells, ids, |ids|);
      && |log| == |ids| && o == Refile(cells, ids, log, |ids|)
      && forall i :: 0 <= i < |ids| ==> log[i].sent == Envelope(Some(ids[i]))
  {
    AcceptKeepsRuns();
    StubFolds(Accept, registry, cells, ids, |ids|);
  }

  /** A recording made by a stub run is accepted by a replay of the same ids exactly when every
      ordered id has a dictionary record. */
  lemma StubRecordingAccepted(registry: Registry, cells: Cells, ids: seq<string>)
    ensures var log := Stub(registry, cells, ids, |ids|).1;
      (|log| == |ids| && forall i :: 0 <= i < |ids| ==> Passes(log[i], ids[i]))
      <==> forall i :: 0 <= i < |ids| ==> Runs(cells, ids[i])
  {
    AcceptKeepsRuns();
    StubLogLength(Accept, registry, cells, ids, |ids|);
    if forall i :: 0 <= i < |ids| ==> Runs(cells, ids[i]) {
      StubIsRefile(registry, cells, ids);
    }
  }

  /** Replaying a stub recording reproduces the run: the same two lists and the same final cells,
      whether on the notebook as it was before the run or on the notebook the run left. */
  lemma ReplayReproducesStub(registry: Registry, cells: Cells, ids: seq<string>)
    requires forall i :: 0 <= i < |ids| ==> Runs(cells, ids[i])
    ensures var (o, log) := Stub(registry, cells, ids, |ids|);
      |log| == |ids| && Refile(cells, ids, log, |ids|) == o && Refile(o.cells, ids, log, |ids|) == o
  {
    StubIsRefile(registry, cells, ids);
    var (o, log) := Stub(registry, cells, ids, |ids|);
    var w := WritesOf(ids, log, |ids|);
    RefileOverlays(cells, ids, log, |ids|);
    RefileOverlays(o.cells, ids, log, |ids|);
    RefileLists(cells, o.cells, ids, log, |ids|);
    assert Overlay(Overlay(cells, w), w) == Overlay(cells, w);
  }

  /** A stub run over a skipped id leaves a recording that no replay of the same ids accepts. */
  lemma SkippedIdRefused(registry: Registry, id: string)
    ensures var log := Stub(registry, map[id := NotDict], [id], 1).1; |log| != 1
  {
    assert Stub(registry, map[id := NotDict], [id], 0).1 == [];
  }
}
