/**
  The contamination registry (extension/src/notebook/contamination-badge.ts): an index of the cells'
  contamination, updated row by row from each snapshot, and its change event.
 */
module Contamination {
  import opened Common
  import opened Json

  datatype Slot = Slot(flag: bool, log: seq<Json>, agent: Option<string>)

  /** What the registry compares of a slot. */
  datatype Shape = Shape(flag: bool, entries: nat, agent: Option<string>)

  type Rows = map<string, Slot>

  /** An envelope; `cells` are the entries of the snapshot's cells object, if it has one. */
  datatype Payload = Payload(mode: string, cells: Option<seq<Member>>)

  function ShapeOf(s: Slot): Shape {
    Shape(s.flag, |s.log|, s.agent)
  }

  function Shapes(rows: Rows): map<string, Shape> {
    map id | id in rows :: ShapeOf(rows[id])
  }

  /** A row that is no object is malformed; an array is an object without the fields. */
  function Project(raw: Json): Option<Slot> {
    if !raw.Obj? && !raw.Arr? then None
    else
      var members := if raw.Obj? then raw.members else [];
      var log, agent := Field(members, "contamination_log"), Field(members, "bound_agent_id");
      Some(Slot(Field(members, "contaminated") == Bool(true),
                if log.Arr? then log.items else [],
                if agent.Str? then Some(agent.s) else None))
  }

  function Keys(cells: seq<Member>): set<string> {
    set m | m in cells :: m.key
  }

  function Get(rows: Rows, id: string): Option<Slot> {
    if id in rows then Some(rows[id]) else None
  }

  /** The slot a row leaves behind, given the slot before. */
  function SlotFor(prev: Option<Slot>, raw: Json): Option<Slot> {
    var next := Project(raw);
    if next.None? then prev
    else if prev.Some? && ShapeOf(prev.value) == ShapeOf(next.value) then prev
    else next
  }

  /** The registry after a snapshot: exactly the snapshot's ids, each with the slot its row leaves behind. */
  ghost predicate Updated(was: Rows, cells: seq<Member>, now: Rows) {
    && (forall id <- now :: id in Keys(cells))
    && (forall m <- cells :: Get(now, m.key) == SlotFor(Get(was, m.key), m.value))
  }

  /** The first i rows have been gone through, and no other slot has been touched. */
  ghost predicate RowsDone(was: Rows, cells: seq<Member>, i: nat, now: Rows)
    requires i <= |cells|
  {
    && (forall k :: 0 <= k < i ==> Get(now, cells[k].key) == SlotFor(Get(was, cells[k].key), cells[k].value))
    && forall id :: id !in Keys(cells[..i]) ==> Get(now, id) == Get(was, id)
  }

  lemma RowsNext(was: Rows, cells: seq<Member>, i: nat, mid: Rows, now: Rows)
    requires DistinctKeys(cells) && i < |cells| && RowsDone(was, cells, i, mid)
    requires Get(now, cells[i].key) == SlotFor(Get(mid, cells[i].key), cells[i].value)
    requires forall id :: id != cells[i].key ==> Get(now, id) == Get(mid, id)
    ensures RowsDone(was, cells, i + 1, now)
    ensures cells[i].key !in Keys(cells[..i]) && Keys(cells[..i + 1]) == Keys(cells[..i]) + {cells[i].key}
  {
    NewKey(cells, i);
    forall k | 0 <= k < i + 1
      ensures Get(now, cells[k].key) == SlotFor(Get(was, cells[k].key), cells[k].value)
    {
      if k < i {
        assert cells[k].key != cells[i].key;
      }
    }
  }

  lemma NewKey(cells: seq<Member>, i: nat)
    requires DistinctKeys(cells) && i < |cells|
    ensures cells[i].key !in Keys(cells[..i]) && Keys(cells[..i + 1]) == Keys(cells[..i]) + {cells[i].key}
  {
    assert cells[..i + 1] == cells[..i] + [cells[i]];
  }

  lemma DiffersStill(was: Rows, mid: Rows, now: Rows, id: string)
    requires DiffersAt(was, mid, id) && Get(now, id) == Get(mid, id)
    ensures DiffersAt(was, now, id)
  {
  }

  predicate Accepted(p: Payload) {
    p.mode == "snapshot" && p.cells.Some?
  }

  predicate WellFormed(p: Payload) {
    p.cells.Some? ==> DistinctKeys(p.cells.value)
  }

  class Registry {
    var byCellId: Rows
    var fired: nat // change events so far

    constructor ()
      ensures byCellId == map[] && fired == 0
    {
      byCellId, fired := map[], 0;
    }

    /** The incremental update.  The change event fires if and only if the compared projection changed. */
    method OnNotebookMetadata(p: Payload)
      requires WellFormed(p)
      modifies this
      ensures !Accepted(p) ==> byCellId == old(byCellId)
      ensures Accepted(p) ==> Updated(old(byCellId), p.cells.value, byCellId)
      ensures fired == old(fired) + if Shapes(byCellId) != Shapes(old(byCellId)) then 1 else 0
    {
      if p.mode != "snapshot" || p.cells.None? {
        return;
      }
      var cells := p.cells.value;
      ghost var was := byCellId;
      var changed, seen := UpdateRows(cells);
      changed := DropRows(was, seen, changed);
      ShapesDiffer(was, byCellId);
      if changed {
        fired := fired + 1;
      }
    }

    method UpdateRows(cells: seq<Member>) returns (changed: bool, seen: set<string>)
      requires DistinctKeys(cells)
      modifies this`byCellId
      ensures seen == Keys(cells)
      ensures forall m <- cells :: Get(byCellId, m.key) == SlotFor(Get(old(byCellId), m.key), m.value)
      ensures forall id :: id !in seen ==> Get(byCellId, id) == Get(old(byCellId), id)
      ensures changed <==> Changed(old(byCellId), byCellId)
      ensures !changed ==> byCellId == old(byCellId)
    {
      changed, seen := false, {};
      ghost var was, w := byCellId, "";
      for i := 0 to |cells|
        invariant seen == Keys(cells[..i]) && RowsDone(was, cells, i, byCellId)
        invariant changed ==> w in seen && DiffersAt(was, byCellId, w)
        invariant !changed ==> byCellId == was
      {
        ghost var mid := byCellId;
        var replaced := UpdateRow(cells[i].key, cells[i].value);
        RowsNext(was, cells, i, mid, byCellId);
        if changed {
          DiffersStill(was, mid, byCellId, w);
        } else {
          w := cells[i].key;
        }
        seen := seen + {cells[i].key};
        changed := changed || replaced;
      }
      assert cells[..|cells|] == cells;
    }

    /** One row: a malformed one is skipped, one of the same shape is left alone. */
    method UpdateRow(id: string, raw: Json) returns (replaced: bool)
      modifies this`byCellId
      ensures Get(byCellId, id) == SlotFor(Get(old(byCellId), id), raw)
      ensures forall k :: k != id ==> Get(byCellId, k) == Get(old(byCellId), k)
      ensures replaced ==> DiffersAt(old(byCellId), byCellId, id)
      ensures !replaced ==> byCellId == old(byCellId)
    {
      var next := Project(raw);
      if next.None? {
        return false;
      }
      var prev := Get(byCellId, id);
      replaced := prev.None? || ShapeOf(prev.value) != ShapeOf(next.value);
      if replaced {
        byCellId := byCellId[id := next.value];
      }
    }

    /** Drops the rows the snapshot no longer mentions. */
    method DropRows(ghost was: Rows, seen: set<string>, before: bool) returns (changed: bool)
      requires forall id :: id !in seen ==> Get(byCellId, id) == Get(was, id)
      requires before <==> Changed(was, byCellId)
      requires !before ==> byCellId == was
      modifies this`byCellId
      ensures byCellId.Keys <= seen
      ensures forall id <- seen :: Get(byCellId, id) == Get(old(byCellId), id)
      ensures changed <==> Changed(was, byCellId)
      ensures !changed ==> byCellId == was
    {
      changed := before;
      ghost var w := "";
      if before {
        w :| DiffersAt(was, byCellId, w);
      }
      var todo := byCellId.Keys;
      while todo != {}
        invariant todo <= byCellId.Keys && byCellId.Keys <= todo + seen
        invariant forall id <- seen :: Get(byCellId, id) == Get(old(byCellId), id)
        invariant forall id <- todo :: id !in seen ==> Get(byCellId, id) == Get(was, id)
        invariant changed ==> DiffersAt(was, byCellId, w)
        invariant !changed ==> byCellId == was
        decreases |todo|
      {
        var id :| id in todo;
        todo := todo - {id};
        if id !in seen {
          byCellId := byCellId - {id};
          changed := true;
          w := id;
        }
      }
    }
  }

  predicate DiffersAt(a: Rows, b: Rows, id: string) {
    if id in a && id in b then ShapeOf(a[id]) != ShapeOf(b[id]) else id in a || id in b
  }

  ghost predicate Changed(a: Rows, b: Rows) {
    exists id :: DiffersAt(a, b, id)
  }

  lemma ShapesDiffer(a: Rows, b: Rows)
    ensures Changed(a, b) <==> Shapes(a) != Shapes(b)
  {
    if Changed(a, b) {
      var id :| DiffersAt(a, b, id);
      assert id in Shapes(a) && id in Shapes(b) ==> Shapes(a)[id] != Shapes(b)[id];
    } else {
      forall id ensures id in a <==> id in b {
        assert !DiffersAt(a, b, id);
      }
      forall id | id in a ensures ShapeOf(a[id]) == ShapeOf(b[id]) {
        assert !DiffersAt(a, b, id);
      }
    }
  }

  // ---- reading a row ---------------------------------------------------------------------------

  /** A row as the kernel writes it. */
  function RowOf(s: Slot): seq<Member> {
    [Member("contaminated", Bool(s.flag)), Member("contamination_log", Arr(s.log)),
     Member("bound_agent_id", if s.agent.Some? then Str(s.agent.value) else Null)]
  }

  lemma {:induction false} FieldPast(a: seq<Member>, b: seq<Member>, key: string)
    requires forall m <- b :: m.key != key
    ensures Field(a + b, key) == Field(a, key)
  {
    if b == [] {
      assert a + b == a;
    } else {
      var n := |b| - 1;
      assert b[n] in b && (a + b)[..|a| + n] == a + b[..n];
      FieldPast(a, b[..n], key);
    }
  }

  lemma FieldLast(a: seq<Member>, m: Member, b: seq<Member>)
    requires forall x <- b :: x.key != m.key
    ensures Field(a + [m] + b, m.key) == m.value
  {
    FieldPast(a + [m], b, m.key);
  }

  /** A slot written as a row, among any other fields, reads back. */
  lemma RowReadsBack(s: Slot, before: seq<Member>, after: seq<Member>)
    requires forall m <- after :: m.key !in {"contaminated", "contamination_log", "bound_agent_id"}
    ensures Project(Obj(before + RowOf(s) + after)) == Some(s)
  {
    var row := RowOf(s);
    var members := before + row + after;
    assert |"contaminated"| == 12 && |"contamination_log"| == 17 && |"bound_agent_id"| == 14;
    assert members == before + [row[0]] + ([row[1], row[2]] + after);
    FieldLast(before, row[0], [row[1], row[2]] + after);
    assert members == before + [row[0]] + [row[1]] + ([row[2]] + after);
    FieldLast(before + [row[0]], row[1], [row[2]] + after);
    assert members == before + [row[0], row[1]] + [row[2]] + after;
    FieldLast(before + [row[0], row[1]], row[2], after);
  }

  // ---- agreement with a fresh projection -------------------------------------------------------

  /** The registry one would build from a single snapshot. */
  function Fresh(cells: seq<Member>): Rows {
    if cells == [] then map[]
    else
      var before, slot := Fresh(cells[..|cells| - 1]), Project(cells[|cells| - 1].value);
      if slot.Some? then before[cells[|cells| - 1].key := slot.value] else before
  }

  ghost predicate Projects(cells: seq<Member>, rows: Rows) {
    rows.Keys <= Keys(cells) && forall m <- cells :: Get(rows, m.key) == Project(m.value)
  }

  lemma {:induction false} FreshIs(cells: seq<Member>)
    requires DistinctKeys(cells)
    ensures Projects(cells, Fresh(cells))
  {
    if cells != [] {
      var n := |cells| - 1;
      FreshIs(cells[..n]);
      ProjectsNext(cells[..n], Fresh(cells[..n]), cells[n]);
      assert cells == cells[..n] + [cells[n]];
    }
  }

  lemma ProjectsNext(cells: seq<Member>, rows: Rows, m: Member)
    requires Projects(cells, rows) && m.key !in Keys(cells)
    ensures var slot := Project(m.value);
      Projects(cells + [m], if slot.Some? then rows[m.key := slot.value] else rows)
  {
    var slot := Project(m.value);
    var now := if slot.Some? then rows[m.key := slot.value] else rows;
    assert Keys(cells + [m]) == Keys(cells) + {m.key};
    forall x | x in cells + [m] ensures Get(now, x.key) == Project(x.value) {
      if x in cells {
        assert x.key in Keys(cells) && Get(rows, x.key) == Project(x.value);
      }
    }
  }

  /** A malformed row keeps whatever slot the cell had. */
  predicate KeepsOld(was: Rows, cells: seq<Member>) {
    exists m :: m in cells && Project(m.value).None? && m.key in was
  }

  /** A row whose log changed without changing length is taken for unchanged. */
  predicate Overlooks(was: Rows, cells: seq<Member>) {
    exists m :: m in cells && m.key in was && Project(m.value).Some?
      && ShapeOf(was[m.key]) == ShapeOf(Project(m.value).value) && was[m.key] != Project(m.value).value
  }

  lemma SameRows(a: Rows, b: Rows, cells: seq<Member>)
    requires a.Keys <= Keys(cells) && b.Keys <= Keys(cells)
    ensures a == b <==> forall m <- cells :: Get(a, m.key) == Get(b, m.key)
    ensures Shapes(a) == Shapes(b) <==> forall m <- cells :: !DiffersAt(a, b, m.key)
  {
    ShapesDiffer(a, b);
    if forall m <- cells :: Get(a, m.key) == Get(b, m.key) {
      forall id ensures Get(a, id) == Get(b, id) {
        if id in Keys(cells) {
          var m :| m in cells && m.key == id;
          assert Get(a, m.key) == Get(b, m.key);
        }
      }
      assert forall id :: id in a ==> Get(a, id) == Get(b, id);
      assert forall id :: id in b ==> Get(a, id) == Get(b, id);
      assert a == b;
    }
    if Changed(a, b) {
      var id :| DiffersAt(a, b, id);
      var m :| m in cells && m.key == id;
      assert DiffersAt(a, b, m.key);
    }
  }

  /** After one snapshot the registry agrees with a fresh projection on keys, flag, log length and agent if and
      only if no malformed row names a known cell; it agrees in full if and only if, besides, no log changed
      without changing length. */
  lemma AgreesExactly(was: Rows, cells: seq<Member>, now: Rows)
    requires DistinctKeys(cells) && Updated(was, cells, now)
    ensures Shapes(now) == Shapes(Fresh(cells)) <==> !KeepsOld(was, cells)
    ensures now == Fresh(cells) <==> !KeepsOld(was, cells) && !Overlooks(was, cells)
  {
    FreshIs(cells);
    SameRows(now, Fresh(cells), cells);
    forall m | m in cells
      ensures DiffersAt(now, Fresh(cells), m.key) <==> Project(m.value).None? && m.key in was
      ensures Get(now, m.key) != Get(Fresh(cells), m.key)
        <==> m.key in was && (Project(m.value).None?
              || (ShapeOf(was[m.key]) == ShapeOf(Project(m.value).value) && was[m.key] != Project(m.value).value))
    {
      assert Get(now, m.key) == SlotFor(Get(was, m.key), m.value);
      assert Get(Fresh(cells), m.key) == Project(m.value);
    }
  }

  // ---- whole runs --------------------------------------------------------------------------------

  /** The registry's contents before and after each envelope, from the start. */
  ghost predicate IsRun(payloads: seq<Payload>, states: seq<Rows>) {
    && |states| == |payloads| + 1 && states[0] == map[]
    && forall i :: 0 <= i < |payloads| ==> StepOf(states[i], payloads[i], states[i + 1])
  }

  ghost predicate StepOf(was: Rows, p: Payload, now: Rows) {
    WellFormed(p) && if Accepted(p) then Updated(was, p.cells.value, now) else now == was
  }

  function LastSnapshot(payloads: seq<Payload>): Option<seq<Member>> {
    if payloads == [] then None
    else
      var p := payloads[|payloads| - 1];
      if p.mode == "snapshot" && p.cells.Some? then p.cells else LastSnapshot(payloads[..|payloads| - 1])
  }

  predicate RowsWellFormed(cells: seq<Member>) {
    forall m <- cells :: Project(m.value).Some?
  }

  lemma RunPrefix(payloads: seq<Payload>, states: seq<Rows>)
    requires IsRun(payloads, states) && payloads != []
    ensures var n := |payloads| - 1;
      && IsRun(payloads[..n], states[..n + 1]) && states[..n + 1][n] == states[n]
      && StepOf(states[n], payloads[n], states[n + 1])
  {
    var n := |payloads| - 1;
    forall i | 0 <= i < n ensures StepOf(states[..n + 1][i], payloads[..n][i], states[..n + 1][i + 1]) {
      assert StepOf(states[i], payloads[i], states[i + 1]);
    }
    assert StepOf(states[n], payloads[n], states[n + 1]);
  }

  /** After any run, the registry agrees with a fresh projection of the last snapshot, if the rows of that one
      are well formed. */
  lemma {:induction false} RunAgrees(payloads: seq<Payload>, states: seq<Rows>)
    requires IsRun(payloads, states)
    requires LastSnapshot(payloads).Some? ==> RowsWellFormed(LastSnapshot(payloads).value)
    ensures LastSnapshot(payloads).Some? ==>
              Shapes(states[|payloads|]) == Shapes(Fresh(LastSnapshot(payloads).value))
    ensures LastSnapshot(payloads).None? ==> states[|payloads|] == map[]
  {
    if payloads != [] {
      var n := |payloads| - 1;
      RunPrefix(payloads, states);
      if Accepted(payloads[n]) {
        AgreesExactly(states[n], payloads[n].cells.value, states[n + 1]);
      } else {
        RunAgrees(payloads[..n], states[..n + 1]);
      }
    }
  }

  /** Each cell's log only grows from one snapshot to the next. */
  predicate Extends(older: seq<Member>, newer: seq<Member>) {
    forall id :: id in Fresh(older) && id in Fresh(newer) ==> Fresh(older)[id].log <= Fresh(newer)[id].log
  }

  predicate AppendOnly(payloads: seq<Payload>) {
    payloads == [] ||
    var before, p := payloads[..|payloads| - 1], payloads[|payloads| - 1];
    && AppendOnly(before)
    && (Accepted(p) ==> RowsWellFormed(p.cells.value))
    && (Accepted(p) && LastSnapshot(before).Some? ==> Extends(LastSnapshot(before).value, p.cells.value))
  }

  /** When logs are append-only, the registry equals a fresh projection of the last snapshot in full. */
  lemma {:induction false} RunExact(payloads: seq<Payload>, states: seq<Rows>)
    requires IsRun(payloads, states) && AppendOnly(payloads)
    ensures states[|payloads|] == if LastSnapshot(payloads).Some? then Fresh(LastSnapshot(payloads).value) else map[]
  {
    if payloads != [] {
      var n := |payloads| - 1;
      RunPrefix(payloads, states);
      RunExact(payloads[..n], states[..n + 1]);
      if Accepted(payloads[n]) {
        GrowsExactly(states[n], payloads[n].cells.value, states[n + 1]);
      }
    }
  }

  lemma GrowsExactly(was: Rows, cells: seq<Member>, now: Rows)
    requires DistinctKeys(cells) && Updated(was, cells, now) && RowsWellFormed(cells)
    requires forall id :: id in was && id in Fresh(cells) ==> was[id].log <= Fresh(cells)[id].log
    ensures now == Fresh(cells)
  {
    AgreesExactly(was, cells, now);
    FreshIs(cells);
    forall m | m in cells && m.key in was && ShapeOf(was[m.key]) == ShapeOf(Project(m.value).value)
      ensures was[m.key] == Project(m.value).value
    {
      assert Get(Fresh(cells), m.key) == Project(m.value);
    }
  }

  /** Append-only logs are needed: a log rewritten at the same length leaves the registry stale, silently. */
  lemma RewrittenLogStale()
    ensures var row := (entry: Json) => Obj([Member("contamination_log", Arr([entry]))]);
      var cells := [Member("c", row(Num(2)))];
      var was := map["c" := Slot(false, [Num(1)], None)];
      Updated(was, cells, was) && was != Fresh(cells)
  {
    var members := [Member("contamination_log", Arr([Num(2)]))];
    var row := Obj(members);
    var cells := [Member("c", row)];
    var was := map["c" := Slot(false, [Num(1)], None)];
    assert members[..0] == [];
    assert "contamination_log"[2] == 'n' && "bound_agent_id"[2] == 'u' && |"contaminated"| != |"contamination_log"|;
    assert Field(members, "contamination_log") == Arr([Num(2)]);
    assert Field(members, "bound_agent_id") == Null && Field(members, "contaminated") == Null;
    assert Project(row) == Some(Slot(false, [Num(2)], None));
    assert cells[..0] == [] && Fresh(cells)["c"] == Slot(false, [Num(2)], None);
    assert was["c"].log[0] != Fresh(cells)["c"].log[0];
  }
}
