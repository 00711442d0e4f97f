/**
  Saving and reopening a notebook (extension/src/llmnb/serializer.ts).

  JSON text is parsed and printed elsewhere; a notebook file is its parsed document.
 */
module Serializer {
  import opened Common
  import opened Json
  import opened Text

  type Object = seq<Member>

  // ---- objects -------------------------------------------------------------------------------

  function Get(o: Object, key: string): Option<Json> {
    if o == [] then None
    else if o[|o| - 1].key == key then Some(o[|o| - 1].value)
    else Get(o[..|o| - 1], key)
  }

  function Delete(o: Object, key: string): Object {
    if o == [] then []
    else if o[|o| - 1].key == key then Delete(o[..|o| - 1], key)
    else Delete(o[..|o| - 1], key) + [o[|o| - 1]]
  }

  function Assign(o: Object, key: string, value: Json): Object {
    if o == [] then []
    else Assign(o[..|o| - 1], key, value) + [Assigned(o[|o| - 1], key, value)]
  }

  function Assigned(m: Member, key: string, value: Json): Member {
    if m.key == key then Member(key, value) else m
  }

  /** `o[key] = value`: a present key keeps its place. */
  function Put(o: Object, key: string, value: Json): Object {
    if Get(o, key).None? then o + [Member(key, value)] else Assign(o, key, value)
  }

  lemma {:induction false} GetDelete(o: Object, key: string, k: string)
    ensures Get(Delete(o, key), k) == if k == key then None else Get(o, k)
  {
    if o != [] {
      var n := |o| - 1;
      GetDelete(o[..n], key, k);
      if o[n].key != key {
        GetAppend(Delete(o[..n], key), o[n], k);
      }
    }
  }

  lemma GetAppend(o: Object, m: Member, k: string)
    ensures Get(o + [m], k) == if m.key == k then Some(m.value) else Get(o, k)
  {
    assert (o + [m])[..|o|] == o;
  }

  lemma {:induction false} GetAssign(o: Object, key: string, value: Json, k: string)
    ensures Get(Assign(o, key, value), k) == if k == key && Get(o, key).Some? then Some(value) else Get(o, k)
  {
    if o != [] {
      var n := |o| - 1;
      GetAssign(o[..n], key, value, k);
      GetAppend(Assign(o[..n], key, value), Assigned(o[n], key, value), k);
    }
  }

  lemma GetPut(o: Object, key: string, value: Json, k: string)
    ensures Get(Put(o, key, value), k) == if k == key then Some(value) else Get(o, k)
  {
    GetAppend(o, Member(key, value), k);
    GetAssign(o, key, value, k);
  }

  lemma {:induction false} DeleteAbsent(o: Object, key: string)
    requires Get(o, key).None?
    ensures Delete(o, key) == o
  {
    if o != [] {
      var before, last := o[..|o| - 1], o[|o| - 1];
      DeleteAbsent(before, key);
      assert o == before + [last] && last.key != key;
    }
  }

  /** Every entry of the key holds the value. */
  predicate Settled(o: Object, key: string, value: Json) {
    Get(o, key) == Some(value) && forall m <- o :: m.key == key ==> m.value == value
  }

  lemma SettledPut(o: Object, key: string, value: Json)
    requires Settled(o, key, value)
    ensures Put(o, key, value) == o
  {
    AssignSame(o, key, value);
  }

  lemma AssignSame(o: Object, key: string, value: Json)
    requires forall m <- o :: m.key == key ==> m.value == value
    ensures Assign(o, key, value) == o
  {
    AssignLength(o, key, value);
    forall i | 0 <= i < |o| ensures Assign(o, key, value)[i] == o[i] {
      AssignAt(o, key, value, i);
      AssignedSame(o[i], key, value);
    }
  }

  lemma AssignedSame(m: Member, key: string, value: Json)
    requires m.key == key ==> m.value == value
    ensures Assigned(m, key, value) == m
  {
  }

  lemma {:induction false} AssignMembers(o: Object, key: string, value: Json)
    ensures forall m <- Assign(o, key, value) :: m == Member(key, value) || (m in o && m.key != key)
  {
    if o != [] {
      AssignMembers(o[..|o| - 1], key, value);
    }
  }

  lemma {:induction false} AbsentNowhere(o: Object, key: string)
    requires Get(o, key).None?
    ensures forall m <- o :: m.key != key
  {
    if o != [] {
      AbsentNowhere(o[..|o| - 1], key);
      assert o == o[..|o| - 1] + [o[|o| - 1]];
    }
  }

  lemma PutSettles(o: Object, key: string, value: Json)
    ensures Settled(Put(o, key, value), key, value)
  {
    GetPut(o, key, value, key);
    if Get(o, key).None? {
      AbsentNowhere(o, key);
    } else {
      AssignMembers(o, key, value);
    }
  }

  lemma PutKeepsSettled(o: Object, key: string, value: Json, other: string, v: Json)
    requires Settled(o, key, value) && other != key
    ensures Settled(Put(o, other, v), key, value)
  {
    GetPut(o, other, v, key);
    if Get(o, other).Some? {
      AssignMembers(o, other, v);
    }
  }

  lemma {:induction false} DeleteMembers(o: Object, key: string)
    ensures forall m <- Delete(o, key) :: m in o
  {
    if o != [] {
      DeleteMembers(o[..|o| - 1], key);
      assert o == o[..|o| - 1] + [o[|o| - 1]];
    }
  }

  lemma DeleteKeepsSettled(o: Object, key: string, value: Json, other: string)
    requires Settled(o, key, value) && other != key
    ensures Settled(Delete(o, other), key, value)
  {
    GetDelete(o, other, key);
    DeleteMembers(o, other);
  }

  // ---- markup cells --------------------------------------------------------------------------

  const RTS := "rts"
  const CELL := "cell"
  const KIND := "kind"
  const AGENT := "bound_agent_id"
  const MARKDOWN := Str("markdown")

  lemma KeysApart()
    ensures CELL != KIND && CELL != AGENT && KIND != AGENT
  {
    assert CELL[0] == 'c' && KIND[0] == 'k' && AGENT[0] == 'b';
  }

  predicate MarkupKind(v: Json) {
    v == MARKDOWN || v == Str("section")
  }

  function ObjectOr(v: Option<Json>, fallback: Object): Object {
    if v.Some? && v.value.Obj? then v.value.members else fallback
  }

  /** The namespaced slot: no bound agent, and a kind that renders as markup. */
  function CleanSlot(slot: Object): Object {
    var cell := Delete(slot, AGENT);
    if Get(cell, KIND).Some? && MarkupKind(Get(cell, KIND).value) then cell else Put(cell, KIND, MARKDOWN)
  }

  function SlotOf(rts: Object): Object {
    var cell := Get(rts, CELL);
    if cell.Some? && cell.value.Obj? then CleanSlot(cell.value.members) else [Member(KIND, MARKDOWN)]
  }

  /** The legacy flat fields: no bound agent, and no text kind that does not render as markup. */
  function CleanFlat(rts: Object): Object {
    var out := Delete(rts, AGENT);
    var kind := Get(out, KIND);
    if kind.Some? && kind.value.Str? && !MarkupKind(kind.value) then Put(out, KIND, MARKDOWN) else out
  }

  function CleanRts(rts: Object): Object {
    CleanFlat(Put(rts, CELL, Obj(SlotOf(rts))))
  }

  function Sanitize(meta: Object): Object {
    Put(meta, RTS, Obj(CleanRts(ObjectOr(Get(meta, RTS), []))))
  }

  /** The source's edits on fresh copies, key by key. */
  method SanitizeMarkdownCellMetadata(meta: Object) returns (out: Object)
    ensures out == Sanitize(meta)
  {
    out := meta;
    var raw := Get(out, RTS);
    var rts := if raw.Some? && raw.value.Obj? then raw.value.members else [];
    var cellRaw := Get(rts, CELL);
    if cellRaw.Some? && cellRaw.value.Obj? {
      var cell := Delete(cellRaw.value.members, AGENT);
      var existing := Get(cell, KIND);
      if existing.None? || !MarkupKind(existing.value) {
        cell := Put(cell, KIND, MARKDOWN);
      }
      rts := Put(rts, CELL, Obj(cell));
    } else {
      rts := Put(rts, CELL, Obj([Member(KIND, MARKDOWN)]));
    }
    if Get(rts, AGENT).Some? {
      rts := Delete(rts, AGENT);
    } else {
      DeleteAbsent(rts, AGENT);
    }
    var kind := Get(rts, KIND);
    if kind.Some? && kind.value.Str? && !MarkupKind(kind.value) {
      rts := Put(rts, KIND, MARKDOWN);
    }
    out := Put(out, RTS, Obj(rts));
  }

  /** The kinds that render as markup. */
  const MARKUP := {Str("markdown"), Str("section")}

  predicate CleanCell(slot: Object) {
    Get(slot, AGENT).None? && Get(slot, KIND).Some? && Get(slot, KIND).value in MARKUP
  }

  /** No bound agent in either place, a markup kind in the slot, and no text kind beside it that is not one. */
  predicate Clean(meta: Object) {
    var rts := Get(meta, RTS);
    && rts.Some? && rts.value.Obj?
    && CleanRtsFields(rts.value.members)
  }

  predicate CleanRtsFields(rts: Object) {
    && Get(rts, CELL).Some? && Get(rts, CELL).value.Obj? && CleanCell(Get(rts, CELL).value.members)
    && Get(rts, AGENT).None?
    && (Get(rts, KIND).Some? && Get(rts, KIND).value.Str? ==> Get(rts, KIND).value in MARKUP)
  }

  lemma SlotClean(rts: Object)
    ensures CleanCell(SlotOf(rts))
  {
    KeysApart();
    var raw := Get(rts, CELL);
    if raw.Some? && raw.value.Obj? {
      var cell := Delete(raw.value.members, AGENT);
      GetDelete(raw.value.members, AGENT, AGENT);
      GetPut(cell, KIND, MARKDOWN, KIND);
      GetPut(cell, KIND, MARKDOWN, AGENT);
    } else {
      GetAppend([], Member(KIND, MARKDOWN), KIND);
      GetAppend([], Member(KIND, MARKDOWN), AGENT);
      assert [] + [Member(KIND, MARKDOWN)] == [Member(KIND, MARKDOWN)];
    }
  }

  /** What cleaning the flat fields does to each key. */
  lemma FlatGet(rts: Object, k: string)
    ensures Get(CleanFlat(rts), k)
         == if k == AGENT then None
            else if k == KIND && Get(rts, KIND).Some? && Get(rts, KIND).value.Str? && !MarkupKind(Get(rts, KIND).value)
            then Some(MARKDOWN)
            else Get(rts, k)
  {
    KeysApart();
    GetDelete(rts, AGENT, k);
    GetDelete(rts, AGENT, KIND);
    GetPut(Delete(rts, AGENT), KIND, MARKDOWN, k);
  }

  lemma RtsClean(rts: Object)
    ensures CleanRtsFields(CleanRts(rts)) && Get(CleanRts(rts), CELL) == Some(Obj(SlotOf(rts)))
  {
    KeysApart();
    SlotClean(rts);
    var put := Put(rts, CELL, Obj(SlotOf(rts)));
    FlatGet(put, CELL);
    FlatGet(put, AGENT);
    FlatGet(put, KIND);
    GetPut(rts, CELL, Obj(SlotOf(rts)), CELL);
  }

  /** A sanitised cell is clean, and sanitising touches nothing else: other keys at each level are kept, and so is
      a slot's own kind if it renders as markup. */
  lemma SanitizeCleans(meta: Object)
    ensures Clean(Sanitize(meta))
  {
    var rts := ObjectOr(Get(meta, RTS), []);
    RtsClean(rts);
    GetPut(meta, RTS, Obj(CleanRts(rts)), RTS);
  }

  lemma SanitizeKeeps(meta: Object, k: string)
    ensures k != RTS ==> Get(Sanitize(meta), k) == Get(meta, k)
    ensures k !in {CELL, KIND, AGENT} ==>
              Get(ObjectOr(Get(Sanitize(meta), RTS), []), k) == Get(ObjectOr(Get(meta, RTS), []), k)
  {
    var rts := ObjectOr(Get(meta, RTS), []);
    var slot := Obj(SlotOf(rts));
    GetPut(meta, RTS, Obj(CleanRts(rts)), k);
    GetPut(meta, RTS, Obj(CleanRts(rts)), RTS);
    FlatGet(Put(rts, CELL, slot), k);
    GetPut(rts, CELL, slot, k);
  }

  lemma SlotKeeps(slot: Object, k: string)
    ensures k !in {KIND, AGENT} ==> Get(CleanSlot(slot), k) == Get(slot, k)
    ensures Get(slot, KIND).Some? && Get(slot, KIND).value in MARKUP ==> Get(CleanSlot(slot), KIND) == Get(slot, KIND)
  {
    KeysApart();
    GetDelete(slot, AGENT, k);
    GetDelete(slot, AGENT, KIND);
    GetPut(Delete(slot, AGENT), KIND, MARKDOWN, k);
  }

  // ---- sanitising twice --------------------------------------------------------------------------

  lemma CleanSlotFixed(slot: Object)
    requires CleanCell(slot)
    ensures CleanSlot(slot) == slot
  {
    DeleteAbsent(slot, AGENT);
  }

  lemma CleanFlatFixed(rts: Object)
    requires CleanRtsFields(rts)
    ensures CleanFlat(rts) == rts
  {
    DeleteAbsent(rts, AGENT);
  }

  lemma CellSettled(rts: Object)
    ensures Settled(CleanRts(rts), CELL, Obj(SlotOf(rts)))
  {
    KeysApart();
    var slot := Obj(SlotOf(rts));
    var put := Put(rts, CELL, slot);
    PutSettles(rts, CELL, slot);
    DeleteKeepsSettled(put, CELL, slot, AGENT);
    PutKeepsSettled(Delete(put, AGENT), CELL, slot, KIND, MARKDOWN);
  }

  lemma CleanRtsFixed(rts: Object)
    ensures CleanRts(CleanRts(rts)) == CleanRts(rts)
  {
    var once, slot := CleanRts(rts), SlotOf(rts);
    RtsClean(rts);
    SlotClean(rts);
    CleanSlotFixed(slot);
    assert SlotOf(once) == slot;
    CellSettled(rts);
    SettledPut(once, CELL, Obj(slot));
    CleanFlatFixed(once);
  }

  lemma SanitizeFixed(meta: Object)
    ensures Sanitize(Sanitize(meta)) == Sanitize(meta)
  {
    var rts := ObjectOr(Get(meta, RTS), []);
    CleanRtsFixed(rts);
    GetPut(meta, RTS, Obj(CleanRts(rts)), RTS);
    PutSettles(meta, RTS, Obj(CleanRts(rts)));
    SettledPut(Sanitize(meta), RTS, Obj(CleanRts(rts)));
  }

  // ---- outputs -----------------------------------------------------------------------------------

  /** `JSON.stringify` and `JSON.parse`; the latter may throw. */
  datatype Codec = Codec(stringify: Json -> string, parse: string -> Option<Json>)

  /** The value is read back as it was printed. */
  predicate ReadsBack(c: Codec, v: Json) {
    c.parse(c.stringify(v)) == Some(v)
  }

  /** What holds of JSON text: every string, and every value that parsing yields, is read back as it was printed. */
  ghost predicate RoundTrips(c: Codec) {
    && (forall s :: ReadsBack(c, Str(s)))
    && (forall text :: c.parse(text).Some? ==> ReadsBack(c, c.parse(text).value))
  }

  datatype Item = Item(mime: string, text: string)
  datatype Output = Output(items: seq<Item>, metadata: Option<Object>)
  datatype RawOutput = RawOutput(outputType: string, data: Option<Object>, metadata: Option<Object>)

  const RUN_MIME := "application/vnd.rts.run+json"

  predicate JsonMime(mime: string) {
    mime == RUN_MIME || EndsWith(mime, "+json") || mime == "application/json"
  }

  function DecodeItem(c: Codec, m: Member): Item {
    if JsonMime(m.key) then Item(m.key, c.stringify(m.value))
    else if m.value.Str? then Item(m.key, m.value.s)
    else Item(m.key, c.stringify(m.value))
  }

  function EncodeItem(c: Codec, item: Item): Json {
    if JsonMime(item.mime) then
      var v := c.parse(item.text);
      if v.Some? then v.value else Str(item.text)
    else Str(item.text)
  }

  function DecodeItems(c: Codec, data: Object): seq<Item> {
    if data == [] then [] else DecodeItems(c, data[..|data| - 1]) + [DecodeItem(c, data[|data| - 1])]
  }

  function EncodeItems(c: Codec, items: seq<Item>): Object {
    if items == [] then []
    else Put(EncodeItems(c, items[..|items| - 1]), items[|items| - 1].mime, EncodeItem(c, items[|items| - 1]))
  }

  function Or(o: Option<Object>): Object {
    if o.Some? then o.value else []
  }

  method DecodeOutput(c: Codec, raw: RawOutput) returns (out: Output)
    ensures out == DecodedOutput(c, raw)
  {
    var data := Or(raw.data);
    var items := [];
    for i := 0 to |data|
      invariant items == DecodeItems(c, data[..i])
    {
      assert data[..i + 1][..i] == data[..i];
      var mime, value := data[i].key, data[i].value;
      if JsonMime(mime) {
        items := items + [Item(mime, c.stringify(value))];
      } else if value.Str? {
        items := items + [Item(mime, value.s)];
      } else {
        items := items + [Item(mime, c.stringify(value))];
      }
    }
    assert data[..|data|] == data;
    out := Output(items, Some(Or(raw.metadata)));
  }

  method EncodeOutput(c: Codec, out: Output) returns (raw: RawOutput)
    ensures raw == EncodedOutput(c, out)
  {
    var data: Object := [];
    for i := 0 to |out.items|
      invariant data == EncodeItems(c, out.items[..i])
    {
      assert out.items[..i + 1][..i] == out.items[..i];
      var mime, text := out.items[i].mime, out.items[i].text;
      if JsonMime(mime) {
        var v := c.parse(text);
        data := Put(data, mime, if v.Some? then v.value else Str(text));
      } else {
        data := Put(data, mime, Str(text));
      }
    }
    assert out.items[..|out.items|] == out.items;
    raw := RawOutput("display_data", Some(data), Some(Or(out.metadata)));
  }

  /** A value a save can produce under its MIME type: one that is read back, or a text. */
  predicate Normal(c: Codec, m: Member) {
    if JsonType(m.key) then ReadsBack(c, m.value) else m.value.Str?
  }

  /** JSON itself, and the types built on it. */
  predicate JsonType(mime: string) {
    mime == "application/json" || EndsWith(mime, "+json")
  }

  lemma JsonTypeIs(mime: string)
    ensures JsonMime(mime) <==> JsonType(mime)
  {
    assert EndsWith(RUN_MIME, "+json");
  }

  lemma EncodedIsNormal(c: Codec, item: Item)
    requires RoundTrips(c)
    ensures Normal(c, Member(item.mime, EncodeItem(c, item)))
  {
    JsonTypeIs(item.mime);
    assert ReadsBack(c, Str(item.text));
    assert c.parse(item.text).Some? ==> ReadsBack(c, c.parse(item.text).value);
  }

  lemma {:induction false} KeysAbsent(o: Object, key: string)
    requires forall m <- o :: m.key != key
    ensures Get(o, key).None?
  {
    if o != [] {
      assert o[|o| - 1] in o;
      KeysAbsent(o[..|o| - 1], key);
    }
  }

  lemma {:induction false} AssignAt(o: Object, key: string, value: Json, i: nat)
    requires i < |o|
    ensures i < |Assign(o, key, value)|
    ensures Assign(o, key, value)[i] == Assigned(o[i], key, value)
  {
    var n := |o| - 1;
    AssignLength(o[..n], key, value);
    AssignLast(o, key, value);
    AtBehind(Assign(o[..n], key, value), Assigned(o[n], key, value), i);
    if i < n {
      AssignAt(o[..n], key, value, i);
      AtFront(o, n, i);
    }
  }

  lemma AtBehind(o: Object, m: Member, i: nat)
    requires i <= |o|
    ensures (o + [m])[i] == if i < |o| then o[i] else m
  {
  }

  lemma AtFront(o: Object, n: nat, i: nat)
    requires i < n <= |o|
    ensures o[..n][i] == o[i]
  {
  }

  lemma AssignLast(o: Object, key: string, value: Json)
    requires o != []
    ensures var n := |o| - 1; Assign(o, key, value) == Assign(o[..n], key, value) + [Assigned(o[n], key, value)]
  {
  }

  lemma {:induction false} AssignLength(o: Object, key: string, value: Json)
    ensures |Assign(o, key, value)| == |o|
  {
    if o != [] {
      AssignLength(o[..|o| - 1], key, value);
    }
  }

  lemma AssignDistinct(o: Object, key: string, value: Json)
    requires DistinctKeys(o)
    ensures DistinctKeys(Assign(o, key, value))
  {
    var p := Assign(o, key, value);
    AssignLength(o, key, value);
    forall i, j | 0 <= i < j < |p| ensures p[i].key != p[j].key {
      AssignAt(o, key, value, i);
      AssignAt(o, key, value, j);
    }
  }

  predicate AllNormal(c: Codec, o: Object) {
    forall m <- o :: Normal(c, m)
  }

  /** What a save writes has distinct keys and normal values. */
  lemma {:induction false} EncodedNormal(c: Codec, items: seq<Item>)
    requires RoundTrips(c)
    ensures DistinctKeys(EncodeItems(c, items)) && AllNormal(c, EncodeItems(c, items))
  {
    if items != [] {
      var n := |items| - 1;
      EncodedNormal(c, items[..n]);
      EncodedIsNormal(c, items[n]);
      PutNormal(c, EncodeItems(c, items[..n]), Member(items[n].mime, EncodeItem(c, items[n])));
    }
  }

  lemma PutNormal(c: Codec, o: Object, m: Member)
    requires DistinctKeys(o) && AllNormal(c, o) && Normal(c, m)
    ensures DistinctKeys(Put(o, m.key, m.value)) && AllNormal(c, Put(o, m.key, m.value))
  {
    if Get(o, m.key).None? {
      AbsentNowhere(o, m.key);
    } else {
      AssignDistinct(o, m.key, m.value);
      AssignMembers(o, m.key, m.value);
    }
  }

  /** Data with distinct keys and normal values survives reopening and saving unchanged. */
  lemma {:induction false} NormalSurvives(c: Codec, data: Object)
    requires DistinctKeys(data) && AllNormal(c, data)
    ensures EncodeItems(c, DecodeItems(c, data)) == data
  {
    if data != [] {
      var n := |data| - 1;
      NormalSurvives(c, data[..n]);
      var items := DecodeItems(c, data);
      assert items[..|items| - 1] == DecodeItems(c, data[..n]);
      KeysAbsent(data[..n], data[n].key);
      assert data[n] in data;
      assert data == data[..n] + [data[n]];
    }
  }

  // ---- cells and notebooks -------------------------------------------------------------------------

  datatype Source = One(text: string) | Many(lines: seq<string>)

  datatype RawCell = RawCell(
    cellType: string, source: Source, metadata: Option<Object>,
    outputs: Option<seq<RawOutput>>, executionCount: Option<int>)
  datatype RawNotebook = RawNotebook(
    cells: Option<seq<RawCell>>, metadata: Option<Object>, nbformat: Option<int>, minor: Option<int>)

  datatype Cell = Cell(markup: bool, text: string, lang: string, metadata: Option<Object>, outputs: seq<Output>)
  datatype Notebook = Notebook(cells: seq<Cell>, metadata: Option<Object>)

  function Joined(lines: seq<string>): string {
    if lines == [] then "" else Joined(lines[..|lines| - 1]) + lines[|lines| - 1]
  }

  function TextOf(source: Source): string {
    if source.One? then source.text else Joined(source.lines)
  }

  function DecodedOutput(c: Codec, raw: RawOutput): Output {
    Output(DecodeItems(c, Or(raw.data)), Some(Or(raw.metadata)))
  }

  function EncodedOutput(c: Codec, out: Output): RawOutput {
    RawOutput("display_data", Some(EncodeItems(c, out.items)), Some(Or(out.metadata)))
  }

  /** `s.map(f)` */
  function Mapped<A, B>(f: A -> B, s: seq<A>): seq<B> {
    if s == [] then [] else Mapped(f, s[..|s| - 1]) + [f(s[|s| - 1])]
  }

  function DecodeOutputs(c: Codec, raws: seq<RawOutput>): seq<Output> {
    Mapped((raw: RawOutput) => DecodedOutput(c, raw), raws)
  }

  function EncodeOutputs(c: Codec, outs: seq<Output>): seq<RawOutput> {
    Mapped((out: Output) => EncodedOutput(c, out), outs)
  }

  function DecodeCell(c: Codec, raw: RawCell): Cell {
    var markup := raw.cellType == "markdown";
    Cell(markup, TextOf(raw.source), if markup then "markdown" else "llmnb-cell",
         Some(if markup then Sanitize(Or(raw.metadata)) else Or(raw.metadata)),
         DecodeOutputs(c, if raw.outputs.Some? then raw.outputs.value else []))
  }

  function EncodeCell(c: Codec, cell: Cell): RawCell {
    RawCell(if cell.markup then "markdown" else "code", One(cell.text),
            Some(if cell.markup then Sanitize(Or(cell.metadata)) else Or(cell.metadata)),
            Some(EncodeOutputs(c, cell.outputs)), None)
  }

  function DecodeCells(c: Codec, raws: seq<RawCell>): seq<Cell> {
    Mapped((raw: RawCell) => DecodeCell(c, raw), raws)
  }

  function EncodeCells(c: Codec, cells: seq<Cell>): seq<RawCell> {
    Mapped((cell: Cell) => EncodeCell(c, cell), cells)
  }

  /** An empty file is a notebook without cells. */
  function Deserialize(c: Codec, file: Option<RawNotebook>): Notebook {
    var raw := if file.Some? then file.value else RawNotebook(Some([]), Some([]), Some(4), Some(5));
    Notebook(DecodeCells(c, if raw.cells.Some? then raw.cells.value else []), Some(Or(raw.metadata)))
  }

  function Serialize(c: Codec, nb: Notebook): RawNotebook {
    RawNotebook(Some(EncodeCells(c, nb.cells)), Some(Or(nb.metadata)), Some(4), Some(5))
  }

  // ---- save, reopen, save ----------------------------------------------------------------------------

  lemma {:induction false} MappedAt<A, B>(f: A -> B, s: seq<A>, i: nat)
    ensures |Mapped(f, s)| == |s|
    ensures i < |s| ==> Mapped(f, s)[i] == f(s[i])
  {
    if s != [] {
      MappedAt(f, s[..|s| - 1], i);
    }
  }

  lemma {:induction false} MappedFixed<A(!new), B>(f: A -> B, g: B -> A, s: seq<A>)
    requires forall x :: f(g(f(x))) == f(x)
    ensures Mapped(f, Mapped(g, Mapped(f, s))) == Mapped(f, s)
  {
    if s != [] {
      var n := |s| - 1;
      MappedFixed(f, g, s[..n]);
      var once := Mapped(f, s);
      var twice := Mapped(g, once);
      assert once[..|once| - 1] == Mapped(f, s[..n]);
      assert twice[..|twice| - 1] == Mapped(g, Mapped(f, s[..n]));
    }
  }

  lemma OutputsFixed(c: Codec, outs: seq<Output>)
    requires RoundTrips(c)
    ensures EncodeOutputs(c, DecodeOutputs(c, EncodeOutputs(c, outs))) == EncodeOutputs(c, outs)
  {
    forall out ensures EncodedOutput(c, DecodedOutput(c, EncodedOutput(c, out))) == EncodedOutput(c, out) {
      EncodedNormal(c, out.items);
      NormalSurvives(c, EncodeItems(c, out.items));
    }
    MappedFixed((out: Output) => EncodedOutput(c, out), (raw: RawOutput) => DecodedOutput(c, raw), outs);
  }

  lemma CellFixed(c: Codec, cell: Cell)
    requires RoundTrips(c)
    ensures EncodeCell(c, DecodeCell(c, EncodeCell(c, cell))) == EncodeCell(c, cell)
  {
    OutputsFixed(c, cell.outputs);
    SanitizeFixed(Or(cell.metadata));
  }

  lemma CellsFixed(c: Codec, cells: seq<Cell>)
    requires RoundTrips(c)
    ensures EncodeCells(c, DecodeCells(c, EncodeCells(c, cells))) == EncodeCells(c, cells)
  {
    forall cell ensures EncodeCell(c, DecodeCell(c, EncodeCell(c, cell))) == EncodeCell(c, cell) {
      CellFixed(c, cell);
    }
    MappedFixed((cell: Cell) => EncodeCell(c, cell), (raw: RawCell) => DecodeCell(c, raw), cells);
  }

  /** Any notebook in memory: what was saved, reopened and saved again is what was saved. */
  lemma SaveReopenSave(c: Codec, nb: Notebook)
    requires RoundTrips(c)
    ensures Serialize(c, Deserialize(c, Some(Serialize(c, nb)))) == Serialize(c, nb)
  {
    CellsFixed(c, nb.cells);
  }

  function Cycle(c: Codec, file: Option<RawNotebook>): RawNotebook {
    Serialize(c, Deserialize(c, file))
  }

  /** Any file: one cycle of opening and saving reaches a fixed point, and keeps the notebook's metadata. */
  lemma OneCycleIsEnough(c: Codec, file: Option<RawNotebook>)
    requires RoundTrips(c)
    ensures Cycle(c, Some(Cycle(c, file))) == Cycle(c, file)
    ensures Cycle(c, file).metadata == Some(if file.Some? then Or(file.value.metadata) else [])
  {
    SaveReopenSave(c, Deserialize(c, file));
  }

  lemma EncodedAt(c: Codec, cells: seq<Cell>, i: nat)
    ensures |EncodeCells(c, cells)| == |cells|
    ensures i < |cells| ==> EncodeCells(c, cells)[i] == EncodeCell(c, cells[i])
  {
    MappedAt((cell: Cell) => EncodeCell(c, cell), cells, i);
  }

  lemma DecodedAt(c: Codec, raws: seq<RawCell>, i: nat)
    ensures |DecodeCells(c, raws)| == |raws|
    ensures i < |raws| ==> DecodeCells(c, raws)[i] == DecodeCell(c, raws[i])
  {
    MappedAt((raw: RawCell) => DecodeCell(c, raw), raws, i);
  }

  /** No markup cell that is opened or saved carries a bound agent or a text kind outside markdown and section. */
  lemma MarkupCellsClean(c: Codec, file: Option<RawNotebook>, nb: Notebook)
    ensures forall cell <- Deserialize(c, file).cells :: cell.markup ==> Clean(Or(cell.metadata))
    ensures forall raw <- Serialize(c, nb).cells.value :: raw.cellType == "markdown" ==> Clean(Or(raw.metadata))
  {
    var raws := if file.Some? && file.value.cells.Some? then file.value.cells.value else [];
    forall cell | cell in Deserialize(c, file).cells && cell.markup ensures Clean(Or(cell.metadata)) {
      DecodedMarkupClean(c, raws, cell);
    }
    forall raw | raw in Serialize(c, nb).cells.value && raw.cellType == "markdown" ensures Clean(Or(raw.metadata)) {
      EncodedMarkupClean(c, nb.cells, raw);
    }
  }

  lemma DecodedMarkupClean(c: Codec, raws: seq<RawCell>, cell: Cell)
    requires cell in DecodeCells(c, raws) && cell.markup
    ensures Clean(Or(cell.metadata))
  {
    var i :| 0 <= i < |DecodeCells(c, raws)| && DecodeCells(c, raws)[i] == cell;
    DecodedAt(c, raws, i);
    SanitizeCleans(Or(raws[i].metadata));
  }

  lemma EncodedMarkupClean(c: Codec, cells: seq<Cell>, raw: RawCell)
    requires raw in EncodeCells(c, cells) && raw.cellType == "markdown"
    ensures Clean(Or(raw.metadata))
  {
    var i :| 0 <= i < |EncodeCells(c, cells)| && EncodeCells(c, cells)[i] == raw;
    EncodedAt(c, cells, i);
    assert "markdown"[0] != "code"[0];
    SanitizeCleans(Or(cells[i].metadata));
  }

  /** A flat kind that is no text is not repaired: a sanitised cell's flat kind renders as markup or is absent if
      and only if it was no other value than a text to begin with. */
  lemma FlatKindExactly(meta: Object)
    ensures var before := Get(ObjectOr(Get(meta, RTS), []), KIND);
      var after := Get(ObjectOr(Get(Sanitize(meta), RTS), []), KIND);
      (after.Some? ==> after.value in MARKUP) <==> (before.Some? ==> before.value.Str?)
  {
    KeysApart();
    var rts := ObjectOr(Get(meta, RTS), []);
    var slot := Obj(SlotOf(rts));
    GetPut(meta, RTS, Obj(CleanRts(rts)), RTS);
    FlatGet(Put(rts, CELL, slot), KIND);
    GetPut(rts, CELL, slot, KIND);
  }

  /** For example, a flat kind that is a number stays. */
  lemma NumberKindStays()
    ensures var meta := [Member(RTS, Obj([Member(KIND, Num(7))]))];
      Clean(Sanitize(meta)) && Get(ObjectOr(Get(Sanitize(meta), RTS), []), KIND) == Some(Num(7))
  {
    KeysApart();
    var rts := [Member(KIND, Num(7))];
    var meta := [Member(RTS, Obj(rts))];
    GetAppend([], Member(KIND, Num(7)), KIND);
    GetAppend([], Member(RTS, Obj(rts)), RTS);
    assert [] + rts == rts && [] + meta == meta;
    SanitizeCleans(meta);
    GetPut(meta, RTS, Obj(CleanRts(rts)), RTS);
    FlatGet(Put(rts, CELL, Obj(SlotOf(rts))), KIND);
    GetPut(rts, CELL, Obj(SlotOf(rts)), KIND);
  }

  /** What a cycle keeps of each cell, and what it does not. */
  lemma CycleKeepsCells(c: Codec, raw: RawNotebook, i: nat)
    requires raw.cells.Some? && i < |raw.cells.value|
    ensures var was, now := raw.cells.value, Cycle(c, Some(raw)).cells.value;
      && |now| == |was|
      && now[i].source == One(TextOf(was[i].source))
      && now[i].cellType == (if was[i].cellType == "markdown" then "markdown" else "code")
      && (was[i].cellType != "markdown" ==> now[i].metadata == Some(Or(was[i].metadata)))
      && now[i].executionCount == None
  {
    DecodedAt(c, raw.cells.value, i);
    EncodedAt(c, DecodeCells(c, raw.cells.value), i);
  }

  /** An output value that JSON text can carry survives a cycle if and only if its MIME type is JSON or it is a text;
      otherwise it becomes the text it prints as. */
  lemma OutputValueKept(c: Codec, m: Member)
    requires ReadsBack(c, m.value)
    ensures var kept := EncodeItem(c, DecodeItem(c, m));
      && (kept == m.value <==> JsonType(m.key) || m.value.Str?)
      && (kept != m.value ==> kept == Str(c.stringify(m.value)))
  {
    JsonTypeIs(m.key);
  }
}
