/**
  The fork forest recovered from the event log (extension/src/sidebar/agent-lineage.ts): who forked
  from whom, the branches of each agent in order of creation, and the roots.
 */
module Lineage {
  import opened Common
  import opened Json
  import opened Sorting

  /** A fork read from the log; `variant` is the case, A or B, and `time` is 0 when it is unknown. */
  datatype Fork = Fork(branch: string, source: string, turn: Option<string>, variant: Option<string>, time: real)

  /** Reads an envelope's timestamp: a parsed date, a number, or 0. */
  type Clock = seq<Member> -> real

  const MAX_SAFE: real := 9007199254740991.0

  function Key(f: Fork): real {
    if f.time == 0.0 then MAX_SAFE else f.time
  }

  predicate Earlier(a: Fork, b: Fork) { Key(a) - Key(b) <= 0.0 }

  // ---- one log entry -------------------------------------------------------------------------

  /** The fields of an object; an array is an object without them, null and primitives are none. */
  function Fields(j: Json): Option<seq<Member>> {
    if j.Obj? then Some(j.members) else if j.Arr? then Some([]) else None
  }

  function NonEmptyText(j: Json): Option<string> {
    if j.Str? && j.s != "" then Some(j.s) else None
  }

  /** The checks of `extractForkRecord`, in order. */
  function ExtractForkRecord(entry: Json, clock: Clock): Option<Fork> {
    var env := Fields(entry);
    if env.None? || Field(env.value, "kind") == Str("agent_ref_move")
       || Field(env.value, "message_type") != Str("operator.action") then None
    else
      var payload := Fields(Field(env.value, "payload"));
      if payload.None? || Field(payload.value, "action_type") != Str("zone_mutate") then None
      else
        var params := Fields(Field(payload.value, "parameters"));
        if params.None? || Field(params.value, "intent_kind") != Str("fork_agent") then None
        else ForkOf(params.value, clock(env.value))
  }

  function ForkOf(params: seq<Member>, time: real): Option<Fork> {
    var source := NonEmptyText(Field(params, "source_agent_id"));
    var branch := NonEmptyText(Field(params, "new_agent_id"));
    var variant := Field(params, "case");
    if source.None? || branch.None? then None
    else Some(Fork(branch.value, source.value, NonEmptyText(Field(params, "at_turn_id")),
                   if variant == Str("A") || variant == Str("B") then Some(variant.s) else None, time))
  }

  /** What stands at the end of a path of field names; null if it leads nowhere. */
  function FieldAt(j: Json, path: seq<string>): Json
    decreases |path|
  {
    if path == [] then j else if j.Obj? then FieldAt(Field(j.members, path[0]), path[1..]) else Null
  }

  function Param(entry: Json, name: string): Json {
    FieldAt(entry, ["payload", "parameters", name])
  }

  /** A zone mutation that forks an agent, told by its fields; old reference moves are none, whatever else they hold. */
  predicate ForkIntent(entry: Json) {
    && FieldAt(entry, ["kind"]) != Str("agent_ref_move")
    && FieldAt(entry, ["message_type"]) == Str("operator.action")
    && FieldAt(entry, ["payload", "action_type"]) == Str("zone_mutate")
    && Param(entry, "intent_kind") == Str("fork_agent")
  }

  predicate Names(j: Json) {
    j.Str? && j.s != ""
  }

  /** An entry is read as a fork if and only if it is a fork intent that names both agents; the fork then carries
      exactly what the entry says. */
  lemma ForkExactly(entry: Json, clock: Clock, f: Fork)
    ensures ExtractForkRecord(entry, clock) == Some(f) <==>
      (&& entry.Obj? && ForkIntent(entry) && f.time == clock(entry.members)
       && f.source != "" && Param(entry, "source_agent_id") == Str(f.source)
       && f.branch != "" && Param(entry, "new_agent_id") == Str(f.branch)
       && (if f.turn.Some? then f.turn.value != "" && Param(entry, "at_turn_id") == Str(f.turn.value)
           else !Names(Param(entry, "at_turn_id")))
       && (if f.variant.Some? then f.variant.value in {"A", "B"} && Param(entry, "case") == Str(f.variant.value)
           else Param(entry, "case") !in {Str("A"), Str("B")}))
  {
    if entry.Obj? {
      PathOne(entry, "kind");
      PathOne(entry, "message_type");
      PathOne(entry, "payload");
      var payload := Field(entry.members, "payload");
      PathNext(entry, "payload", ["action_type"]);
      if payload.Obj? {
        PathOne(payload, "action_type");
        PathOne(payload, "parameters");
      }
      Params(entry, "intent_kind");
      Params(entry, "source_agent_id");
      Params(entry, "new_agent_id");
      Params(entry, "at_turn_id");
      Params(entry, "case");
    }
  }

  lemma PathOne(j: Json, name: string)
    ensures FieldAt(j, [name]) == if j.Obj? then Field(j.members, name) else Null
  {
    assert [name][1..] == [];
  }

  lemma PathNext(j: Json, name: string, path: seq<string>)
    ensures FieldAt(j, [name] + path) == if j.Obj? then FieldAt(Field(j.members, name), path) else Null
  {
    assert ([name] + path)[1..] == path;
  }

  lemma Params(entry: Json, name: string)
    requires entry.Obj?
    ensures var payload := Field(entry.members, "payload");
      Param(entry, name) == if payload.Obj? && Field(payload.members, "parameters").Obj?
                            then Field(Field(payload.members, "parameters").members, name) else Null
  {
    var payload := Field(entry.members, "payload");
    assert ["payload", "parameters", name] == ["payload"] + (["parameters"] + [name]);
    PathNext(entry, "payload", ["parameters"] + [name]);
    PathNext(payload, "parameters", [name]);
    if payload.Obj? {
      PathOne(Field(payload.members, "parameters"), name);
    }
  }

  // ---- what the log says ---------------------------------------------------------------------

  function Forks(log: seq<Json>, clock: Clock): seq<Fork> {
    if log == [] then []
    else
      var fork := ExtractForkRecord(log[|log| - 1], clock);
      Forks(log[..|log| - 1], clock) + if fork.Some? then [fork.value] else []
  }

  /** The first fork that names an agent as its branch. */
  function FirstFork(forks: seq<Fork>, agent: string): Option<Fork> {
    if forks == [] then None
    else
      var before := FirstFork(forks[..|forks| - 1], agent);
      if before.Some? then before
      else if forks[|forks| - 1].branch == agent then Some(forks[|forks| - 1])
      else None
  }

  /** The forks of one source, in log order. */
  function Bucket(forks: seq<Fork>, source: string): seq<Fork> {
    if forks == [] then []
    else Bucket(forks[..|forks| - 1], source)
         + if forks[|forks| - 1].source == source then [forks[|forks| - 1]] else []
  }

  predicate ParentsOf(forks: seq<Fork>, parents: map<string, Fork>) {
    && (forall a <- parents :: FirstFork(forks, a) == Some(parents[a]))
    && (forall f <- forks :: f.branch in parents)
  }

  predicate BucketsOf(forks: seq<Fork>, buckets: map<string, seq<Fork>>) {
    && (forall a <- buckets :: buckets[a] != [] && buckets[a] == Bucket(forks, a))
    && (forall f <- forks :: f.source in buckets)
  }

  predicate SortedBuckets(forks: seq<Fork>, children: map<string, seq<Fork>>) {
    && (forall a <- children :: children[a] != [] && children[a] == Sort(Earlier, Bucket(forks, a)))
    && (forall f <- forks :: f.source in children)
  }

  // ---- building the maps -----------------------------------------------------------------------

  lemma {:induction false} FirstForkIs(forks: seq<Fork>, agent: string)
    ensures var r := FirstFork(forks, agent);
      && (r.Some? ==> r.value in forks && r.value.branch == agent)
      && (r.None? ==> forall f <- forks :: f.branch != agent)
  {
    if forks != [] {
      FirstForkIs(forks[..|forks| - 1], agent);
      assert forks == forks[..|forks| - 1] + [forks[|forks| - 1]];
    }
  }

  lemma AddParent(forks: seq<Fork>, parents: map<string, Fork>, f: Fork)
    requires ParentsOf(forks, parents)
    ensures ParentsOf(forks + [f], if f.branch in parents then parents else parents[f.branch := f])
  {
    var next := if f.branch in parents then parents else parents[f.branch := f];
    assert (forks + [f])[..|forks|] == forks;
    FirstForkIs(forks, f.branch);
    forall a | a in next ensures FirstFork(forks + [f], a) == Some(next[a]) {
      assert a in parents || a == f.branch;
    }
  }

  lemma AddToBucket(forks: seq<Fork>, buckets: map<string, seq<Fork>>, f: Fork)
    requires BucketsOf(forks, buckets)
    ensures BucketsOf(forks + [f],
                      buckets[f.source := if f.source in buckets then buckets[f.source] + [f] else [f]])
  {
    var next := buckets[f.source := if f.source in buckets then buckets[f.source] + [f] else [f]];
    BucketIs(forks, f.source);
    assert Bucket(forks, f.source) != [] ==> Bucket(forks, f.source)[0] in forks;
    forall a | a in next ensures next[a] != [] && next[a] == Bucket(forks + [f], a) {
      BucketAppend(forks, f, a);
    }
  }

  lemma BucketAppend(forks: seq<Fork>, f: Fork, source: string)
    ensures Bucket(forks + [f], source) == Bucket(forks, source) + if f.source == source then [f] else []
  {
    assert (forks + [f])[..|forks|] == forks;
  }

  lemma {:induction false} BucketIs(forks: seq<Fork>, source: string)
    ensures forall f :: f in Bucket(forks, source) <==> f in forks && f.source == source
  {
    if forks != [] {
      BucketIs(forks[..|forks| - 1], source);
      assert forks == forks[..|forks| - 1] + [forks[|forks| - 1]];
    }
  }

  /** One more entry. */
  lemma ForksStep(log: seq<Json>, clock: Clock, i: nat, forks: seq<Fork>)
    requires i < |log| && forks == Forks(log[..i], clock)
    ensures var fork := ExtractForkRecord(log[i], clock);
      Forks(log[..i + 1], clock) == if fork.Some? then forks + [fork.value] else forks
  {
    assert log[..i + 1][..i] == log[..i];
  }

  method BuildAgentLineage(log: seq<Json>, clock: Clock)
    returns (parents: map<string, Fork>, children: map<string, seq<Fork>>)
    ensures ParentsOf(Forks(log, clock), parents) && SortedBuckets(Forks(log, clock), children)
  {
    parents, children := map[], map[];
    ghost var forks := [];
    for i := 0 to |log|
      invariant forks == Forks(log[..i], clock) && ParentsOf(forks, parents) && BucketsOf(forks, children)
    {
      ForksStep(log, clock, i, forks);
      var fork := ExtractForkRecord(log[i], clock);
      if fork.None? {
        continue;
      }
      parents, children := AddFork(forks, parents, children, fork.value);
      forks := forks + [fork.value];
    }
    assert log[..|log|] == log;
    children := SortBuckets(forks, children);
  }

  /** The body of the loop: the first fork of a branch is its parent, and every fork joins its source's bucket. */
  method AddFork(ghost forks: seq<Fork>, before: map<string, Fork>, buckets: map<string, seq<Fork>>, rec: Fork)
    returns (parents: map<string, Fork>, children: map<string, seq<Fork>>)
    requires ParentsOf(forks, before) && BucketsOf(forks, buckets)
    ensures ParentsOf(forks + [rec], parents) && BucketsOf(forks + [rec], children)
  {
    AddParent(forks, before, rec);
    AddToBucket(forks, buckets, rec);
    parents, children := before, buckets;
    if rec.branch !in parents {
      parents := parents[rec.branch := rec];
    }
    if rec.source in children {
      children := children[rec.source := children[rec.source] + [rec]];
    } else {
      children := children[rec.source := [rec]];
    }
  }

  /** Each bucket is sorted in place. */
  method SortBuckets(ghost forks: seq<Fork>, buckets: map<string, seq<Fork>>) returns (children: map<string, seq<Fork>>)
    requires BucketsOf(forks, buckets)
    ensures SortedBuckets(forks, children)
  {
    children := buckets;
    var todo := buckets.Keys;
    while todo != {}
      invariant todo <= buckets.Keys && children.Keys == buckets.Keys
      invariant forall a <- children :: children[a] == if a in todo then buckets[a] else Sort(Earlier, buckets[a])
      decreases |todo|
    {
      var a :| a in todo;
      children := children[a := Sort(Earlier, children[a])];
      todo := todo - {a};
    }
    forall a | a in children ensures children[a] != [] {
      SortPermutes(Earlier, buckets[a]);
    }
  }

  // ---- branches: each fork once, in order of time ------------------------------------------------

  function Count(forks: seq<Fork>, f: Fork): nat {
    multiset(forks)[f]
  }

  lemma {:induction false} BucketCounts(forks: seq<Fork>, f: Fork, source: string)
    ensures Count(Bucket(forks, source), f) == if f.source == source then Count(forks, f) else 0
  {
    if forks != [] {
      BucketCounts(forks[..|forks| - 1], f, source);
      assert forks == forks[..|forks| - 1] + [forks[|forks| - 1]];
    }
  }

  /** In every log, the buckets hold each fork record as often as the log does, each under its source and
      nowhere else. */
  lemma EveryForkOnce(forks: seq<Fork>, children: map<string, seq<Fork>>, f: Fork)
    requires SortedBuckets(forks, children)
    ensures f in forks ==> f.source in children && Count(children[f.source], f) == Count(forks, f)
    ensures forall a <- children :: a != f.source || f !in forks ==> f !in children[a]
  {
    if f in forks {
      BucketCounts(forks, f, f.source);
      SortPermutes(Earlier, Bucket(forks, f.source));
    }
    forall a | a in children && (a != f.source || f !in forks) ensures f !in children[a] {
      BucketIs(forks, a);
      SortHolds(Earlier, Bucket(forks, a), f);
    }
  }

  lemma EarlierTotal()
    ensures Total(Earlier)
  {
  }

  predicate TimeOrdered(forks: seq<Fork>) {
    forall i, j :: 0 <= i < j < |forks| && forks[i].time != 0.0 && forks[j].time != 0.0 ==>
      forks[i].time <= forks[j].time
  }

  predicate UnknownLast(forks: seq<Fork>) {
    forall i, j :: 0 <= i < j < |forks| && forks[i].time == 0.0 ==> forks[j].time == 0.0 || forks[j].time == MAX_SAFE
  }

  /** Every bucket is ordered by time.  Forks of unknown time come last (or tie with the greatest exact
      integer) if and only if no fork with a greater time shares their bucket. */
  lemma BranchesOrdered(forks: seq<Fork>, children: map<string, seq<Fork>>, a: string)
    requires SortedBuckets(forks, children) && a in children
    ensures TimeOrdered(children[a])
    ensures UnknownLast(children[a])
      <==> !exists f, g :: f in forks && g in forks && f.source == a && g.source == a
                           && f.time == 0.0 && g.time > MAX_SAFE
  {
    var c := children[a];
    EarlierTotal();
    SortSorts(Earlier, Bucket(forks, a));
    forall i, j | 0 <= i < j < |c| && c[i].time != 0.0 && c[j].time != 0.0 ensures c[i].time <= c[j].time {
      assert Earlier(c[i], c[j]);
    }
    BucketIs(forks, a);
    forall f ensures f in c <==> f in forks && f.source == a {
      SortHolds(Earlier, Bucket(forks, a), f);
    }
    if f, g :| f in forks && g in forks && f.source == a && g.source == a && f.time == 0.0 && g.time > MAX_SAFE {
      LateBehind(c, f, g);
    } else {
      forall i, j | 0 <= i < j < |c| && c[i].time == 0.0 ensures c[j].time == 0.0 || c[j].time == MAX_SAFE {
        assert Earlier(c[i], c[j]);
        assert c[i] in c && c[j] in c;
      }
    }
  }

  /** For example, a fork of unknown time comes before one of a time above 2^53-1. */
  lemma UnknownBeforeLate()
    ensures var f, g := Fork("b", "a", None, None, 0.0), Fork("c", "a", None, None, MAX_SAFE + 1.0);
      Sort(Earlier, [g, f]) == [f, g] && !UnknownLast([f, g])
  {
    var f, g := Fork("b", "a", None, None, 0.0), Fork("c", "a", None, None, MAX_SAFE + 1.0);
    var both, one := [g, f], [g];
    assert both[..1] == one && one[..0] == [];
    assert Sort(Earlier, one) == [g];
    assert Insert(Earlier, one[..0], f) == [f];
    assert Insert(Earlier, one, f) == [f, g];
    LateBehind([f, g], f, g);
  }

  lemma LateBehind(c: seq<Fork>, f: Fork, g: Fork)
    requires Sorted(Earlier, c) && f in c && g in c && f.time == 0.0 && g.time > MAX_SAFE
    ensures !UnknownLast(c)
  {
    var i :| 0 <= i < |c| && c[i] == f;
    var j :| 0 <= j < |c| && c[j] == g;
    assert j < i ==> Earlier(c[j], c[i]);
    assert i < j;
  }

  function WithKey(forks: seq<Fork>, k: real): seq<Fork> {
    if forks == [] then []
    else WithKey(forks[..|forks| - 1], k) + if Key(forks[|forks| - 1]) == k then [forks[|forks| - 1]] else []
  }

  lemma WithKeyAppend(s: seq<Fork>, x: Fork, k: real)
    ensures WithKey(s + [x], k) == WithKey(s, k) + if Key(x) == k then [x] else []
  {
    assert (s + [x])[..|s|] == s;
  }

  /** Insertion passes only forks of a greater key. */
  lemma {:induction false} InsertStable(s: seq<Fork>, x: Fork, k: real)
    ensures WithKey(Insert(Earlier, s, x), k) == WithKey(s, k) + if Key(x) == k then [x] else []
  {
    if s == [] || Earlier(s[|s| - 1], x) {
      WithKeyAppend(s, x, k);
    } else {
      var before, last := s[..|s| - 1], s[|s| - 1];
      InsertStable(before, x, k);
      WithKeyAppend(Insert(Earlier, before, x), last, k);
      SwapKeys(WithKey(before, k), x, last, k);
    }
  }

  lemma SwapKeys(done: seq<Fork>, x: Fork, y: Fork, k: real)
    requires Key(x) != Key(y)
    ensures (done + if Key(x) == k then [x] else []) + (if Key(y) == k then [y] else [])
         == (done + if Key(y) == k then [y] else []) + (if Key(x) == k then [x] else [])
  {
  }

  /** Forks of the same time, and those of unknown time, keep their log order. */
  lemma {:induction false} TiesKeepLogOrder(bucket: seq<Fork>, k: real)
    ensures WithKey(Sort(Earlier, bucket), k) == WithKey(bucket, k)
  {
    if bucket != [] {
      TiesKeepLogOrder(bucket[..|bucket| - 1], k);
      InsertStable(Sort(Earlier, bucket[..|bucket| - 1]), bucket[|bucket| - 1], k);
    }
  }

  // ---- parents: every chain ends at a root -------------------------------------------------------

  predicate Seen(forks: seq<Fork>, agent: string) {
    exists f :: f in forks && (f.branch == agent || f.source == agent)
  }

  /** What the kernel enforces: a fork creates an agent not seen before, and not its own source. */
  predicate FreshForks(forks: seq<Fork>) {
    forks == [] ||
    var before, f := forks[..|forks| - 1], forks[|forks| - 1];
    FreshForks(before) && f.branch != f.source && !Seen(before, f.branch)
  }

  /** A walk from an agent to its parent, again and again. */
  predicate Walk(parents: map<string, Fork>, path: seq<string>) {
    path != [] && forall i :: 0 <= i < |path| - 1 ==> path[i] in parents && parents[path[i]].source == path[i + 1]
  }

  /** Where the parent chain of an agent leads, one fork of the log at a time. */
  lemma {:induction false} ChainEnds(forks: seq<Fork>, parents: map<string, Fork>, agent: string)
    returns (path: seq<string>)
    requires FreshForks(forks) && ParentsOf(forks, parents)
    ensures Walk(parents, path) && path[0] == agent && path[|path| - 1] !in parents
    ensures |path| <= |forks| + 1
  {
    if agent !in parents {
      path := [agent];
    } else {
      var n := |forks| - 1;
      FirstForkIs(forks, agent);
      var older := parents - {forks[n].branch};
      OlderParents(forks, parents, older);
      if agent != forks[n].branch {
        path := ChainEnds(forks[..n], older, agent);
        WalkWidens(forks, parents, older, path);
      } else {
        FirstForkIs(forks[..n], agent);
        assert parents[agent] == forks[n];
        var rest := ChainEnds(forks[..n], older, forks[n].source);
        WalkWidens(forks, parents, older, rest);
        path := [agent] + rest;
      }
    }
  }

  lemma OlderParents(forks: seq<Fork>, parents: map<string, Fork>, older: map<string, Fork>)
    requires forks != [] && FreshForks(forks) && ParentsOf(forks, parents)
    requires older == parents - {forks[|forks| - 1].branch}
    ensures ParentsOf(forks[..|forks| - 1], older)
  {
    var before, f := forks[..|forks| - 1], forks[|forks| - 1];
    forall a | a in older ensures FirstFork(before, a) == Some(older[a]) {
      assert a != f.branch;
      assert a in parents;
    }
    forall g | g in before ensures g.branch in older {
      assert g in forks;
      assert g.branch == f.branch ==> Seen(before, f.branch);
    }
  }

  /** A finished chain of the older log cannot end at the agent created last, so it still ends there. */
  lemma WalkWidens(forks: seq<Fork>, parents: map<string, Fork>, older: map<string, Fork>, path: seq<string>)
    requires forks != [] && FreshForks(forks) && ParentsOf(forks, parents) && ParentsOf(forks[..|forks| - 1], older)
    requires older == parents - {forks[|forks| - 1].branch}
    requires Walk(older, path) && path[|path| - 1] !in older
    requires path[0] != forks[|forks| - 1].branch
    ensures Walk(parents, path) && path[|path| - 1] !in parents
  {
    var before, f := forks[..|forks| - 1], forks[|forks| - 1];
    var n := |path| - 1;
    if n > 0 {
      assert path[n - 1] in older && older[path[n - 1]].source == path[n - 1 + 1];
      FirstForkIs(before, path[n - 1]);
      assert older[path[n - 1]] in before && Seen(before, path[n]);
    }
  }

  function RootAgentIds(agents: seq<string>, parents: map<string, Fork>): seq<string> {
    if agents == [] then []
    else RootAgentIds(agents[..|agents| - 1], parents)
         + if agents[|agents| - 1] !in parents then [agents[|agents| - 1]] else []
  }

  lemma {:induction false} RootsAre(agents: seq<string>, parents: map<string, Fork>, id: string)
    ensures multiset(RootAgentIds(agents, parents))[id] == if id in parents then 0 else multiset(agents)[id]
  {
    if agents != [] {
      RootsAre(agents[..|agents| - 1], parents, id);
      assert agents == agents[..|agents| - 1] + [agents[|agents| - 1]];
    }
  }

  /** In a log of fresh forks: following parents from any agent ends, at an agent that is no branch; if that agent is
      listed, it is among the roots. */
  lemma EveryChainEndsAtRoot(forks: seq<Fork>, parents: map<string, Fork>, agents: seq<string>, agent: string)
    returns (path: seq<string>)
    requires FreshForks(forks) && ParentsOf(forks, parents)
    ensures Walk(parents, path) && path[0] == agent && |path| <= |forks| + 1
    ensures path[|path| - 1] !in parents
    ensures path[|path| - 1] in agents <==> path[|path| - 1] in RootAgentIds(agents, parents)
  {
    path := ChainEnds(forks, parents, agent);
    var root := path[|path| - 1];
    RootsAre(agents, parents, root);
    assert root in agents <==> root in multiset(agents);
    assert root in RootAgentIds(agents, parents) <==> root in multiset(RootAgentIds(agents, parents));
  }

  lemma OneFork(f: Fork, agent: string)
    ensures FirstFork([f], agent) == if f.branch == agent then Some(f) else None
  {
    assert [f][..0] == [] && FirstFork([], agent) == None;
  }

  // ---- exactly when every chain ends ---------------------------------------------------------------

  /** The log sends one on from each agent of the path to the next: by the first fork that names it as a branch. */
  predicate Leads(forks: seq<Fork>, path: seq<string>) {
    path != [] && forall i :: 0 <= i < |path| - 1 ==>
      FirstFork(forks, path[i]).Some? && FirstFork(forks, path[i]).value.source == path[i + 1]
  }

  /** In the log some agent comes from itself, over one or more forks. */
  ghost predicate Loops(forks: seq<Fork>) {
    exists path: seq<string> :: |path| > 1 && Leads(forks, path) && path[0] == path[|path| - 1]
  }

  ghost predicate ChainOf(parents: map<string, Fork>, agent: string, path: seq<string>) {
    Walk(parents, path) && path[0] == agent && path[|path| - 1] !in parents
  }

  /** Following parents from the agent comes to an end. */
  ghost predicate ChainStops(parents: map<string, Fork>, agent: string) {
    exists path :: ChainOf(parents, agent, path)
  }

  lemma LeadsIsWalk(forks: seq<Fork>, parents: map<string, Fork>, path: seq<string>)
    requires ParentsOf(forks, parents)
    ensures Leads(forks, path) <==> Walk(parents, path)
  {
    forall i | 0 <= i < |path| - 1
      ensures FirstFork(forks, path[i]).Some? <==> path[i] in parents
      ensures path[i] in parents ==> FirstFork(forks, path[i]) == Some(parents[path[i]])
    {
      FirstForkIs(forks, path[i]);
    }
  }

  function Agents(path: seq<string>): set<string> {
    set a | a in path
  }

  lemma OneStep(parents: map<string, Fork>, path: seq<string>)
    requires Walk(parents, path) && path[|path| - 1] in parents
    ensures Walk(parents, path + [parents[path[|path| - 1]].source])
  {
    var longer := path + [parents[path[|path| - 1]].source];
    forall i | 0 <= i < |longer| - 1
      ensures longer[i] in parents && parents[longer[i]].source == longer[i + 1]
    {
      if i < |path| - 1 {
        assert longer[i] == path[i] && longer[i + 1] == path[i + 1];
      }
    }
  }

  lemma Suffix(parents: map<string, Fork>, path: seq<string>, k: nat)
    requires Walk(parents, path) && k < |path|
    ensures Walk(parents, path[k..])
  {
    forall i | 0 <= i < |path| - k - 1
      ensures path[k..][i] in parents && parents[path[k..][i]].source == path[k..][i + 1]
    {
      assert path[k..][i] == path[k + i] && path[k..][i + 1] == path[k + i + 1];
    }
  }

  lemma FewerLeft(all: set<string>, path: seq<string>, next: string)
    requires next in all && next !in path
    ensures |all - Agents(path + [next])| < |all - Agents(path)|
  {
    assert all - Agents(path + [next]) == all - Agents(path) - {next};
    assert next in all - Agents(path);
  }

  /** Going on from a walk either comes to an end or comes back: there are only so many branches. */
  lemma {:induction false} Climb(parents: map<string, Fork>, path: seq<string>)
    returns (longer: seq<string>, loop: bool)
    requires Walk(parents, path) && path[|path| - 1] in parents
    ensures Walk(parents, longer)
    ensures if loop then |longer| > 1 && longer[0] == longer[|longer| - 1]
            else longer[0] == path[0] && longer[|longer| - 1] !in parents
    decreases |parents.Keys - Agents(path)|
  {
    var next := parents[path[|path| - 1]].source;
    OneStep(parents, path);
    if next !in parents {
      longer, loop := path + [next], false;
    } else if next in path {
      var k :| 0 <= k < |path| && path[k] == next;
      Suffix(parents, path + [next], k);
      longer, loop := (path + [next])[k..], true;
    } else {
      FewerLeft(parents.Keys, path, next);
      longer, loop := Climb(parents, path + [next]);
    }
  }

  /** A walk that starts on a loop stays on it. */
  lemma {:induction false} StaysOnLoop(parents: map<string, Fork>, loop: seq<string>, path: seq<string>, k: nat)
    requires Walk(parents, loop) && |loop| > 1 && loop[0] == loop[|loop| - 1]
    requires Walk(parents, path) && path[0] == loop[0] && k < |path|
    ensures path[k] in loop && path[k] in parents
  {
    var n := |loop| - 1;
    if k == 0 {
      assert loop[0] in parents;
    } else {
      StaysOnLoop(parents, loop, path, k - 1);
      var j :| 0 <= j < |loop| && loop[j] == path[k - 1];
      var m := if j == n then 0 else j;
      assert loop[m] == path[k - 1] && parents[loop[m]].source == loop[m + 1];
      assert parents[path[k - 1]].source == path[k - 1 + 1];
      assert path[k] == loop[m + 1];
      if m + 1 == n {
        assert loop[0] in parents;
      } else {
        assert loop[m + 1] in parents;
      }
    }
  }

  /** In any log: following parents comes to an end from every agent if and only if in the log no agent comes from
      itself. */
  lemma ChainsStopExactly(forks: seq<Fork>, parents: map<string, Fork>)
    requires ParentsOf(forks, parents)
    ensures (forall agent :: ChainStops(parents, agent)) <==> !Loops(forks)
  {
    if Loops(forks) {
      var loop: seq<string> :| |loop| > 1 && Leads(forks, loop) && loop[0] == loop[|loop| - 1];
      LeadsIsWalk(forks, parents, loop);
      forall path ensures !ChainOf(parents, loop[0], path) {
        if Walk(parents, path) && path[0] == loop[0] {
          StaysOnLoop(parents, loop, path, |path| - 1);
        }
      }
      assert !ChainStops(parents, loop[0]);
    } else {
      forall agent ensures ChainStops(parents, agent) {
        ChainFound(forks, parents, agent);
      }
    }
  }

  lemma ChainFound(forks: seq<Fork>, parents: map<string, Fork>, agent: string)
    requires ParentsOf(forks, parents) && !Loops(forks)
    ensures ChainStops(parents, agent)
  {
    if agent !in parents {
      assert ChainOf(parents, agent, [agent]);
    } else {
      var path, loop := Climb(parents, [agent]);
      LeadsIsWalk(forks, parents, path);
      assert !loop;
      assert ChainOf(parents, agent, path);
    }
  }

  /** For example, two forks that name each other loop. */
  lemma MutualForksLoop()
    ensures var f, g := Fork("a", "b", None, None, 1.0), Fork("b", "a", None, None, 2.0);
      Loops([f, g]) && !ChainStops(map["a" := f, "b" := g], "a")
  {
    var f, g := Fork("a", "b", None, None, 1.0), Fork("b", "a", None, None, 2.0);
    var forks, parents, loop := [f, g], map["a" := f, "b" := g], ["a", "b", "a"];
    assert "a"[0] != "b"[0];
    assert forks[..1] == [f];
    OneFork(f, "a");
    OneFork(f, "b");
    assert Leads(forks, loop);
    assert Walk(parents, loop);
    forall path ensures !ChainOf(parents, "a", path) {
      if Walk(parents, path) && path[0] == "a" {
        StaysOnLoop(parents, loop, path, |path| - 1);
      }
    }
  }
}
