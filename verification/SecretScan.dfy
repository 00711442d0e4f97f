/** The scan of a notebook's configuration for secret-shaped field names (extension/src/notebook/metadata-loader.ts). */
module SecretScan {
  import opened Common
  import opened Json
  import opened Text

  datatype Match = Match(path: string, pattern: string)

  /** `toLowerCase`, and how an array index prints. */
  datatype Engine = Engine(lower: string -> string, show: nat -> string)

  /** The first rule that a lower-cased field name meets. */
  function Rule(name: string): Option<string> {
    if EndsWith(name, "_key") then Some("*_key")
    else if EndsWith(name, "_token") then Some("*_token")
    else if EndsWith(name, "_password") then Some("*_password")
    else if EndsWith(name, "_secret") then Some("*_secret")
    else if name == "api_key" || name == "authorization" || name == "bearer" || name == "cookie" then Some(name)
    else None
  }

  function Scan(engine: Engine, node: Json, path: string): seq<Match>
    decreases node, 0
  {
    match node
    case Arr(items) => ScanItems(engine, items, |items|, path)
    case Obj(members) => ScanMembers(engine, members, |members|, path)
    case _ => []
  }

  function ScanItems(engine: Engine, items: seq<Json>, n: nat, path: string): seq<Match>
    requires n <= |items|
    decreases items, n
  {
    if n == 0 then []
    else ScanItems(engine, items, n - 1, path) + Scan(engine, items[n - 1], path + "[" + engine.show(n - 1) + "]")
  }

  function ScanMembers(engine: Engine, members: seq<Member>, n: nat, path: string): seq<Match>
    requires n <= |members|
    decreases members, n
  {
    if n == 0 then []
    else
      var m := members[n - 1];
      var rule := Rule(engine.lower(m.key));
      ScanMembers(engine, members, n - 1, path)
      + (if rule.Some? then [Match(path + "." + m.key, rule.value)] else [])
      + Scan(engine, m.value, path + "." + m.key)
  }

  /** The recursive procedure with its accumulator. */
  method ScanForbiddenSecrets(engine: Engine, node: Json, path: string) returns (out: seq<Match>)
    ensures out == Scan(engine, node, path)
    decreases node
  {
    out := [];
    if node.Arr? {
      for i := 0 to |node.items|
        invariant out == ScanItems(engine, node.items, i, path)
      {
        var found := ScanForbiddenSecrets(engine, node.items[i], path + "[" + engine.show(i) + "]");
        out := out + found;
      }
    } else if node.Obj? {
      for i := 0 to |node.members|
        invariant out == ScanMembers(engine, node.members, i, path)
      {
        var m := node.members[i];
        var rule := Rule(engine.lower(m.key));
        out := out + if rule.Some? then [Match(path + "." + m.key, rule.value)] else [];
        var found := ScanForbiddenSecrets(engine, m.value, path + "." + m.key);
        out := out + found;
      }
    }
  }

  // ---- what the scan finds -------------------------------------------------------------------------

  /** A route through a value: the index taken at each array or object. */
  predicate IsRoute(node: Json, route: seq<nat>) {
    route == [] ||
    match node
    case Arr(items) => route[0] < |items| && IsRoute(items[route[0]], route[1..])
    case Obj(members) => route[0] < |members| && IsRoute(members[route[0]].value, route[1..])
    case _ => false
  }

  /** The field name at the end of a route, unless the route ends at the root or in an array. */
  function NameAt(node: Json, route: seq<nat>): Option<string>
    requires IsRoute(node, route)
  {
    if route == [] then None
    else match node
      case Arr(items) => if |route| == 1 then None else NameAt(items[route[0]], route[1..])
      case Obj(members) =>
        if |route| == 1 then Some(members[route[0]].key) else NameAt(members[route[0]].value, route[1..])
  }

  ghost predicate Forbidden(engine: Engine, node: Json, route: seq<nat>) {
    IsRoute(node, route) && NameAt(node, route).Some? && SecretName(engine.lower(NameAt(node, route).value))
  }

  const SUFFIXES := ["_key", "_token", "_password", "_secret"]

  /** The name ends in one of the endings. */
  ghost predicate Suffixed(name: string) {
    exists i :: 0 <= i < |SUFFIXES| && EndsWith(name, SUFFIXES[i])
  }

  /** Names that hold credentials: some endings, and some names as they are. */
  ghost predicate SecretName(name: string) {
    Suffixed(name) || name in {"api_key", "authorization", "bearer", "cookie"}
  }

  lemma SuffixedIs(name: string)
    ensures Suffixed(name)
       <==> EndsWith(name, "_key") || EndsWith(name, "_token")
            || EndsWith(name, "_password") || EndsWith(name, "_secret")
  {
    assert SUFFIXES[0] == "_key" && SUFFIXES[1] == "_token" && SUFFIXES[2] == "_password" && SUFFIXES[3] == "_secret";
  }

  /** A rule applies to exactly those names. */
  lemma RuleIs(name: string)
    ensures Rule(name).Some? <==> SecretName(name)
  {
    SuffixedIs(name);
  }

  /** Its pattern is the ending behind a star, or the name itself if it has none of the endings. */
  lemma PatternIs(name: string, i: nat)
    requires i < |SUFFIXES|
    ensures EndsWith(name, SUFFIXES[i]) ==> Rule(name) == Some("*" + SUFFIXES[i])
    ensures Rule(name).Some? && !Suffixed(name) ==> Rule(name) == Some(name)
  {
    SuffixedIs(name);
    if EndsWith(name, SUFFIXES[i]) {
      if i > 0 { OneSuffix(name, 0, i); }
      if i > 1 { OneSuffix(name, 1, i); }
      if i > 2 { OneSuffix(name, 2, i); }
      Starred(i);
    }
  }

  lemma Starred(i: nat)
    requires i < |SUFFIXES|
    ensures "*" + SUFFIXES[i] == ["*_key", "*_token", "*_password", "*_secret"][i]
    ensures SUFFIXES[i] == ["_key", "_token", "_password", "_secret"][i]
  {
  }

  lemma OneSuffix(name: string, i: nat, j: nat)
    requires i < |SUFFIXES| && j < |SUFFIXES| && i != j && EndsWith(name, SUFFIXES[j])
    ensures !EndsWith(name, SUFFIXES[i])
  {
    LastOf(name, SUFFIXES[i]);
    LastOf(name, SUFFIXES[j]);
  }

  /** The last letters tell the endings apart. */
  lemma LastOf(name: string, suffix: string)
    requires suffix != ""
    ensures EndsWith(name, suffix) ==> name != "" && name[|name| - 1] == suffix[|suffix| - 1]
  {
    if EndsWith(name, suffix) {
      assert name[|name| - |suffix|..][|suffix| - 1] == name[|name| - 1];
    }
  }

  /** The path text of a route: an index in brackets for each array, a dot and the name for each object. */
  ghost function RouteText(engine: Engine, node: Json, route: seq<nat>): string
    requires IsRoute(node, route)
  {
    if route == [] then ""
    else match node
      case Arr(items) => "[" + engine.show(route[0]) + "]" + RouteText(engine, items[route[0]], route[1..])
      case Obj(members) => "." + members[route[0]].key + RouteText(engine, members[route[0]].value, route[1..])
  }

  /** The match reports the forbidden name at the end of the route: its path, and its rule. */
  ghost predicate Reports(engine: Engine, node: Json, path: string, route: seq<nat>, m: Match) {
    && Forbidden(engine, node, route) && m.path == path + RouteText(engine, node, route)
    && Rule(engine.lower(NameAt(node, route).value)) == Some(m.pattern)
  }

  ghost predicate InItem(engine: Engine, items: seq<Json>, i: nat, path: string, m: Match) {
    i < |items| && m in Scan(engine, items[i], path + "[" + engine.show(i) + "]")
  }

  /** The member's own name, or what lies below it. */
  ghost predicate InMember(engine: Engine, members: seq<Member>, i: nat, path: string, m: Match) {
    i < |members| &&
    var at := path + "." + members[i].key;
    || (m == Match(at, m.pattern) && Rule(engine.lower(members[i].key)) == Some(m.pattern))
    || m in Scan(engine, members[i].value, at)
  }

  ghost predicate InItems(engine: Engine, items: seq<Json>, n: nat, path: string, m: Match) {
    exists i: nat :: i < n && InItem(engine, items, i, path, m)
  }

  ghost predicate InMembers(engine: Engine, members: seq<Member>, n: nat, path: string, m: Match) {
    exists i: nat :: i < n && InMember(engine, members, i, path, m)
  }

  ghost predicate FoundInItems(engine: Engine, items: seq<Json>, n: nat, path: string, m: Match) {
    n <= |items| && m in ScanItems(engine, items, n, path)
  }

  ghost predicate FoundInMembers(engine: Engine, members: seq<Member>, n: nat, path: string, m: Match) {
    n <= |members| && m in ScanMembers(engine, members, n, path)
  }

  lemma ItemsStep(engine: Engine, items: seq<Json>, n: nat, path: string, m: Match)
    requires 0 < n <= |items|
    ensures FoundInItems(engine, items, n, path, m)
       <==> FoundInItems(engine, items, n - 1, path, m) || InItem(engine, items, n - 1, path, m)
  {
  }

  lemma OneMoreItem(engine: Engine, items: seq<Json>, n: nat, path: string, m: Match)
    requires n > 0
    ensures InItems(engine, items, n, path, m)
       <==> InItems(engine, items, n - 1, path, m) || InItem(engine, items, n - 1, path, m)
  {
  }

  lemma OneMoreMember(engine: Engine, members: seq<Member>, n: nat, path: string, m: Match)
    requires n > 0
    ensures InMembers(engine, members, n, path, m)
       <==> InMembers(engine, members, n - 1, path, m) || InMember(engine, members, n - 1, path, m)
  {
  }

  lemma {:induction false} ItemsHold(engine: Engine, items: seq<Json>, n: nat, path: string, m: Match)
    requires n <= |items|
    ensures FoundInItems(engine, items, n, path, m) <==> InItems(engine, items, n, path, m)
    decreases n
  {
    if n > 0 {
      ItemsHold(engine, items, n - 1, path, m);
      ItemsStep(engine, items, n, path, m);
      OneMoreItem(engine, items, n, path, m);
    }
  }

  lemma MembersStep(engine: Engine, members: seq<Member>, n: nat, path: string, m: Match)
    requires 0 < n <= |members|
    ensures FoundInMembers(engine, members, n, path, m)
       <==> FoundInMembers(engine, members, n - 1, path, m) || InMember(engine, members, n - 1, path, m)
  {
    var x := members[n - 1];
    var at, rule := path + "." + x.key, Rule(engine.lower(x.key));
    var own := if rule.Some? then [Match(at, rule.value)] else [];
    assert m in own <==> m == Match(at, m.pattern) && rule == Some(m.pattern);
    InThree(ScanMembers(engine, members, n - 1, path), own, Scan(engine, x.value, at), m);
  }

  lemma InThree(a: seq<Match>, b: seq<Match>, c: seq<Match>, m: Match)
    ensures m in a + b + c <==> m in a || m in b || m in c
  {
  }

  lemma NoMembers(engine: Engine, members: seq<Member>, path: string, m: Match)
    ensures !FoundInMembers(engine, members, 0, path, m) && !InMembers(engine, members, 0, path, m)
  {
  }

  lemma {:induction false} MembersHold(engine: Engine, members: seq<Member>, n: nat, path: string, m: Match)
    requires n <= |members|
    ensures FoundInMembers(engine, members, n, path, m) <==> InMembers(engine, members, n, path, m)
    decreases n
  {
    if n > 0 {
      MembersHold(engine, members, n - 1, path, m);
      MembersStep(engine, members, n, path, m);
      OneMoreMember(engine, members, n, path, m);
    } else {
      NoMembers(engine, members, path, m);
    }
  }

  lemma ItemRoute(engine: Engine, items: seq<Json>, i: nat, route: seq<nat>)
    requires i < |items| && IsRoute(items[i], route) && route != []
    ensures var r := [i] + route;
      && IsRoute(Arr(items), r) && NameAt(Arr(items), r) == NameAt(items[i], route)
      && RouteText(engine, Arr(items), r) == "[" + engine.show(i) + "]" + RouteText(engine, items[i], route)
  {
    assert ([i] + route)[1..] == route;
  }

  lemma MemberRoute(engine: Engine, members: seq<Member>, i: nat, route: seq<nat>)
    requires i < |members| && IsRoute(members[i].value, route)
    ensures var r := [i] + route;
      && IsRoute(Obj(members), r)
      && NameAt(Obj(members), r) == (if route == [] then Some(members[i].key) else NameAt(members[i].value, route))
      && RouteText(engine, Obj(members), r) == "." + members[i].key + RouteText(engine, members[i].value, route)
  {
    assert ([i] + route)[1..] == route;
  }

  lemma Bracketed(path: string, index: string, rest: string)
    ensures (path + "[" + index + "]") + rest == path + ("[" + index + "]" + rest)
  {
  }

  lemma Dotted(path: string, key: string, rest: string)
    ensures (path + "." + key) + rest == path + ("." + key + rest)
  {
  }

  lemma DeeperItem(engine: Engine, items: seq<Json>, i: nat, path: string, route: seq<nat>, m: Match)
    requires i < |items| && Reports(engine, items[i], path + "[" + engine.show(i) + "]", route, m)
    ensures Reports(engine, Arr(items), path, [i] + route, m)
  {
    ItemRoute(engine, items, i, route);
    Bracketed(path, engine.show(i), RouteText(engine, items[i], route));
  }

  lemma DeeperMember(engine: Engine, members: seq<Member>, i: nat, path: string, route: seq<nat>, m: Match)
    requires i < |members| && Reports(engine, members[i].value, path + "." + members[i].key, route, m)
    ensures Reports(engine, Obj(members), path, [i] + route, m)
  {
    MemberRoute(engine, members, i, route);
    Dotted(path, members[i].key, RouteText(engine, members[i].value, route));
  }

  lemma OwnName(engine: Engine, members: seq<Member>, i: nat, path: string, m: Match)
    requires i < |members| && m.path == path + "." + members[i].key
    requires Rule(engine.lower(members[i].key)) == Some(m.pattern)
    ensures Reports(engine, Obj(members), path, [i], m)
  {
    RuleIs(engine.lower(members[i].key));
    MemberRoute(engine, members, i, []);
    assert [i] + [] == [i];
    Dotted(path, members[i].key, "");
    assert m.path + "" == m.path;
  }

  /** Every match reports a forbidden name. */
  lemma {:induction false} MatchHasRoute(engine: Engine, node: Json, path: string, m: Match) returns (route: seq<nat>)
    requires m in Scan(engine, node, path)
    ensures Reports(engine, node, path, route, m)
    decreases node
  {
    match node
    case Arr(items) =>
      ItemsHold(engine, items, |items|, path, m);
      var i: nat :| i < |items| && InItem(engine, items, i, path, m);
      var inner := MatchHasRoute(engine, items[i], path + "[" + engine.show(i) + "]", m);
      DeeperItem(engine, items, i, path, inner, m);
      route := [i] + inner;
    case Obj(members) =>
      MembersHold(engine, members, |members|, path, m);
      var i: nat :| i < |members| && InMember(engine, members, i, path, m);
      if m in Scan(engine, members[i].value, path + "." + members[i].key) {
        var inner := MatchHasRoute(engine, members[i].value, path + "." + members[i].key, m);
        DeeperMember(engine, members, i, path, inner, m);
        route := [i] + inner;
      } else {
        OwnName(engine, members, i, path, m);
        route := [i];
      }
  }

  /** No forbidden name escapes the scan. */
  lemma {:induction false} RouteHasMatch(engine: Engine, node: Json, path: string, route: seq<nat>, m: Match)
    requires Reports(engine, node, path, route, m)
    ensures m in Scan(engine, node, path)
    decreases |route|, 1
  {
    var i, rest := route[0], route[1..];
    assert route == [i] + rest;
    match node
    case Arr(items) =>
      ItemHasMatch(engine, items, i, path, rest, m);
      ItemScanned(engine, items, i, path, m);
    case Obj(members) =>
      MemberHasMatch(engine, members, i, path, rest, m);
      MemberScanned(engine, members, i, path, m);
  }

  lemma ItemScanned(engine: Engine, items: seq<Json>, i: nat, path: string, m: Match)
    requires InItem(engine, items, i, path, m)
    ensures m in Scan(engine, Arr(items), path)
  {
    ItemsHold(engine, items, |items|, path, m);
  }

  lemma MemberScanned(engine: Engine, members: seq<Member>, i: nat, path: string, m: Match)
    requires InMember(engine, members, i, path, m)
    ensures m in Scan(engine, Obj(members), path)
  {
    MembersHold(engine, members, |members|, path, m);
  }

  lemma {:induction false} ItemHasMatch(engine: Engine, items: seq<Json>, i: nat, path: string, rest: seq<nat>,
                                        m: Match)
    requires i < |items| && Reports(engine, Arr(items), path, [i] + rest, m)
    ensures InItem(engine, items, i, path, m)
    decreases |rest|, 2
  {
    assert ([i] + rest)[1..] == rest;
    ItemRoute(engine, items, i, rest);
    Bracketed(path, engine.show(i), RouteText(engine, items[i], rest));
    RouteHasMatch(engine, items[i], path + "[" + engine.show(i) + "]", rest, m);
  }

  lemma {:induction false} MemberHasMatch(engine: Engine, members: seq<Member>, i: nat, path: string, rest: seq<nat>,
                                          m: Match)
    requires i < |members| && Reports(engine, Obj(members), path, [i] + rest, m)
    ensures InMember(engine, members, i, path, m)
    decreases |rest|, 2
  {
    var at := path + "." + members[i].key;
    assert ([i] + rest)[1..] == rest;
    MemberRoute(engine, members, i, rest);
    Dotted(path, members[i].key, RouteText(engine, members[i].value, rest));
    if rest == [] {
      assert m.path == at + "" && at + "" == at;
    } else {
      RouteHasMatch(engine, members[i].value, at, rest, m);
    }
  }

  /** The matches are exactly the forbidden field names at any depth, each with its path and its rule. */
  lemma MatchesExactly(engine: Engine, node: Json, path: string, m: Match)
    ensures m in Scan(engine, node, path) <==> exists route :: Reports(engine, node, path, route, m)
  {
    if m in Scan(engine, node, path) {
      var route := MatchHasRoute(engine, node, path, m);
    } else {
      forall route ensures !Reports(engine, node, path, route, m) {
        if Reports(engine, node, path, route, m) {
          RouteHasMatch(engine, node, path, route, m);
        }
      }
    }
  }

  /** So the scan comes back empty if and only if no field name at any depth is forbidden. */
  lemma ScanFindsExactly(engine: Engine, node: Json, path: string)
    ensures Scan(engine, node, path) == [] <==> !exists route :: Forbidden(engine, node, route)
  {
    if Scan(engine, node, path) != [] {
      var route := MatchHasRoute(engine, node, path, Scan(engine, node, path)[0]);
    }
    forall route | Forbidden(engine, node, route) ensures Scan(engine, node, path) != [] {
      var name := engine.lower(NameAt(node, route).value);
      RuleIs(name);
      RouteHasMatch(engine, node, path, route, Match(path + RouteText(engine, node, route), Rule(name).value));
    }
  }
}
