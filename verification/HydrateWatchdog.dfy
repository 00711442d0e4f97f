/**
  The hydrate watchdogs of the metadata loader (extension/src/notebook/metadata-loader.ts): one timer per
  shipped notebook, stopped by a confirmation, a newer ship, a clear or disposal, or running out.
 */
module HydrateWatchdog {
  import opened Common
  import opened Json
  import opened Text
  import opened SecretScan

  const SCHEMA_MAJOR := "1"

  /** What the loader looks at in an opened document. */
  datatype Document = Document(uri: string, ours: bool, rts: Option<Rts>)
  datatype Rts = Rts(schemaVersion: string, config: Option<Json>)

  /** What the loader is made with: a router or none, in a JavaScript engine. */
  datatype Setup = Setup(router: bool, engine: Engine)

  datatype Outcome = Shipped | SkippedNoMetadata | SchemaMismatch | ForbiddenSecret | NoRouter

  datatype Reason = Confirmed | Superseded | Cleared

  /** What happened to a timer; timers are numbered in the order of their ships. */
  datatype Event = Stopped(timer: nat, why: Reason) | TimedOut(timer: nat)

  datatype Warning = Incompatible(uri: string) | HasSecrets(uri: string) | HydrateTimeout(uri: string)

  /** An entry of the pending map, which keeps insertion order. */
  datatype Watch = Watch(uri: string, timer: nat)

  /** `live` holds the event loop's armed timers and the URI each callback closes over; `ships` the URI of each
      hydrate shipped. */
  datatype State = State(
    pending: seq<Watch>,
    live: map<nat, string>,
    subscribed: bool,
    ships: seq<string>,
    events: seq<Event>,
    warnings: seq<Warning>)

  datatype Action =
    | Open(doc: Document)
    | Snapshot(mode: string, trigger: string)
    | Fire(timer: nat) // the event loop runs a timer's callback, if it is still armed
    | ClearFor(uri: string)
    | Dispose

  // ---- the pending map -------------------------------------------------------------------------

  function Find(pending: seq<Watch>, uri: string): Option<nat> {
    if pending == [] then None
    else if pending[|pending| - 1].uri == uri then Some(pending[|pending| - 1].timer)
    else Find(pending[..|pending| - 1], uri)
  }

  function Remove(pending: seq<Watch>, uri: string): seq<Watch> {
    if pending == [] then []
    else Remove(pending[..|pending| - 1], uri)
         + if pending[|pending| - 1].uri == uri then [] else [pending[|pending| - 1]]
  }

  /** `Map.set`: a present key keeps its place. */
  function Set(pending: seq<Watch>, w: Watch): seq<Watch> {
    if Find(pending, w.uri).None? then pending + [w] else Rearm(pending, w)
  }

  function Rearm(pending: seq<Watch>, w: Watch): seq<Watch> {
    if pending == [] then []
    else Rearm(pending[..|pending| - 1], w)
         + [if pending[|pending| - 1].uri == w.uri then w else pending[|pending| - 1]]
  }

  function Stops(pending: seq<Watch>, why: Reason): seq<Event> {
    if pending == [] then [] else Stops(pending[..|pending| - 1], why) + [Stopped(pending[|pending| - 1].timer, why)]
  }

  function Timers(pending: seq<Watch>): set<nat> {
    set w | w in pending :: w.timer
  }

  // ---- the steps -------------------------------------------------------------------------------

  /** The matches under `config`, an absent one being an empty object. */
  function Secrets(setup: Setup, rts: Rts): seq<Match> {
    Scan(setup.engine, if rts.config.Some? then rts.config.value else Obj([]), "metadata.rts.config")
  }

  function OutcomeOf(doc: Document, setup: Setup): Outcome {
    if !doc.ours || doc.rts.None? then SkippedNoMetadata
    else if Split(doc.rts.value.schemaVersion, '.')[0] != SCHEMA_MAJOR then SchemaMismatch
    else if Secrets(setup, doc.rts.value) != [] then ForbiddenSecret
    else if !setup.router then NoRouter
    else Outcome.Shipped
  }

  function Ship(s: State, uri: string): State {
    var timer, prev := |s.ships|, Find(s.pending, uri);
    s.(pending := Set(s.pending, Watch(uri, timer)),
       live := (if prev.Some? then s.live - {prev.value} else s.live)[timer := uri],
       ships := s.ships + [uri],
       events := if prev.Some? then s.events + [Stopped(prev.value, Superseded)] else s.events)
  }

  function OnOpen(s: State, doc: Document, setup: Setup): State {
    match OutcomeOf(doc, setup)
    case Shipped => Ship(s, doc.uri)
    case SchemaMismatch => s.(warnings := s.warnings + [Incompatible(doc.uri)])
    case ForbiddenSecret => s.(warnings := s.warnings + [HasSecrets(doc.uri)])
    case _ => s
  }

  function StopAll(s: State, why: Reason): State {
    s.(pending := [], live := s.live - Timers(s.pending), events := s.events + Stops(s.pending, why))
  }

  function OnFire(s: State, timer: nat): State {
    if timer !in s.live then s
    else
      var uri := s.live[timer];
      s.(pending := Remove(s.pending, uri), live := s.live - {timer},
         events := s.events + [TimedOut(timer)], warnings := s.warnings + [HydrateTimeout(uri)])
  }

  function OnClear(s: State, uri: string): State {
    var timer := Find(s.pending, uri);
    if timer.None? then s
    else s.(pending := Remove(s.pending, uri), live := s.live - {timer.value},
            events := s.events + [Stopped(timer.value, Cleared)])
  }

  predicate Confirms(mode: string, trigger: string) {
    mode == "snapshot" && trigger == "hydrate_complete"
  }

  function Apply(s: State, a: Action, setup: Setup): State {
    match a
    case Open(doc) => OnOpen(s, doc, setup)
    case Snapshot(mode, trigger) => if s.subscribed && Confirms(mode, trigger) then StopAll(s, Confirmed) else s
    case Fire(timer) => OnFire(s, timer)
    case ClearFor(uri) => OnClear(s, uri)
    case Dispose => StopAll(s, Cleared).(subscribed := false)
  }

  const INITIAL := State([], map[], true, [], [], [])

  function Run(actions: seq<Action>, setup: Setup): State {
    if actions == [] then INITIAL.(subscribed := setup.router)
    else Apply(Run(actions[..|actions| - 1], setup), actions[|actions| - 1], setup)
  }

  lemma StopOneMore(pending: seq<Watch>, i: nat, why: Reason)
    requires i < |pending|
    ensures Timers(pending[..i + 1]) == Timers(pending[..i]) + {pending[i].timer}
    ensures Stops(pending[..i + 1], why) == Stops(pending[..i], why) + [Stopped(pending[i].timer, why)]
  {
    assert pending[..i + 1][..i] == pending[..i];
    assert pending[..i + 1] == pending[..i] + [pending[i]];
  }

  // ---- the loader ------------------------------------------------------------------------------

  class MetadataLoader {
    const setup: Setup
    var pending: seq<Watch>
    var live: map<nat, string>
    var subscribed: bool
    var ships: seq<string>
    var events: seq<Event>
    var warnings: seq<Warning>

    function Now(): State
      reads this
    {
      State(pending, live, subscribed, ships, events, warnings)
    }

    constructor (setup: Setup)
      ensures this.setup == setup && Now() == Run([], setup)
    {
      this.setup := setup;
      pending, live, subscribed, ships, events, warnings := [], map[], setup.router, [], [], [];
    }

    method OnDidOpenNotebook(doc: Document) returns (outcome: Outcome)
      modifies this
      ensures outcome == OutcomeOf(doc, setup) && Now() == Apply(old(Now()), Open(doc), setup)
    {
      if !doc.ours || doc.rts.None? {
        return SkippedNoMetadata;
      }
      if Split(doc.rts.value.schemaVersion, '.')[0] != SCHEMA_MAJOR {
        warnings := warnings + [Incompatible(doc.uri)];
        return SchemaMismatch;
      }
      var config := if doc.rts.value.config.Some? then doc.rts.value.config.value else Obj([]);
      var forbidden := ScanForbiddenSecrets(setup.engine, config, "metadata.rts.config");
      if |forbidden| > 0 {
        warnings := warnings + [HasSecrets(doc.uri)];
        return ForbiddenSecret;
      }
      if !setup.router {
        return NoRouter;
      }
      var prev := Find(pending, doc.uri);
      if prev.Some? {
        ClearTimeout(prev.value, Superseded);
      }
      var timer := |ships|;
      live := live[timer := doc.uri];
      pending := Set(pending, Watch(doc.uri, timer));
      ships := ships + [doc.uri];
      return Outcome.Shipped;
    }

    method ClearTimeout(timer: nat, why: Reason)
      modifies this`live, this`events
      ensures live == old(live) - {timer} && events == old(events) + [Stopped(timer, why)]
    {
      live := live - {timer};
      events := events + [Stopped(timer, why)];
    }

    method ClearAll(why: Reason)
      modifies this`live, this`events, this`pending
      ensures Now() == StopAll(old(Now()), why)
    {
      for i := 0 to |pending|
        invariant pending == old(pending)
        invariant live == old(live) - Timers(pending[..i]) && events == old(events) + Stops(pending[..i], why)
      {
        StopOneMore(pending, i, why);
        ClearTimeout(pending[i].timer, why);
      }
      assert pending[..|pending|] == pending;
      pending := [];
    }

    method HandleConfirmation(mode: string, trigger: string)
      requires subscribed
      modifies this
      ensures Now() == Apply(old(Now()), Snapshot(mode, trigger), setup)
    {
      if mode != "snapshot" {
        return;
      }
      if trigger != "hydrate_complete" {
        return;
      }
      if |pending| > 0 {
        ClearAll(Confirmed);
      } else {
        assert Timers(pending) == {};
        assert live - {} == live && events + [] == events;
      }
    }

    /** The callback of an armed timer. */
    method OnTimeout(timer: nat)
      requires timer in live
      modifies this
      ensures Now() == Apply(old(Now()), Fire(timer), setup)
    {
      var uri := live[timer];
      live := live - {timer};
      pending := Remove(pending, uri);
      events := events + [TimedOut(timer)];
      warnings := warnings + [HydrateTimeout(uri)];
    }

    method ClearPendingFor(uri: string) returns (found: bool)
      modifies this
      ensures found <==> Find(old(pending), uri).Some?
      ensures Now() == Apply(old(Now()), ClearFor(uri), setup)
    {
      var timer := Find(pending, uri);
      if timer.Some? {
        ClearTimeout(timer.value, Cleared);
        pending := Remove(pending, uri);
        return true;
      }
      return false;
    }

    method DisposeLoader()
      modifies this
      ensures Now() == Apply(old(Now()), Dispose, setup)
    {
      ClearAll(Cleared);
      subscribed := false;
    }
  }

  // ---- what every run keeps ----------------------------------------------------------------------

  predicate OnePerUri(pending: seq<Watch>) {
    forall i, j :: 0 <= i < j < |pending| ==> pending[i].uri != pending[j].uri
  }

  /** The pending entries are the armed timers, at most one per URI. */
  predicate Matched(s: State) {
    && OnePerUri(s.pending)
    && (forall w <- s.pending :: w.timer in s.live && s.live[w.timer] == w.uri)
    && (forall t <- s.live :: Watch(s.live[t], t) in s.pending)
    && (forall t <- s.live :: t < |s.ships| && s.live[t] == s.ships[t])
  }

  /** How often a hydrate has ended, in whatever way. */
  function Ends(events: seq<Event>, t: nat): nat {
    if events == [] then 0
    else Ends(events[..|events| - 1], t) + if events[|events| - 1].timer == t then 1 else 0
  }

  /** Each hydrate shipped is in exactly one of pending, confirmed, superseded, cleared and timed out. */
  ghost predicate Accounted(s: State) {
    forall t: nat :: Ends(s.events, t) + (if t in s.live then 1 else 0) == if t < |s.ships| then 1 else 0
  }

  /** The URIs whose hydrate timed out, in order. */
  function TimedOutUris(events: seq<Event>, ships: seq<string>): seq<string> {
    if events == [] then []
    else
      var e := events[|events| - 1];
      TimedOutUris(events[..|events| - 1], ships)
      + if e.TimedOut? && e.timer < |ships| then [ships[e.timer]] else []
  }

  function TimeoutWarnings(warnings: seq<Warning>): seq<string> {
    if warnings == [] then []
    else
      var w := warnings[|warnings| - 1];
      TimeoutWarnings(warnings[..|warnings| - 1]) + if w.HydrateTimeout? then [w.uri] else []
  }

  predicate EventsKnown(s: State) {
    forall e <- s.events :: e.timer < |s.ships|
  }

  /** A timeout warning was shown for exactly the hydrates that timed out, in order. */
  predicate Warned(s: State) {
    EventsKnown(s) && TimeoutWarnings(s.warnings) == TimedOutUris(s.events, s.ships)
  }

  ghost predicate Inv(s: State) {
    Matched(s) && Accounted(s) && Warned(s)
  }

  lemma {:induction false} FindIs(pending: seq<Watch>, uri: string)
    ensures var r := Find(pending, uri);
      && (r.Some? ==> Watch(uri, r.value) in pending)
      && (r.None? ==> forall w <- pending :: w.uri != uri)
  {
    if pending != [] {
      var n := |pending| - 1;
      FindIs(pending[..n], uri);
      assert pending == pending[..n] + [pending[n]];
    }
  }

  lemma {:induction false} RemoveIs(pending: seq<Watch>, uri: string)
    requires OnePerUri(pending)
    ensures OnePerUri(Remove(pending, uri))
    ensures forall w :: w in Remove(pending, uri) <==> w in pending && w.uri != uri
  {
    if pending != [] {
      var n := |pending| - 1;
      RemoveIs(pending[..n], uri);
      assert pending == pending[..n] + [pending[n]];
      assert forall w <- pending[..n] :: w.uri != pending[n].uri;
    }
  }

  lemma {:induction false} RearmIs(pending: seq<Watch>, x: Watch)
    ensures |Rearm(pending, x)| == |pending|
    ensures forall i :: 0 <= i < |pending| ==> Rearm(pending, x)[i] == if pending[i].uri == x.uri then x else pending[i]
  {
    if pending != [] {
      RearmIs(pending[..|pending| - 1], x);
    }
  }

  lemma SetIs(pending: seq<Watch>, x: Watch)
    requires OnePerUri(pending)
    ensures OnePerUri(Set(pending, x))
    ensures forall w :: w in Set(pending, x) <==> w == x || (w in pending && w.uri != x.uri)
  {
    FindIs(pending, x.uri);
    RearmIs(pending, x);
    if Find(pending, x.uri).Some? {
      var p := Rearm(pending, x);
      forall w ensures w in p <==> w == x || (w in pending && w.uri != x.uri) {
        if w == x {
          var i :| 0 <= i < |pending| && pending[i] == Watch(x.uri, Find(pending, x.uri).value);
          assert p[i] == x;
        } else if w in pending && w.uri != x.uri {
          var i :| 0 <= i < |pending| && pending[i] == w;
          assert p[i] == w;
        }
      }
    }
  }

  // ---- counting ends -----------------------------------------------------------------------------

  lemma EndsAppend(events: seq<Event>, e: Event, t: nat)
    ensures Ends(events + [e], t) == Ends(events, t) + if e.timer == t then 1 else 0
  {
    assert (events + [e])[..|events|] == events;
  }

  lemma {:induction false} EndsStops(events: seq<Event>, pending: seq<Watch>, why: Reason, t: nat)
    requires forall i, j :: 0 <= i < j < |pending| ==> pending[i].timer != pending[j].timer
    ensures Ends(events + Stops(pending, why), t) == Ends(events, t) + if t in Timers(pending) then 1 else 0
  {
    if pending == [] {
      assert events + Stops(pending, why) == events;
    } else {
      var n := |pending| - 1;
      EndsStops(events, pending[..n], why, t);
      EndsAppend(events + Stops(pending[..n], why), Stopped(pending[n].timer, why), t);
      assert events + Stops(pending, why) == (events + Stops(pending[..n], why)) + [Stopped(pending[n].timer, why)];
      TimersStep(pending);
    }
  }

  lemma TimersStep(pending: seq<Watch>)
    requires pending != []
    ensures var n := |pending| - 1; Timers(pending) == Timers(pending[..n]) + {pending[n].timer}
  {
    var n := |pending| - 1;
    assert pending == pending[..n] + [pending[n]];
  }

  /** Moving timers from armed to ended, and arming a new one, keeps the account. */
  lemma AccountMoves(s: State, n: State, gone: set<nat>)
    requires Accounted(s) && gone <= s.live.Keys && (n.ships == s.ships || |n.ships| == |s.ships| + 1)
    requires n.live.Keys == s.live.Keys - gone + if n.ships == s.ships then {} else {|s.ships|}
    requires forall t: nat :: Ends(n.events, t) == Ends(s.events, t) + if t in gone then 1 else 0
    ensures Accounted(n)
  {
    forall t: nat ensures Ends(n.events, t) + (if t in n.live then 1 else 0) == if t < |n.ships| then 1 else 0 {
      assert Ends(s.events, t) + (if t in s.live then 1 else 0) == if t < |s.ships| then 1 else 0;
      assert Ends(n.events, t) == Ends(s.events, t) + if t in gone then 1 else 0;
    }
  }

  lemma {:induction false} StopsTimers(pending: seq<Watch>, why: Reason)
    ensures forall e <- Stops(pending, why) :: e.Stopped? && e.timer in Timers(pending)
  {
    if pending != [] {
      var n := |pending| - 1;
      StopsTimers(pending[..n], why);
      assert pending == pending[..n] + [pending[n]];
    }
  }

  // ---- timeout warnings --------------------------------------------------------------------------

  lemma UrisAppendOne(events: seq<Event>, e: Event, ships: seq<string>)
    ensures TimedOutUris(events + [e], ships)
         == TimedOutUris(events, ships) + if e.TimedOut? && e.timer < |ships| then [ships[e.timer]] else []
  {
    assert (events + [e])[..|events|] == events;
  }

  lemma {:induction false} UrisAppendStops(events: seq<Event>, pending: seq<Watch>, why: Reason, ships: seq<string>)
    ensures TimedOutUris(events + Stops(pending, why), ships) == TimedOutUris(events, ships)
  {
    if pending == [] {
      assert events + Stops(pending, why) == events;
    } else {
      var n := |pending| - 1;
      UrisAppendStops(events, pending[..n], why, ships);
      UrisAppendOne(events + Stops(pending[..n], why), Stopped(pending[n].timer, why), ships);
      assert events + Stops(pending, why) == (events + Stops(pending[..n], why)) + [Stopped(pending[n].timer, why)];
    }
  }

  lemma {:induction false} UrisGrow(events: seq<Event>, ships: seq<string>, uri: string)
    requires forall e <- events :: e.timer < |ships|
    ensures TimedOutUris(events, ships + [uri]) == TimedOutUris(events, ships)
  {
    if events != [] {
      UrisGrow(events[..|events| - 1], ships, uri);
      assert events[|events| - 1] in events;
    }
  }

  lemma WarnAppend(warnings: seq<Warning>, w: Warning)
    ensures TimeoutWarnings(warnings + [w]) == TimeoutWarnings(warnings) + if w.HydrateTimeout? then [w.uri] else []
  {
    assert (warnings + [w])[..|warnings|] == warnings;
  }

  // ---- which documents are hydrated --------------------------------------------------------------

  /** The configuration holds no forbidden field name at any depth; an absent one holds none. */
  ghost predicate NoSecrets(setup: Setup, rts: Rts) {
    rts.config.Some? ==> !exists route :: Forbidden(setup.engine, rts.config.value, route)
  }

  lemma SecretsExactly(setup: Setup, rts: Rts)
    ensures Secrets(setup, rts) == [] <==> NoSecrets(setup, rts)
  {
    if rts.config.Some? {
      ScanFindsExactly(setup.engine, rts.config.value, "metadata.rts.config");
    }
  }

  /** A hydrate is shipped if and only if the document is a notebook of ours with metadata of schema version 1, no field
      name at any depth of its configuration is forbidden, and there is a router; otherwise no timer is armed and the
      first reason that applies is the outcome. */
  lemma ShippedExactly(s: State, doc: Document, setup: Setup)
    ensures var outcome, t := OutcomeOf(doc, setup), OnOpen(s, doc, setup);
      if !doc.ours || doc.rts.None? then outcome == SkippedNoMetadata && t == s
      else
        var v := doc.rts.value.schemaVersion;
        if v != "1" && !("1." <= v)
        then outcome == SchemaMismatch && t == s.(warnings := s.warnings + [Incompatible(doc.uri)])
        else if !NoSecrets(setup, doc.rts.value)
        then outcome == ForbiddenSecret && t == s.(warnings := s.warnings + [HasSecrets(doc.uri)])
        else if !setup.router then outcome == NoRouter && t == s
        else outcome == Shipped && t.ships == s.ships + [doc.uri]
  {
    if doc.rts.Some? {
      FirstPartIs(doc.rts.value.schemaVersion, '.', "1");
      assert "1" + ['.'] == "1.";
      SecretsExactly(setup, doc.rts.value);
    }
  }

  // ---- each step ---------------------------------------------------------------------------------

  lemma ShipKeeps(s: State, uri: string)
    requires Inv(s)
    ensures Inv(Ship(s, uri))
  {
    ShipMatched(s, uri);
    ShipAccounted(s, uri);
    ShipWarned(s, uri);
  }

  lemma ShipAccounted(s: State, uri: string)
    requires Matched(s) && Accounted(s)
    ensures Accounted(Ship(s, uri))
  {
    if Find(s.pending, uri).Some? {
      ReshipAccounted(s, uri);
    } else {
      AccountMoves(s, Ship(s, uri), {});
    }
  }

  /** The timer of the earlier hydrate is stopped. */
  lemma ReshipAccounted(s: State, uri: string)
    requires Matched(s) && Accounted(s) && Find(s.pending, uri).Some?
    ensures Accounted(Ship(s, uri))
  {
    var t := Find(s.pending, uri).value;
    FoundIsLive(s, uri);
    ReshipParts(s, uri);
    OneEnded(s.events, Stopped(t, Superseded));
    AccountMoves(s, Ship(s, uri), {t});
  }

  lemma FoundIsLive(s: State, uri: string)
    requires Matched(s) && Find(s.pending, uri).Some?
    ensures Find(s.pending, uri).value in s.live
  {
    FindIs(s.pending, uri);
    assert Watch(uri, Find(s.pending, uri).value) in s.pending;
  }

  lemma ReshipParts(s: State, uri: string)
    requires Find(s.pending, uri).Some?
    ensures var n, t := Ship(s, uri), Find(s.pending, uri).value;
      && n.events == s.events + [Stopped(t, Superseded)] && |n.ships| == |s.ships| + 1
      && n.live.Keys == s.live.Keys - {t} + {|s.ships|}
  {
    ReplacedKey(s.live, Find(s.pending, uri).value, |s.ships|, uri);
  }

  lemma ReplacedKey(m: map<nat, string>, t: nat, k: nat, uri: string)
    ensures (m - {t})[k := uri].Keys == m.Keys - {t} + {k}
  {
  }

  lemma OneEnded(events: seq<Event>, e: Event)
    ensures forall t: nat :: Ends(events + [e], t) == Ends(events, t) + if t in {e.timer} then 1 else 0
  {
    forall t: nat ensures Ends(events + [e], t) == Ends(events, t) + if t in {e.timer} then 1 else 0 {
      EndsAppend(events, e, t);
    }
  }

  lemma ShipWarned(s: State, uri: string)
    requires Matched(s) && Warned(s)
    ensures Warned(Ship(s, uri))
  {
    var prev := Find(s.pending, uri);
    FindIs(s.pending, uri);
    UrisGrow(s.events, s.ships, uri);
    if prev.Some? {
      UrisAppendOne(s.events, Stopped(prev.value, Superseded), s.ships + [uri]);
    }
  }

  lemma ShipMatched(s: State, uri: string)
    requires Matched(s)
    ensures Matched(Ship(s, uri))
  {
    SetIs(s.pending, Watch(uri, |s.ships|));
    FindIs(s.pending, uri);
    var n, prev := Ship(s, uri), Find(s.pending, uri);
    forall t | t in n.live ensures Watch(n.live[t], t) in n.pending {
      if t != |s.ships| {
        var w := Watch(s.live[t], t);
        assert w in s.pending;
        if w.uri == uri {
          SameWatch(s.pending, w, Watch(uri, prev.value));
        }
      }
    }
  }

  lemma SameWatch(pending: seq<Watch>, a: Watch, b: Watch)
    requires OnePerUri(pending) && a in pending && b in pending && a.uri == b.uri
    ensures a == b
  {
    var i :| 0 <= i < |pending| && pending[i] == a;
    var j :| 0 <= j < |pending| && pending[j] == b;
    assert i == j;
  }

  function Take(s: State, w: Watch, e: Event): State {
    s.(pending := Remove(s.pending, w.uri), live := s.live - {w.timer}, events := s.events + [e])
  }

  /** Taking one pending entry out, whatever the reason. */
  lemma TakeKeeps(s: State, w: Watch, e: Event)
    requires Matched(s) && Accounted(s) && w in s.pending && e.timer == w.timer
    ensures Matched(Take(s, w, e)) && Accounted(Take(s, w, e))
  {
    TakeMatched(s, w, e);
    forall t: nat ensures Ends(s.events + [e], t) == Ends(s.events, t) + if t in {w.timer} then 1 else 0 {
      EndsAppend(s.events, e, t);
    }
    AccountMoves(s, Take(s, w, e), {w.timer});
  }

  lemma TakeMatched(s: State, w: Watch, e: Event)
    requires Matched(s) && w in s.pending && e.timer == w.timer
    ensures Matched(Take(s, w, e))
  {
    var n := Take(s, w, e);
    RemoveIs(s.pending, w.uri);
    forall t | t in n.live ensures Watch(n.live[t], t) in n.pending {
      var v := Watch(s.live[t], t);
      assert v in s.pending;
      if v.uri == w.uri {
        SameWatch(s.pending, v, w);
      }
    }
    forall v | v in n.pending ensures v.timer in n.live && n.live[v.timer] == v.uri {
      assert v in s.pending;
    }
  }

  lemma FireKeeps(s: State, timer: nat)
    requires Inv(s)
    ensures Inv(OnFire(s, timer))
  {
    if timer in s.live {
      var w := Watch(s.live[timer], timer);
      TakeKeeps(s, w, TimedOut(timer));
      SameButWarnings(Take(s, w, TimedOut(timer)), OnFire(s, timer));
      FireWarned(s, timer);
    }
  }

  lemma SameButWarnings(s: State, n: State)
    requires Matched(s) && Accounted(s) && n == s.(warnings := n.warnings, subscribed := n.subscribed)
    ensures Matched(n) && Accounted(n)
  {
  }

  lemma FireWarned(s: State, timer: nat)
    requires Matched(s) && Warned(s) && timer in s.live
    ensures Warned(OnFire(s, timer))
  {
    WarnAppend(s.warnings, HydrateTimeout(s.live[timer]));
    UrisAppendOne(s.events, TimedOut(timer), s.ships);
  }

  lemma ClearKeeps(s: State, uri: string)
    requires Inv(s)
    ensures Inv(OnClear(s, uri))
  {
    var timer := Find(s.pending, uri);
    if timer.Some? {
      FindIs(s.pending, uri);
      TakeKeeps(s, Watch(uri, timer.value), Stopped(timer.value, Cleared));
      UrisAppendOne(s.events, Stopped(timer.value, Cleared), s.ships);
    }
  }

  lemma StopAllKeeps(s: State, why: Reason)
    requires Inv(s)
    ensures Inv(StopAll(s, why)) && StopAll(s, why).live == map[]
  {
    forall t ensures t in Timers(s.pending) <==> t in s.live {
      if t in s.live {
        assert Watch(s.live[t], t) in s.pending;
      }
    }
    forall t: nat ensures Ends(s.events + Stops(s.pending, why), t)
                       == Ends(s.events, t) + if t in Timers(s.pending) then 1 else 0
    {
      EndsStops(s.events, s.pending, why, t);
    }
    AccountMoves(s, StopAll(s, why), Timers(s.pending));
    StopAllWarned(s, why);
  }

  lemma StopAllWarned(s: State, why: Reason)
    requires Matched(s) && Warned(s)
    ensures Warned(StopAll(s, why))
  {
    StopsTimers(s.pending, why);
    UrisAppendStops(s.events, s.pending, why, s.ships);
    forall e | e in StopAll(s, why).events ensures e.timer < |s.ships| {
      assert e in s.events || e in Stops(s.pending, why);
    }
  }

  lemma OpenKeeps(s: State, doc: Document, setup: Setup)
    requires Inv(s)
    ensures Inv(OnOpen(s, doc, setup))
  {
    match OutcomeOf(doc, setup)
    case Shipped => ShipKeeps(s, doc.uri);
    case SchemaMismatch => WarnAppend(s.warnings, Incompatible(doc.uri));
    case ForbiddenSecret => WarnAppend(s.warnings, HasSecrets(doc.uri));
    case _ =>
  }

  lemma StepKeeps(s: State, a: Action, setup: Setup)
    requires Inv(s)
    ensures Inv(Apply(s, a, setup))
  {
    match a
    case Open(doc) => OpenKeeps(s, doc, setup);
    case Snapshot(mode, trigger) => StopAllKeeps(s, Confirmed);
    case Fire(timer) => FireKeeps(s, timer);
    case ClearFor(uri) => ClearKeeps(s, uri);
    case Dispose => DisposeKeeps(s);
  }

  lemma DisposeKeeps(s: State)
    requires Inv(s)
    ensures Inv(StopAll(s, Cleared).(subscribed := false))
  {
    StopAllKeeps(s, Cleared);
    SameButWarnings(StopAll(s, Cleared), StopAll(s, Cleared).(subscribed := false));
  }

  lemma {:induction false} RunKeepsInv(actions: seq<Action>, setup: Setup)
    ensures Inv(Run(actions, setup))
  {
    if actions != [] {
      RunKeepsInv(actions[..|actions| - 1], setup);
      StepKeeps(Run(actions[..|actions| - 1], setup), actions[|actions| - 1], setup);
    }
  }

  /** Numbers of confirmations, supersessions, clears and timeouts of one timer. */
  function Times(events: seq<Event>, e: Event): nat {
    if events == [] then 0
    else Times(events[..|events| - 1], e) + if events[|events| - 1] == e then 1 else 0
  }

  lemma {:induction false} EndsAre(events: seq<Event>, t: nat)
    ensures Ends(events, t)
         == Times(events, Stopped(t, Confirmed)) + Times(events, Stopped(t, Superseded))
          + Times(events, Stopped(t, Cleared)) + Times(events, TimedOut(t))
  {
    if events != [] {
      EndsAre(events[..|events| - 1], t);
      var e := events[|events| - 1];
      if e.Stopped? {
        assert e.why == Confirmed || e.why == Superseded || e.why == Cleared;
      }
    }
  }

  /** In every run, each hydrate shipped is exactly one of pending, confirmed, superseded, cleared and timed out:
      one of the five counts is 1 and the others are 0. */
  lemma EveryHydrateAccounted(actions: seq<Action>, setup: Setup, t: nat)
    ensures var s := Run(actions, setup);
      (if t in s.live then 1 else 0)
      + Times(s.events, Stopped(t, Confirmed)) + Times(s.events, Stopped(t, Superseded))
      + Times(s.events, Stopped(t, Cleared)) + Times(s.events, TimedOut(t))
      == if t < |s.ships| then 1 else 0
  {
    RunKeepsInv(actions, setup);
    EndsAre(Run(actions, setup).events, t);
  }

  /** In every run, the pending URIs are exactly those with an armed timer, one each, and the timeout warnings name
      exactly the hydrates that timed out, in order. */
  lemma PendingIsArmed(actions: seq<Action>, setup: Setup)
    ensures var s := Run(actions, setup);
      && OnePerUri(s.pending)
      && (forall t: nat, uri :: Watch(uri, t) in s.pending <==> t in s.live && s.live[t] == uri)
      && (forall t <- s.live :: t < |s.ships| && s.live[t] == s.ships[t])
      && TimeoutWarnings(s.warnings) == TimedOutUris(s.events, s.ships)
  {
    RunKeepsInv(actions, setup);
  }

  lemma {:induction false} StopsHold(events: seq<Event>, pending: seq<Watch>, why: Reason, w: Watch)
    requires w in pending
    ensures Times(events + Stops(pending, why), Stopped(w.timer, why)) >= 1
  {
    var n := |pending| - 1;
    var before := events + Stops(pending[..n], why);
    assert events + Stops(pending, why) == before + [Stopped(pending[n].timer, why)];
    assert (before + [Stopped(pending[n].timer, why)])[..|before|] == before;
    if w != pending[n] {
      assert pending == pending[..n] + [pending[n]];
      StopsHold(events, pending[..n], why, w);
    }
  }

  lemma ConfirmedOnce(s: State, t: nat)
    requires Inv(s) && t in s.live
    ensures Times(StopAll(s, Confirmed).events, Stopped(t, Confirmed)) == 1
  {
    var n := StopAll(s, Confirmed);
    StopAllKeeps(s, Confirmed);
    StopsHold(s.events, s.pending, Confirmed, Watch(s.live[t], t));
    EndsAre(n.events, t);
    assert Ends(n.events, t) + (if t in n.live then 1 else 0) == if t < |n.ships| then 1 else 0;
  }

  /** A confirmation names no notebook: it settles every pending hydrate, whichever it was meant for. */
  lemma ConfirmationSettlesAll(actions: seq<Action>, setup: Setup, t: nat)
    requires Run(actions, setup).subscribed && t in Run(actions, setup).live
    ensures var s := Run(actions + [Snapshot("snapshot", "hydrate_complete")], setup);
      s.pending == [] && s.live == map[] && Times(s.events, Stopped(t, Confirmed)) == 1
  {
    var was := Run(actions, setup);
    var confirm := actions + [Snapshot("snapshot", "hydrate_complete")];
    assert confirm[..|confirm| - 1] == actions;
    RunKeepsInv(actions, setup);
    StopAllKeeps(was, Confirmed);
    ConfirmedOnce(was, t);
  }

  /** Disposal stops every timer and ends the subscription. */
  lemma DisposalStopsAll(actions: seq<Action>, setup: Setup)
    ensures var s := Run(actions + [Dispose], setup); s.pending == [] && s.live == map[] && !s.subscribed
  {
    var all := actions + [Dispose];
    assert all[..|all| - 1] == actions;
    RunKeepsInv(actions, setup);
    StopAllKeeps(Run(actions, setup), Cleared);
  }
}
