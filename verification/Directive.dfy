/**
  The cell-directive parser (extension/src/notebook/controller.ts, `parseCellDirective`): the
  canonical `@@` and `@` magics and the legacy `/spawn` and `@id:` forms.  Each regular
  expression of the source is written out as the scan it performs.
 */
module Directive {
  import opened Common
  import opened Text

  datatype CellDirective =
    | Spawn(agentId: string, task: string, endpoint: Option<string>)
    | Continue(agentId: string, text: string)
    | CellMagic(magic: string, args: string, cellKind: string)
    | LineMagic(magic: string, args: string, sets: seq<string>, unsets: seq<string>)

  const CELL_MAGICS := {
    "agent", "spawn", "markdown", "scratch", "checkpoint", "endpoint", "compare", "section",
    "tool", "artifact", "native"}
  const LINE_MAGICS := {
    "pin", "unpin", "exclude", "include", "mark", "affinity", "handoff", "status",
    "revert", "stop", "branch"}

  const TASK := "task:\""
  const ENDPOINT := "endpoint:"

  // ---- characters --------------------------------------------------------------------------------

  /** JavaScript's line terminators, which `.` does not match. */
  predicate IsTerminator(c: char) {
    c == '\n' || c == '\r' || c as int == 0x2028 || c as int == 0x2029
  }

  /** JavaScript's `\s`, also what `trim` removes. */
  predicate IsSpace(c: char) {
    || IsTerminator(c) || c == ' ' || c == '\t' || c as int == 0x0B || c as int == 0x0C
    || c as int == 0xA0 || c as int == 0x1680 || 0x2000 <= c as int <= 0x200A
    || c as int == 0x202F || c as int == 0x205F || c as int == 0x3000 || c as int == 0xFEFF
  }

  predicate IsNameStart(c: char) {
    'A' <= c <= 'Z' || 'a' <= c <= 'z' || c == '_'
  }

  predicate IsWord(c: char) {
    IsNameStart(c) || '0' <= c <= '9'
  }

  /** The longest prefix of characters that satisfy the test. */
  function Run(s: string, test: char -> bool): (r: string)
    ensures r <= s
  {
    if s != "" && test(s[0]) then [s[0]] + Run(s[1..], test) else ""
  }

  function TrimLeft(s: string): string {
    if s != "" && IsSpace(s[0]) then TrimLeft(s[1..]) else s
  }

  function TrimRight(s: string): string {
    if s != "" && IsSpace(s[|s| - 1]) then TrimRight(s[..|s| - 1]) else s
  }

  function Trim(s: string): string {
    TrimRight(TrimLeft(s))
  }

  predicate NoSpaces(s: string) {
    forall i :: 0 <= i < |s| ==> !IsSpace(s[i])
  }

  predicate SingleLine(s: string) {
    forall i :: 0 <= i < |s| ==> !IsTerminator(s[i])
  }

  function NonSpaceRun(s: string): string {
    Run(s, c => !IsSpace(c))
  }

  // ---- the scans -----------------------------------------------------------------------------------

  /** The first place where `pat` occurs, or -1. */
  function Find(s: string, pat: string): (i: int)
    ensures -1 <= i && (i >= 0 ==> i + |pat| <= |s|)
  {
    if pat <= s then 0
    else if s == "" then -1
    else var r := Find(s[1..], pat); if r < 0 then -1 else r + 1
  }

  /** `/task:"([^"]*)"/`: a later quote always closes the first occurrence if it closes any. */
  function MatchTask(s: string): Option<string> {
    var i := Find(s, TASK);
    if i < 0 then None
    else
      var rest := s[i + |TASK|..];
      var q := IndexOf(rest, '"');
      if q < 0 then None else Some(rest[..q])
  }

  /** `/endpoint:(\S+)/`: the first occurrence that is followed by a non-space. */
  function MatchEndpoint(s: string): Option<string> {
    if s == "" then None
    else if ENDPOINT <= s && |s| > |ENDPOINT| && !IsSpace(s[|ENDPOINT|]) then Some(NonSpaceRun(s[|ENDPOINT|..]))
    else MatchEndpoint(s[1..])
  }

  /** `/^@@([A-Za-z_][\w]*)\s*(.*)$/` */
  function MatchCellMagic(head: string): Option<(string, string)> {
    if !("@@" <= head && |head| > 2 && IsNameStart(head[2])) then None
    else
      var name := Run(head[2..], IsWord);
      var rest := TrimLeft(head[2 + |name|..]);
      if SingleLine(rest) then Some((name, rest)) else None
  }

  /** `/^@([A-Za-z_][\w]*)(?:\s+([\s\S]*))?$/` */
  function MatchLineMagic(head: string): Option<(string, string)> {
    if !("@" <= head && |head| > 1 && IsNameStart(head[1])) then None
    else
      var name := Run(head[1..], IsWord);
      var after := head[1 + |name|..];
      if after == "" then Some((name, ""))
      else if IsSpace(after[0]) then Some((name, TrimLeft(after)))
      else None
  }

  /** `/^\/spawn\s+(\S+)\s+task:"([^"]*)"\s*$/` on a trimmed line. */
  function MatchLegacySpawn(line: string): Option<(string, string)> {
    if !("/spawn" <= line && |line| > 6 && IsSpace(line[6])) then None else MatchSpawnArgs(TrimLeft(line[6..]))
  }

  function MatchSpawnArgs(args: string): Option<(string, string)> {
    var id := NonSpaceRun(args);
    var after := args[|id|..];
    var body := TrimLeft(after);
    if id == "" || after == "" || !(TASK <= body) then None
    else
      var rest := body[|TASK|..];
      var q := IndexOf(rest, '"');
      if q >= 0 && TrimLeft(rest[q + 1..]) == "" then Some((id, rest[..q])) else None
  }

  /** `/^@([^\s:]+)\s*:\s*([\s\S]+)$/` on a trimmed line. */
  function MatchLegacyContinue(line: string): Option<(string, string)> {
    if !("@" <= line) then None
    else
      var id := Run(line[1..], c => !IsSpace(c) && c != ':');
      var after := TrimLeft(line[1 + |id|..]);
      if id == "" || !(":" <= after) then None
      else
        var body := TrimLeft(after[1..]);
        if body == "" then None else Some((id, body))
  }

  /** `split(/\r?\n/)`: every line but the last loses one carriage return before its break. */
  function SplitLines(text: string): (ls: seq<string>)
    ensures |ls| >= 1
  {
    var ps := Split(text, '\n');
    seq(|ps|, i requires 0 <= i < |ps| => if i < |ps| - 1 then StripCR(ps[i]) else ps[i])
  }

  /** The first line that is not blank. */
  function HeadIndex(lines: seq<string>): (i: nat)
    ensures i <= |lines|
  {
    if lines != [] && Trim(lines[0]) == "" then 1 + HeadIndex(lines[1..]) else 0
  }

  /** The source's index loop. */
  method FindHead(lines: seq<string>) returns (idx: nat)
    ensures idx == HeadIndex(lines)
    ensures forall i :: 0 <= i < idx ==> Trim(lines[i]) == ""
    ensures idx < |lines| ==> Trim(lines[idx]) != ""
  {
    idx := 0;
    while idx < |lines| && |Trim(lines[idx])| == 0
      invariant idx <= |lines| && idx + HeadIndex(lines[idx..]) == HeadIndex(lines)
      invariant forall i :: 0 <= i < idx ==> Trim(lines[i]) == ""
    {
      assert lines[idx..][1..] == lines[idx + 1..];
      idx := idx + 1;
    }
  }

  function ParseMagic(name: string, rest: string, below: seq<string>): Option<CellDirective> {
    var args := Trim(rest);
    var first := NonSpaceRun(args);
    if name == "spawn" then
      var task := MatchTask(args);
      if first != "" && task.Some? then Some(Spawn(first, task.value, MatchEndpoint(args))) else None
    else if name == "agent" then
      var body := Trim(Join(below, '\n'));
      if first != "" && body != "" then Some(Continue(first, body)) else None
    else Some(CellMagic(name, args, name))
  }

  function ParseLegacy(head: string): Option<CellDirective> {
    var trimmed := Trim(head);
    var spawn := MatchLegacySpawn(trimmed);
    var cont := MatchLegacyContinue(trimmed);
    if spawn.Some? then Some(Spawn(spawn.value.0, spawn.value.1, None))
    else if cont.Some? && Trim(cont.value.1) != "" then Some(Continue(cont.value.0, Trim(cont.value.1)))
    else None
  }

  function Flags(magic: string): (seq<string>, seq<string>) {
    if magic == "pin" then (["pinned"], [])
    else if magic == "unpin" then ([], ["pinned"])
    else if magic == "exclude" then (["excluded"], [])
    else if magic == "include" then ([], ["excluded"])
    else ([], [])
  }

  function ParseHead(head: string, below: seq<string>): Option<CellDirective> {
    var cell := MatchCellMagic(head);
    var line := MatchLineMagic(head);
    if Trim(head) == "@@break" then None
    else if cell.Some? && cell.value.0 in CELL_MAGICS then ParseMagic(cell.value.0, cell.value.1, below)
    else if line.Some? && line.value.0 in LINE_MAGICS && ':' !in head then
      var flags := Flags(line.value.0);
      Some(LineMagic(line.value.0, Trim(line.value.1), flags.0, flags.1))
    else ParseLegacy(head)
  }

  function Parse(text: string): Option<CellDirective> {
    if text == "" then None
    else
      var lines := SplitLines(text);
      var idx := HeadIndex(lines);
      if idx >= |lines| then None else ParseHead(lines[idx], lines[idx + 1..])
  }

  // ---- printing ------------------------------------------------------------------------------------

  function SpawnArgs(id: string, endpoint: Option<string>, task: string): string {
    id + " " + (if endpoint.Some? then ENDPOINT + endpoint.value + " " else "") + (TASK + (task + "\""))
  }

  function PrintSpawn(id: string, endpoint: Option<string>, task: string): string {
    "@@" + "spawn" + " " + SpawnArgs(id, endpoint, task)
  }

  function PrintLegacySpawn(id: string, task: string): string {
    "/spawn " + SpawnArgs(id, None, task)
  }

  function PrintAgent(id: string, body: string): string {
    "@@agent " + id + ['\n'] + body
  }
}
