/** Round trips through the cell-directive parser. */
module DirectiveTrips {
  import opened Common
  import opened Text
  import opened Directive

  // ---- searching across a separator ----------------------------------------------------------------

  lemma PrefixStaysLeft(w: string, c: char, rest: string, pat: string)
    requires c !in pat
    ensures pat <= w + [c] + rest ==> pat <= w
  {
    var s := w + [c] + rest;
    assert s[|w|] == c;
    assert |w| < |pat| ==> pat[|w|] != c;
    if pat <= s && |pat| <= |w| {
      assert s[..|pat|] == w[..|pat|];
    }
  }

  lemma {:induction false} FindSkips(w: string, c: char, rest: string, pat: string)
    requires pat != "" && c !in pat && !Has(w, pat)
    ensures Find(w + [c] + rest, pat) == var r := Find(rest, pat); if r < 0 then -1 else |w| + 1 + r
  {
    var s := w + [c] + rest;
    PrefixStaysLeft(w, c, rest, pat);
    if w == "" {
      assert s[1..] == rest;
    } else {
      assert s[1..] == w[1..] + [c] + rest;
      FindSkips(w[1..], c, rest, pat);
    }
  }

  lemma {:induction false} EndpointSkips(w: string, c: char, rest: string)
    requires c !in ENDPOINT && !Has(w, ENDPOINT)
    ensures MatchEndpoint(w + [c] + rest) == MatchEndpoint(rest)
  {
    var s := w + [c] + rest;
    PrefixStaysLeft(w, c, rest, ENDPOINT);
    if w == "" {
      assert s[1..] == rest;
    } else {
      assert s[1..] == w[1..] + [c] + rest;
      EndpointSkips(w[1..], c, rest);
    }
  }

  lemma {:induction false} FindCharAt(w: string, c: char, rest: string)
    requires c !in w
    ensures IndexOf(w + [c] + rest, c) == |w|
  {
    var s := w + [c] + rest;
    if w != "" {
      assert s[1..] == w[1..] + [c] + rest && s[0] == w[0] && w[0] in w;
      FindCharAt(w[1..], c, rest);
    }
  }

  lemma {:induction false} RunStops(w: string, rest: string, test: char -> bool)
    requires forall i :: 0 <= i < |w| ==> test(w[i])
    requires rest == "" || !test(rest[0])
    ensures Run(w + rest, test) == w
  {
    if w == "" {
      assert w + rest == rest;
    } else {
      assert (w + rest)[1..] == w[1..] + rest;
      RunStops(w[1..], rest, test);
    }
  }

  lemma TrimKeeps(s: string)
    requires s != "" && !IsSpace(s[0]) && !IsSpace(s[|s| - 1])
    ensures Trim(s) == s
  {
  }

  lemma {:induction false} HasNotAcross(a: string, s: string, pat: string)
    requires forall k :: 0 <= k < |a| ==> !(pat <= (a + s)[k..])
    requires pat != ""
    ensures Has(a + s, pat) ==> Has(s, pat)
  {
    var t := a + s;
    if a == "" {
      assert t == s;
    } else {
      assert t[0..] == t && t[1..] == a[1..] + s;
      forall k | 0 <= k < |a[1..]| ensures !(pat <= (a[1..] + s)[k..]) {
        assert (a[1..] + s)[k..] == t[k + 1..];
      }
      HasNotAcross(a[1..], s, pat);
    }
  }

  lemma EndpointHasNoTask(e: string)
    requires !Has(e, TASK)
    ensures !Has(ENDPOINT + e, TASK)
  {
    var t := ENDPOINT + e;
    forall k | 0 <= k < |ENDPOINT| ensures !(TASK <= t[k..]) {
      assert t[k] == ENDPOINT[k];
      assert |t[k..]| > 1 ==> t[k..][0] == t[k] && t[k..][1] == t[k + 1];
      assert t[8] == ':' && t[7] == 't';
    }
    HasNotAcross(ENDPOINT, e, TASK);
  }

  // ---- the arguments of a spawn ----------------------------------------------------------------------

  /** An agent id that can be printed. */
  predicate GoodId(id: string) {
    id != "" && NoSpaces(id)
  }

  predicate GoodTask(task: string) {
    '"' !in task && SingleLine(task)
  }

  predicate GoodEndpoint(e: string) {
    e != "" && NoSpaces(e) && !Has(e, TASK)
  }

  function Tail(task: string): string {
    TASK + (task + "\"")
  }

  lemma TailTask(task: string)
    requires '"' !in task
    ensures Find(Tail(task), TASK) == 0
    ensures Tail(task)[|TASK|..] == task + ['"'] + ""
    ensures IndexOf(task + ['"'] + "", '"') == |task|
    ensures (task + ['"'] + "")[..|task|] == task && (task + ['"'] + "")[|task| + 1..] == ""
  {
    var rest := task + ['"'] + "";
    assert task + "\"" == rest;
    HeadDropped(TASK, rest);
    FindCharAt(task, '"', "");
    QuotedWord(task);
  }

  lemma HeadDropped(a: string, b: string)
    ensures Find(a + b, a) == 0 && (a + b)[|a|..] == b
  {
    assert (a + b)[..|a|] == a;
  }

  lemma QuotedWord(task: string)
    ensures (task + ['"'] + "")[..|task|] == task && (task + ['"'] + "")[|task| + 1..] == ""
  {
  }

  lemma TaskAfter(pre: string, task: string)
    requires '"' !in task && Find(pre + Tail(task), TASK) == |pre|
    ensures MatchTask(pre + Tail(task)) == Some(task)
  {
    TailTask(task);
    var s := pre + Tail(task);
    DropMore(pre, Tail(task), |TASK|);
  }

  lemma DropMore(a: string, b: string, n: nat)
    requires n <= |b|
    ensures (a + b)[|a| + n..] == b[n..]
  {
  }

  lemma ArgsForms(id: string, e: string, task: string)
    ensures SpawnArgs(id, None, task) == id + [' '] + Tail(task)
    ensures SpawnArgs(id, Some(e), task) == id + [' '] + ((ENDPOINT + e) + [' '] + Tail(task))
  {
  }

  lemma ArgsTaskPlain(id: string, task: string)
    requires !Has(id, TASK) && '"' !in task
    ensures MatchTask(SpawnArgs(id, None, task)) == Some(task)
  {
    ArgsForms(id, "", task);
    TailTask(task);
    FindSkips(id, ' ', Tail(task), TASK);
    TaskAfter(id + [' '], task);
  }

  lemma ArgsTaskEndpoint(id: string, e: string, task: string)
    requires !Has(id, TASK) && !Has(e, TASK) && '"' !in task
    ensures MatchTask(SpawnArgs(id, Some(e), task)) == Some(task)
  {
    ArgsForms(id, e, task);
    TailTask(task);
    EndpointHasNoTask(e);
    var word := ENDPOINT + e;
    FindSkips(word, ' ', Tail(task), TASK);
    FindSkips(id, ' ', word + [' '] + Tail(task), TASK);
    var pre := id + [' '] + (word + [' ']);
    assert id + [' '] + (word + [' '] + Tail(task)) == pre + Tail(task);
    TaskAfter(pre, task);
  }

  /** The text found between the quotes is the text printed there. */
  lemma ArgsTask(id: string, endpoint: Option<string>, task: string)
    requires !Has(id, TASK) && GoodTask(task) && (endpoint.Some? ==> GoodEndpoint(endpoint.value))
    ensures MatchTask(SpawnArgs(id, endpoint, task)) == Some(task)
  {
    if endpoint.Some? {
      ArgsTaskEndpoint(id, endpoint.value, task);
    } else {
      ArgsTaskPlain(id, task);
    }
  }

  /** The endpoint found is the endpoint printed. */
  lemma ArgsEndpoint(id: string, e: string, task: string)
    requires GoodId(id) && !Has(id, ENDPOINT) && GoodEndpoint(e)
    ensures MatchEndpoint(SpawnArgs(id, Some(e), task)) == Some(e)
  {
    var here := ENDPOINT + (e + ([' '] + Tail(task)));
    assert SpawnArgs(id, Some(e), task) == id + [' '] + here;
    EndpointSkips(id, ' ', here);
    assert here[|ENDPOINT|..] == e + ([' '] + Tail(task)) && here[|ENDPOINT|] == e[0];
    RunStops(e, [' '] + Tail(task), c => !IsSpace(c));
  }

  /** Without an endpoint none is found, if id and task do not hold one. */
  lemma ArgsNoEndpoint(id: string, task: string)
    requires !Has(id, ENDPOINT) && !Has(task, ENDPOINT)
    ensures MatchEndpoint(SpawnArgs(id, None, task)) == None
  {
    assert SpawnArgs(id, None, task) == id + [' '] + Tail(task);
    EndpointSkips(id, ' ', Tail(task));
    var rest := task + ['"'] + "";
    assert Tail(task) == "task:" + ['"'] + rest;
    EndpointSkips("task:", '"', rest);
    EndpointSkips(task, '"', "");
  }

  function Rest(endpoint: Option<string>, task: string): string {
    " " + (if endpoint.Some? then ENDPOINT + endpoint.value + " " else "") + Tail(task)
  }

  lemma ArgsSplit(id: string, endpoint: Option<string>, task: string)
    ensures SpawnArgs(id, endpoint, task) == id + Rest(endpoint, task)
    ensures Rest(endpoint, task)[0] == ' ' && Rest(endpoint, task)[|Rest(endpoint, task)| - 1] == '"'
  {
  }

  lemma SingleLineConcat(a: string, b: string)
    requires SingleLine(a) && SingleLine(b)
    ensures SingleLine(a + b)
  {
  }

  lemma RestSingleLine(endpoint: Option<string>, task: string)
    requires GoodTask(task) && (endpoint.Some? ==> NoSpaces(endpoint.value))
    ensures SingleLine(Rest(endpoint, task))
  {
    SingleLineConcat(task, "\"");
    SingleLineConcat(TASK, task + "\"");
    if endpoint.Some? {
      SingleLineConcat(ENDPOINT, endpoint.value);
      SingleLineConcat(ENDPOINT + endpoint.value, " ");
      SingleLineConcat(" ", ENDPOINT + endpoint.value + " ");
      SingleLineConcat(" " + (ENDPOINT + endpoint.value + " "), Tail(task));
    } else {
      SingleLineConcat(" " + "", Tail(task));
    }
  }

  lemma ArgsShape(id: string, endpoint: Option<string>, task: string)
    requires GoodId(id) && GoodTask(task) && (endpoint.Some? ==> GoodEndpoint(endpoint.value))
    ensures var args := SpawnArgs(id, endpoint, task);
      && args != "" && !IsSpace(args[0]) && args[|args| - 1] == '"'
      && Trim(args) == args && NonSpaceRun(args) == id && SingleLine(args)
  {
    ArgsSplit(id, endpoint, task);
    RestSingleLine(endpoint, task);
    WordThenRest(id, Rest(endpoint, task));
  }

  lemma WordThenRest(id: string, rest: string)
    requires GoodId(id) && rest != "" && rest[0] == ' ' && rest[|rest| - 1] == '"' && SingleLine(rest)
    ensures var args := id + rest;
      && args != "" && !IsSpace(args[0]) && args[|args| - 1] == '"'
      && Trim(args) == args && NonSpaceRun(args) == id && SingleLine(args)
  {
    RunStops(id, rest, c => !IsSpace(c));
    TrimKeeps(id + rest);
    SingleLineConcat(id, rest);
  }

  // ---- whole cells -----------------------------------------------------------------------------------

  lemma OneLineCell(text: string)
    requires text != "" && '\n' !in text && Trim(text) != ""
    ensures Parse(text) == ParseHead(text, [])
  {
    SplitNoSep(text, '\n');
    assert SplitLines(text) == [text] && HeadIndex([text]) == 0 && [text][1..] == [];
  }

  lemma SpaceThen(args: string)
    requires args != "" && !IsSpace(args[0])
    ensures TrimLeft([' '] + args) == args
  {
    assert ([' '] + args)[1..] == args;
  }

  lemma MagicHead(name: string, args: string)
    requires name == "spawn" || name == "agent"
    requires args != "" && !IsSpace(args[0]) && SingleLine(args)
    ensures MatchCellMagic("@@" + name + " " + args) == Some((name, args))
  {
    var head := "@@" + name + " " + args;
    assert "@@" <= head && head[2] == name[0] && IsNameStart(name[0]);
    assert head[2..] == name + ([' '] + args);
    assert forall i :: 0 <= i < |name| ==> IsWord(name[i]);
    RunStops(name, [' '] + args, IsWord);
    assert head[2 + |name|..] == [' '] + args;
    SpaceThen(args);
  }

  lemma NoBreaks(s: string)
    requires SingleLine(s)
    ensures '\n' !in s
  {
  }

  /** A canonical spawn with no printed endpoint: the endpoint is whatever the arguments hold. */
  lemma CanonicalSpawn(id: string, endpoint: Option<string>, task: string)
    requires GoodId(id) && !Has(id, TASK) && GoodTask(task) && (endpoint.Some? ==> GoodEndpoint(endpoint.value))
    ensures Parse(PrintSpawn(id, endpoint, task))
         == Some(Spawn(id, task, MatchEndpoint(SpawnArgs(id, endpoint, task))))
  {
    var args := SpawnArgs(id, endpoint, task);
    ArgsShape(id, endpoint, task);
    ArgsTask(id, endpoint, task);
    MagicCell("spawn", args);
  }

  lemma MagicCell(name: string, args: string)
    requires name == "spawn" || name == "agent"
    requires args != "" && !IsSpace(args[0]) && !IsSpace(args[|args| - 1]) && SingleLine(args)
    ensures Parse("@@" + name + " " + args) == ParseMagic(name, args, [])
  {
    MagicText(name, args);
    OneLineCell("@@" + name + " " + args);
    MagicLine(name, args, []);
  }

  /** What a head line with a magic looks like. */
  lemma MagicText(name: string, args: string)
    requires name == "spawn" || name == "agent"
    requires args != "" && !IsSpace(args[|args| - 1]) && SingleLine(args)
    ensures var text := "@@" + name + " " + args;
      text != "" && Trim(text) == text && '\n' !in text && text != "@@break" && text[|text| - 1] == args[|args| - 1]
  {
    var text := "@@" + name + " " + args;
    assert text[0] == '@' && text[2] == name[0] && text[|text| - 1] == args[|args| - 1];
    TrimKeeps(text);
    NoBreaks(args);
    assert text[2] != "@@break"[2];
  }

  lemma MagicLine(name: string, args: string, below: seq<string>)
    requires name == "spawn" || name == "agent"
    requires args != "" && !IsSpace(args[0]) && !IsSpace(args[|args| - 1]) && SingleLine(args)
    ensures ParseHead("@@" + name + " " + args, below) == ParseMagic(name, args, below)
  {
    MagicText(name, args);
    MagicHead(name, args);
  }

  /** Printing a spawn directive and parsing it gives it back. */
  lemma SpawnRoundTrip(id: string, endpoint: Option<string>, task: string)
    requires GoodId(id) && !Has(id, TASK) && !Has(id, ENDPOINT) && GoodTask(task)
    requires if endpoint.Some? then GoodEndpoint(endpoint.value) else !Has(task, ENDPOINT)
    ensures Parse(PrintSpawn(id, endpoint, task)) == Some(Spawn(id, task, endpoint))
  {
    CanonicalSpawn(id, endpoint, task);
    if endpoint.Some? {
      ArgsEndpoint(id, endpoint.value, task);
    } else {
      ArgsNoEndpoint(id, task);
    }
  }

  lemma LegacyText(id: string, task: string)
    requires GoodId(id) && GoodTask(task)
    ensures var text := PrintLegacySpawn(id, task);
      text != "" && text[0] == '/' && Trim(text) == text && '\n' !in text
  {
    var args, text := SpawnArgs(id, None, task), PrintLegacySpawn(id, task);
    ArgsShape(id, None, task);
    assert text[0] == '/' && text[|text| - 1] == args[|args| - 1];
    TrimKeeps(text);
    NoBreaks(args);
  }

  /** The legacy form never carries an endpoint. */
  lemma LegacySpawn(id: string, task: string)
    requires GoodId(id) && GoodTask(task)
    ensures Parse(PrintLegacySpawn(id, task)) == Some(Spawn(id, task, None))
  {
    var text := PrintLegacySpawn(id, task);
    LegacyText(id, task);
    LegacyMatch(id, task);
    OneLineCell(text);
    SlashHead(text);
  }

  lemma SlashHead(text: string)
    requires text != "" && text[0] == '/' && Trim(text) == text
    ensures ParseHead(text, []) == ParseLegacy(text)
  {
    assert text[0] != '@';
    assert text != "@@break";
  }

  lemma LegacyMatch(id: string, task: string)
    requires GoodId(id) && GoodTask(task)
    ensures MatchLegacySpawn(PrintLegacySpawn(id, task)) == Some((id, task))
  {
    var args, text := SpawnArgs(id, None, task), PrintLegacySpawn(id, task);
    ArgsShape(id, None, task);
    assert text[..6] == "/spawn" && text[6] == ' ' && text[6..] == [' '] + args;
    SpaceThen(args);
    LegacyArgs(id, task);
  }

  lemma LegacyArgs(id: string, task: string)
    requires GoodId(id) && GoodTask(task)
    ensures MatchSpawnArgs(SpawnArgs(id, None, task)) == Some((id, task))
  {
    var args := SpawnArgs(id, None, task);
    ArgsShape(id, None, task);
    ArgsForms(id, "", task);
    HeadDropped(id, [' '] + Tail(task));
    assert args == id + ([' '] + Tail(task));
    SpaceThen(Tail(task));
    TailTask(task);
  }

  /** At this index stands `endpoint:` followed by a non-space. */
  predicate EndpointAt(s: string, i: nat) {
    var n := |ENDPOINT|;
    i + n < |s| && s[i..i + n] == ENDPOINT && !IsSpace(s[i + n])
  }

  predicate NamesEndpoint(s: string) {
    exists i: nat :: i < |s| && EndpointAt(s, i)
  }

  lemma EndpointShifts(s: string, i: nat)
    requires s != ""
    ensures EndpointAt(s[1..], i) <==> EndpointAt(s, i + 1)
  {
    var n := |ENDPOINT|;
    if i + n < |s| - 1 {
      assert s[1..][i..i + n] == s[i + 1..i + 1 + n];
    }
  }

  lemma EndpointHead(s: string)
    ensures EndpointAt(s, 0) <==> ENDPOINT <= s && |s| > |ENDPOINT| && !IsSpace(s[|ENDPOINT|])
  {
    var n := |ENDPOINT|;
    if |s| > n {
      assert s[0..n] == s[..n];
    }
  }

  lemma {:induction false} MatchEndpointIs(s: string)
    ensures MatchEndpoint(s).Some? <==> NamesEndpoint(s)
  {
    if s != "" {
      EndpointHead(s);
      MatchEndpointIs(s[1..]);
      if NamesEndpoint(s[1..]) {
        var i: nat :| i < |s[1..]| && EndpointAt(s[1..], i);
        EndpointShifts(s, i);
      }
      if NamesEndpoint(s) {
        var i: nat :| i < |s| && EndpointAt(s, i);
        if i > 0 {
          EndpointShifts(s, i - 1);
        }
      }
    }
  }

  /** The legacy alias and the canonical form without endpoint parse to the same directive exactly when nowhere in the
      arguments stands `endpoint:` followed by a non-space. */
  lemma AliasAgrees(id: string, task: string)
    requires GoodId(id) && !Has(id, TASK) && GoodTask(task)
    ensures Parse(PrintLegacySpawn(id, task)) == Parse(PrintSpawn(id, None, task))
       <==> !NamesEndpoint(SpawnArgs(id, None, task))
  {
    LegacySpawn(id, task);
    CanonicalSpawn(id, None, task);
    MatchEndpointIs(SpawnArgs(id, None, task));
  }

  /** A task that mentions an endpoint is taken for one by the canonical form only. */
  lemma AliasDiffers(id: string, word: string, e: string)
    requires GoodId(id) && !Has(id, TASK) && !Has(id, ENDPOINT)
    requires GoodTask(word) && NoSpaces(word) && !Has(TASK + word, ENDPOINT) && GoodEndpoint(e) && '"' !in e
    ensures var task := word + " " + ENDPOINT + e;
      && Parse(PrintSpawn(id, None, task)) == Some(Spawn(id, task, Some(e + "\"")))
      && Parse(PrintLegacySpawn(id, task)) == Some(Spawn(id, task, None))
  {
    var task := word + " " + ENDPOINT + e;
    HiddenTaskGood(word, e);
    LegacySpawn(id, task);
    CanonicalSpawn(id, None, task);
    HiddenEndpoint(id, word, e);
  }

  lemma HiddenTaskGood(word: string, e: string)
    requires GoodTask(word) && NoSpaces(e) && '"' !in e
    ensures GoodTask(word + " " + ENDPOINT + e)
  {
  }

  lemma RegroupTask(head: string, word: string, mid: string, e: string)
    ensures head + ((word + " " + mid + e) + "\"") == (head + word) + [' '] + (mid + (e + "\""))
  {
  }

  lemma HiddenEndpoint(id: string, word: string, e: string)
    requires !Has(id, ENDPOINT) && !Has(TASK + word, ENDPOINT) && e != "" && NoSpaces(e)
    ensures MatchEndpoint(SpawnArgs(id, None, word + " " + ENDPOINT + e)) == Some(e + "\"")
  {
    var task, value := word + " " + ENDPOINT + e, e + "\"";
    ArgsForms(id, "", task);
    var here := ENDPOINT + value;
    RegroupTask(TASK, word, ENDPOINT, e);
    EndpointSkips(id, ' ', Tail(task));
    EndpointSkips(TASK + word, ' ', here);
    EndpointHere(value);
  }

  lemma EndpointHere(value: string)
    requires value != "" && NoSpaces(value)
    ensures MatchEndpoint(ENDPOINT + value) == Some(value)
  {
    var here := ENDPOINT + value;
    assert here[|ENDPOINT|..] == value && here[|ENDPOINT|] == value[0];
    assert value + "" == value;
    RunStops(value, "", c => !IsSpace(c));
  }

  // ---- continuations -----------------------------------------------------------------------------------

  /** A body as the parser sees it: line breaks without their carriage return. */
  function Unix(body: string): string {
    Join(SplitLines(body), '\n')
  }

  lemma LinesBelow(head: string, body: string)
    requires '\n' !in head && (head == "" || head[|head| - 1] != '\r')
    ensures SplitLines(head + ['\n'] + body) == [head] + SplitLines(body)
  {
    SplitNoSep(head, '\n');
    SplitConcat(head, body, '\n');
  }

  /** `@@agent` with any body: a continuation with the trimmed body, or nothing if that is empty. */
  lemma AgentParses(id: string, body: string)
    requires GoodId(id)
    ensures Parse(PrintAgent(id, body))
         == if Trim(Unix(body)) == "" then None else Some(Continue(id, Trim(Unix(body))))
  {
    var head, below := "@@agent " + id, SplitLines(body);
    assert head == "@@" + "agent" + " " + id;
    MagicText("agent", id);
    LinesBelow(head, body);
    FirstLineIsHead(PrintAgent(id, body), head, below);
    MagicLine("agent", id, below);
    AgentMagic(id, below);
  }

  lemma FirstLineIsHead(text: string, head: string, below: seq<string>)
    requires text != "" && Trim(head) != "" && SplitLines(text) == [head] + below
    ensures Parse(text) == ParseHead(head, below)
  {
    assert ([head] + below)[1..] == below && HeadIndex([head] + below) == 0;
  }

  lemma AgentMagic(id: string, below: seq<string>)
    requires GoodId(id)
    ensures var body := Trim(Join(below, '\n'));
      ParseMagic("agent", id, below) == if body == "" then None else Some(Continue(id, body))
  {
    TrimKeeps(id);
    assert id + "" == id;
    RunStops(id, "", c => !IsSpace(c));
    assert "agent"[0] != "spawn"[0];
  }

  /** Printing a continuation and parsing it gives it back exactly when the body is its own trimmed
      Unix form and not empty. */
  lemma AgentRoundTrip(id: string, body: string)
    requires GoodId(id)
    ensures Parse(PrintAgent(id, body)) == Some(Continue(id, body)) <==> body != "" && Trim(Unix(body)) == body
  {
    AgentParses(id, body);
  }

  /** No carriage return stands before a line break. */
  predicate NoCRLF(body: string) {
    forall i :: 0 <= i < |body| - 1 ==> !(body[i] == '\r' && body[i + 1] == '\n')
  }

  /** A body without carriage returns before line breaks is left alone. */
  lemma UnixKeeps(body: string)
    requires NoCRLF(body)
    ensures Unix(body) == body
  {
    var ps := Split(body, '\n');
    SplitParts(body, '\n');
    forall i | 0 <= i < |ps| - 1 ensures StripCR(ps[i]) == ps[i] {
      PartBeforeBreak(body, i);
    }
    assert SplitLines(body) == ps;
  }

  lemma {:induction false} PartBeforeBreak(body: string, i: nat)
    requires NoCRLF(body) && i < |Split(body, '\n')| - 1
    ensures var p := Split(body, '\n')[i]; p == "" || p[|p| - 1] != '\r'
  {
    var r := Split(body[1..], '\n');
    forall k | 0 <= k < |body[1..]| - 1 ensures !(body[1..][k] == '\r' && body[1..][k + 1] == '\n') {
      assert body[1..][k] == body[k + 1] && body[1..][k + 1] == body[k + 2];
    }
    if body[0] == '\n' {
      if i > 0 {
        PartBeforeBreak(body[1..], i - 1);
      }
    } else {
      PartBeforeBreak(body[1..], i);
      if i == 0 && r[0] == "" {
        FirstPartEmpty(body[1..]);
      }
    }
  }

  lemma FirstPartEmpty(s: string)
    requires |Split(s, '\n')| > 1 && Split(s, '\n')[0] == ""
    ensures s != "" && s[0] == '\n'
  {
  }
}
