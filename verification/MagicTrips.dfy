/** Line magics and the legacy `@id: message` form through the cell-directive parser. */
module MagicTrips {
  import opened Common
  import opened Text
  import opened Directive
  import opened DirectiveTrips

  // ---- trimming --------------------------------------------------------------------------------------

  lemma {:induction false} TrimRightBehind(a: string, s: string)
    requires a != "" && !IsSpace(a[|a| - 1])
    ensures TrimRight(a + s) == a + TrimRight(s)
  {
    if s == "" {
      assert a + s == a;
    } else if IsSpace(s[|s| - 1]) {
      assert (a + s)[..|a + s| - 1] == a + s[..|s| - 1];
      TrimRightBehind(a, s[..|s| - 1]);
    }
  }

  lemma {:induction false} TrimRightCons(c: char, s: string)
    ensures TrimRight([c] + s)
         == if TrimRight(s) != "" then [c] + TrimRight(s) else if IsSpace(c) then "" else [c]
  {
    var t := [c] + s;
    if s == "" {
      assert t == [c] && t[..0] == "";
    } else if IsSpace(s[|s| - 1]) {
      assert t[..|t| - 1] == [c] + s[..|s| - 1];
      TrimRightCons(c, s[..|s| - 1]);
    }
  }

  /** It does not matter at which end one starts. */
  lemma {:induction false} TrimEither(s: string)
    ensures TrimLeft(TrimRight(s)) == Trim(s)
  {
    if s != "" {
      assert s == [s[0]] + s[1..];
      TrimRightCons(s[0], s[1..]);
      TrimEither(s[1..]);
      if TrimRight(s[1..]) != "" {
        assert ([s[0]] + TrimRight(s[1..]))[1..] == TrimRight(s[1..]);
      } else if IsSpace(s[0]) {
        assert Trim(s) == TrimLeft("");
      } else {
        assert TrimLeft([s[0]]) == [s[0]];
      }
    }
  }

  lemma {:induction false} TrimLeftTwice(s: string)
    ensures TrimLeft(TrimLeft(s)) == TrimLeft(s)
  {
    if s != "" && IsSpace(s[0]) {
      TrimLeftTwice(s[1..]);
    }
  }

  lemma {:induction false} TrimRightTwice(s: string)
    ensures TrimRight(TrimRight(s)) == TrimRight(s)
  {
    if s != "" && IsSpace(s[|s| - 1]) {
      TrimRightTwice(s[..|s| - 1]);
    }
  }

  lemma SpaceTrimmed(s: string)
    ensures TrimLeft([' '] + s) == TrimLeft(s)
  {
    assert ([' '] + s)[1..] == s;
  }

  // ---- `@id: message` ----------------------------------------------------------------------------------

  function PrintContinue(id: string, message: string): string {
    "@" + id + ":" + (" " + message)
  }

  predicate PlainId(id: string) {
    GoodId(id) && ':' !in id
  }

  /** What the legacy expression sees after the colon. */
  lemma LegacyTrimmed(id: string, message: string)
    requires PlainId(id)
    ensures Trim(PrintContinue(id, message)) == "@" + id + ":" + TrimRight(" " + message)
  {
    var front := "@" + id + ":";
    TrimRightBehind(front, " " + message);
    assert PrintContinue(id, message)[0] == '@';
  }

  lemma Colon(id: string, rest: string)
    ensures var line := "@" + id + ":" + rest;
      && "@" <= line && line[1..] == id + ([':'] + rest)
      && line[1 + |id|..] == [':'] + rest && ([':'] + rest)[1..] == rest
  {
  }

  lemma ColonSplits(id: string, rest: string)
    requires PlainId(id)
    ensures MatchLegacyContinue("@" + id + ":" + rest)
         == if TrimLeft(rest) == "" then None else Some((id, TrimLeft(rest)))
  {
    Colon(id, rest);
    RunStops(id, [':'] + rest, c => !IsSpace(c) && c != ':');
    TrimLeftStays([':'] + rest);
  }

  lemma TrimLeftStays(s: string)
    requires s != "" && !IsSpace(s[0])
    ensures TrimLeft(s) == s
  {
  }

  lemma LegacyContinueParses(id: string, message: string)
    requires PlainId(id)
    ensures ParseLegacy(PrintContinue(id, message))
         == if Trim(message) == "" then None else Some(Continue(id, Trim(message)))
  {
    var rest := TrimRight(" " + message);
    LegacyTrimmed(id, message);
    ColonSplits(id, rest);
    TrimEither(" " + message);
    SpaceTrimmed(message);
    assert TrimLeft(rest) == Trim(message);
    TrimTwice(message);
    assert Trim(PrintContinue(id, message))[0] == '@';
  }

  lemma TrimTwice(s: string)
    ensures Trim(Trim(s)) == Trim(s)
  {
    TrimRightTwice(TrimLeft(s));
    TrimEither(Trim(s));
    TrimEither(TrimLeft(s));
    TrimLeftTwice(s);
    TrimLeftTwice(TrimRight(TrimLeft(s)));
  }

  /** The line reads as a cell magic first: the id is an at sign and a magic's name, followed by nothing that could go
      on the name, and the message is one line. */
  predicate Masked(id: string, message: string) {
    |id| > 1 && id[0] == '@' && IsNameStart(id[1]) && Run(id[1..], IsWord) in CELL_MAGICS && SingleLine(message)
  }

  lemma {:induction false} RunWithin(w: string, rest: string, test: char -> bool)
    requires rest != "" && !test(rest[0])
    ensures Run(w + rest, test) == Run(w, test)
  {
    if w == "" {
      assert w + rest == rest;
    } else if test(w[0]) {
      assert (w + rest)[1..] == w[1..] + rest;
      RunWithin(w[1..], rest, test);
    }
  }

  lemma {:induction false} RunCovers(w: string, rest: string, test: char -> bool)
    requires forall i :: 0 <= i < |w| ==> test(w[i])
    ensures w <= Run(w + rest, test)
  {
    if w != "" {
      assert (w + rest)[1..] == w[1..] + rest;
      RunCovers(w[1..], rest, test);
    }
  }

  /** Behind the at sign of a line: the id's rest, and what follows the colon. */
  lemma ContinueTail(id: string, message: string)
    requires id != "" && id[0] == '@'
    ensures var head := PrintContinue(id, message);
      && "@@" <= head && head[2..] == id[1..] + (":" + (" " + message))
      && |head| > 2 && head[2] == if |id| > 1 then id[1] else ':'
  {
  }

  lemma ContinueHead(id: string, message: string)
    requires id != ""
    ensures PrintContinue(id, message)[..2] == ['@', id[0]] && (id[0] != '@' ==> !("@@" <= PrintContinue(id, message)))
  {
    var head := PrintContinue(id, message);
    assert head[0] == '@' && head[1] == id[0];
    assert "@@"[1] == '@';
  }

  lemma DropWithin(a: string, b: string, k: nat)
    requires k <= |a|
    ensures (a + b)[k..] == a[k..] + b
  {
  }

  lemma NoSpacesBehind(w: string, k: nat)
    requires NoSpaces(w) && k <= |w|
    ensures NoSpaces(w[k..])
  {
  }

  lemma ColonStays(tail: string, message: string)
    requires NoSpaces(tail)
    ensures var s := tail + (":" + (" " + message)); TrimLeft(s) == s
  {
    var s := tail + (":" + (" " + message));
    assert s[0] == if tail == "" then ':' else tail[0];
    TrimLeftStays(s);
  }

  /** The magic's name ends within the id, and what follows starts with no space. */
  lemma NameWithin(w: string, message: string)
    requires NoSpaces(w)
    ensures var rest, name := ":" + (" " + message), Run(w, IsWord);
      && Run(w + rest, IsWord) == name && name <= w
      && (w + rest)[|name|..] == w[|name|..] + rest && TrimLeft(w[|name|..] + rest) == w[|name|..] + rest
  {
    var rest, name := ":" + (" " + message), Run(w, IsWord);
    RunWithin(w, rest, IsWord);
    DropWithin(w, rest, |name|);
    NoSpacesBehind(w, |name|);
    ColonStays(w[|name|..], message);
  }

  lemma NameShort(id: string, message: string)
    requires PlainId(id) && id[0] == '@' && |id| > 1 && IsNameStart(id[1])
    ensures var name := Run(id[1..], IsWord);
      && name <= id[1..]
      && MatchCellMagic(PrintContinue(id, message))
         == if SingleLine(message) then Some((name, id[1 + |name|..] + ":" + (" " + message))) else None
  {
    var w, rest := id[1..], ":" + (" " + message);
    var head, name := PrintContinue(id, message), Run(w, IsWord);
    ContinueTail(id, message);
    NameWithin(w, message);
    DropTwice(head, 2, |name|);
    DropTwice(id, 1, |name|);
    OneLineAfter(w[|name|..], message);
    assert w[|name|..] + rest == w[|name|..] + ":" + (" " + message);
  }

  lemma DropTwice(s: string, i: nat, j: nat)
    requires i + j <= |s|
    ensures s[i..][j..] == s[i + j..]
  {
  }

  /** What the cell-magic expression makes of the line. */
  lemma MaskedMagic(id: string, message: string)
    requires PlainId(id)
    ensures var m, name := MatchCellMagic(PrintContinue(id, message)), if |id| > 1 then Run(id[1..], IsWord) else "";
      && (Masked(id, message) <==> m.Some? && m.value.0 in CELL_MAGICS)
      && (m.Some? ==> |id| > 1 && name <= id[1..] && m.value == (name, id[1 + |name|..] + ":" + (" " + message)))
  {
    ContinueHead(id, message);
    if id[0] == '@' {
      ContinueTail(id, message);
      if |id| > 1 && IsNameStart(id[1]) {
        NameShort(id, message);
      }
    }
  }

  lemma OneLineAfter(front: string, message: string)
    requires NoSpaces(front)
    ensures SingleLine(front + ":" + (" " + message)) <==> SingleLine(message)
  {
    var s, n := front + ":" + (" " + message), |front| + 2;
    assert forall i :: 0 <= i < |message| ==> s[n + i] == message[i];
    if SingleLine(message) {
      forall i | 0 <= i < |s| ensures !IsTerminator(s[i]) {
        if i >= n {
          assert s[i] == message[i - n];
        }
      }
    }
  }

  /** A masked line never continues the agent it names: whatever the magic makes of its arguments, the first of them
      holds the colon. */
  lemma MaskedOtherId(name: string, front: string, message: string, below: seq<string>, id: string, text: string)
    requires NoSpaces(front) && ':' !in id
    ensures ParseMagic(name, front + ":" + (" " + message), below) != Some(Continue(id, text))
  {
    var args := Trim(front + ":" + (" " + message));
    var word := front + ":";
    TrimRightBehind(word, " " + message);
    assert front + ":" + (" " + message) == word + (" " + message);
    assert (word + (" " + message))[0] == word[0];
    assert args == word + TrimRight(" " + message);
    RunCovers(word, TrimRight(" " + message), c => !IsSpace(c));
    assert word[|front|] == ':';
    assert NonSpaceRun(args)[|front|] == ':';
  }

  /** The line `@id: message` continues that agent with the trimmed message, or is no directive if that is empty,
      unless it reads as a cell magic; then it never continues that agent. */
  lemma ContinueExactly(id: string, message: string, below: seq<string>)
    requires PlainId(id)
    ensures var parsed := ParseHead(PrintContinue(id, message), below);
      if Masked(id, message) then forall text :: parsed != Some(Continue(id, text))
      else parsed == if Trim(message) == "" then None else Some(Continue(id, Trim(message)))
  {
    MaskedMagic(id, message);
    ColonInHead(id, message);
    LegacyContinueParses(id, message);
    if Masked(id, message) {
      var name := Run(id[1..], IsWord);
      forall text ensures ParseHead(PrintContinue(id, message), below) != Some(Continue(id, text)) {
        MaskedOtherId(name, id[1 + |name|..], message, below, id, text);
      }
    }
  }

  lemma ColonInHead(id: string, message: string)
    requires PlainId(id)
    ensures ':' in PrintContinue(id, message) && Trim(PrintContinue(id, message)) != "@@break"
  {
    LegacyTrimmed(id, message);
    var head := PrintContinue(id, message);
    assert head[1 + |id|] == ':' && Trim(head)[1 + |id|] == ':';
    assert ':' !in "@@break";
  }

  /** So a continuation of an agent whose id is no magic, with a message already trimmed, survives. */
  lemma ContinueRoundTrip(id: string, message: string)
    requires PlainId(id) && id[0] != '@' && '\n' !in message && '\n' !in id
    ensures Parse(PrintContinue(id, message)) == Some(Continue(id, message))
       <==> message != "" && Trim(message) == message
  {
    var head := PrintContinue(id, message);
    LegacyTrimmed(id, message);
    OneLineCell(head);
    ContinueExactly(id, message, []);
  }

  // ---- line magics -------------------------------------------------------------------------------------

  lemma LineMagicName(magic: string)
    requires magic in LINE_MAGICS
    ensures magic != "" && IsNameStart(magic[0]) && forall i :: 0 <= i < |magic| ==> IsWord(magic[i])
  {
  }

  lemma LineHead(magic: string, args: string)
    requires magic != ""
    ensures var head := "@" + magic + (" " + args);
      && "@" <= head && |head| > 1 && head[1] == magic[0] && head[1..] == magic + ([' '] + args)
      && head[1 + |magic|..] == [' '] + args
  {
  }

  lemma LineMatches(magic: string, args: string)
    requires magic in LINE_MAGICS
    ensures MatchLineMagic("@" + magic + (" " + args)) == Some((magic, TrimLeft(args)))
    ensures MatchCellMagic("@" + magic + (" " + args)) == None
  {
    LineMagicName(magic);
    LineHead(magic, args);
    RunStops(magic, [' '] + args, IsWord);
    SpaceTrimmed(args);
    assert ("@" + magic + (" " + args))[1] != '@';
  }

  lemma NoColon(magic: string, args: string)
    requires ':' !in magic && ':' !in args
    ensures ':' !in "@" + magic + (" " + args)
  {
  }

  /** A line magic without a colon parses to itself with its trimmed arguments; two magics set a flag and two unset
      the same flag. */
  lemma LineMagicParses(magic: string, args: string, below: seq<string>)
    requires magic in LINE_MAGICS && ':' !in args
    ensures ParseHead("@" + magic + (" " + args), below) == Some(LineMagic(magic, Trim(args),
              if magic == "pin" then ["pinned"] else if magic == "exclude" then ["excluded"] else [],
              if magic == "unpin" then ["pinned"] else if magic == "include" then ["excluded"] else []))
  {
    LineMatches(magic, args);
    LinePlain(magic, args);
    TrimLeftTwice(args);
    ParseLine("@" + magic + (" " + args), magic, TrimLeft(args), below);
    FlagsAre(magic);
  }

  lemma LinePlain(magic: string, args: string)
    requires magic in LINE_MAGICS && ':' !in args
    ensures var head := "@" + magic + (" " + args); ':' !in head && Trim(head) != "@@break"
  {
    LineMagicName(magic);
    NoColon(magic, args);
    LineHead(magic, args);
    HeadNotBreak("@" + magic + (" " + args));
  }

  lemma ParseLine(head: string, name: string, rest: string, below: seq<string>)
    requires MatchCellMagic(head).None? && MatchLineMagic(head) == Some((name, rest)) && name in LINE_MAGICS
    requires ':' !in head && Trim(head) != "@@break"
    ensures ParseHead(head, below) == Some(LineMagic(name, Trim(rest), Flags(name).0, Flags(name).1))
  {
  }

  lemma FlagsAre(magic: string)
    ensures Flags(magic) == (if magic == "pin" then ["pinned"] else if magic == "exclude" then ["excluded"] else [],
                             if magic == "unpin" then ["pinned"] else if magic == "include" then ["excluded"] else [])
  {
  }

  lemma HeadNotBreak(head: string)
    requires |head| > 1 && head[0] == '@' && head[1] != '@'
    ensures Trim(head) != "@@break"
  {
    assert head == [head[0]] + head[1..];
    TrimRightCons(head[0], head[1..]);
    assert head[1..] == [head[1]] + head[2..];
    TrimRightCons(head[1], head[2..]);
  }

  // ---- other cell magics -------------------------------------------------------------------------------

  lemma CellMagicName(magic: string)
    requires magic in CELL_MAGICS
    ensures magic != "" && IsNameStart(magic[0]) && forall i :: 0 <= i < |magic| ==> IsWord(magic[i])
    ensures magic[0] != 'b'
  {
  }

  lemma {:induction false} TrimLeftOneLine(s: string)
    requires SingleLine(s)
    ensures SingleLine(TrimLeft(s))
  {
    if s != "" && IsSpace(s[0]) {
      TrimLeftOneLine(s[1..]);
    }
  }

  lemma CellHead(magic: string, args: string)
    requires magic != ""
    ensures var head := "@@" + magic + (" " + args);
      && "@@" <= head && |head| > 2 && head[2] == magic[0] && head[2..] == magic + ([' '] + args)
      && head[2 + |magic|..] == [' '] + args
  {
  }

  lemma CellMatches(magic: string, args: string)
    requires magic in CELL_MAGICS && SingleLine(args)
    ensures MatchCellMagic("@@" + magic + (" " + args)) == Some((magic, TrimLeft(args)))
  {
    CellMagicName(magic);
    CellHead(magic, args);
    RunStops(magic, [' '] + args, IsWord);
    SpaceTrimmed(args);
    TrimLeftOneLine(args);
  }

  /** A cell magic other than the two with a directive of their own is passed on with its trimmed arguments. */
  lemma CellMagicParses(magic: string, args: string, below: seq<string>)
    requires magic in CELL_MAGICS && magic != "spawn" && magic != "agent" && SingleLine(args)
    ensures ParseHead("@@" + magic + (" " + args), below) == Some(CellMagic(magic, Trim(args), magic))
  {
    CellMatches(magic, args);
    TrimLeftTwice(args);
    MagicNotBreak(magic, args);
  }

  lemma MagicNotBreak(magic: string, args: string)
    requires magic in CELL_MAGICS
    ensures Trim("@@" + magic + (" " + args)) != "@@break"
  {
    CellMagicName(magic);
    var front := "@@" + magic;
    TrimRightBehind(front, " " + args);
    assert (front + (" " + args))[0] == '@';
    assert Trim(front + (" " + args))[2] == magic[0] && "@@break"[2] == 'b';
  }
}
