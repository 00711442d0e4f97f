/** What a rewritten link resolves to from its source's new place: exactly when it survives. */
module LinkTrips {
  import opened Text
  import opened Links

  // ---- counting number signs ---------------------------------------------------------------------

  function Signs(s: string): nat {
    if s == "" then 0 else Signs(s[1..]) + if s[0] == '#' then 1 else 0
  }

  function SignsIn(parts: seq<string>): nat {
    if parts == [] then 0 else Signs(parts[0]) + SignsIn(parts[1..])
  }

  lemma {:induction false} SignsConcat(a: string, b: string)
    ensures Signs(a + b) == Signs(a) + Signs(b)
  {
    if a == "" {
      assert a + b == b;
    } else {
      assert (a + b)[1..] == a[1..] + b;
      SignsConcat(a[1..], b);
    }
  }

  lemma {:induction false} NoSigns(s: string)
    ensures '#' !in s <==> Signs(s) == 0
  {
    if s != "" {
      NoSigns(s[1..]);
      assert s == [s[0]] + s[1..];
    }
  }

  lemma {:induction false} SignsInConcat(a: seq<string>, b: seq<string>)
    ensures SignsIn(a + b) == SignsIn(a) + SignsIn(b)
  {
    if a == [] {
      assert a + b == b;
    } else {
      assert (a + b)[1..] == a[1..] + b;
      SignsInConcat(a[1..], b);
    }
  }

  lemma {:induction false} SignsJoin(parts: seq<string>)
    ensures Signs(Join(parts, '/')) == SignsIn(parts)
  {
    if |parts| > 1 {
      SignsJoin(parts[1..]);
      SignsConcat(parts[0] + ['/'], Join(parts[1..], '/'));
      SignsConcat(parts[0], ['/']);
      assert Signs(['/']) == 0;
    }
  }

  lemma {:induction false} SomeSign(parts: seq<string>)
    ensures SignsIn(parts) == 0 <==> forall p <- parts :: '#' !in p
  {
    if parts != [] {
      NoSigns(parts[0]);
      SomeSign(parts[1..]);
      assert parts == [parts[0]] + parts[1..];
    }
  }

  /** Normalising components without the sign adds none. */
  lemma {:induction false} NormSigns(parts: seq<string>, acc: seq<string>)
    requires SignsIn(parts) == 0
    ensures SignsIn(Norm(parts, false, acc)) <= SignsIn(acc)
    decreases |parts|
  {
    if parts != [] {
      var p := parts[0];
      var grown := NormStep(p, acc);
      SignsInConcat(acc, [p]);
      assert SignsIn([p]) == Signs(p) + SignsIn([p][1..]);
      if acc != [] {
        SignsInConcat(acc[..|acc| - 1], [acc[|acc| - 1]]);
        assert acc == acc[..|acc| - 1] + [acc[|acc| - 1]];
      }
      NormSigns(parts[1..], grown);
    }
  }

  /** One turn of `normpath`'s loop on a relative path. */
  function NormStep(p: string, acc: seq<string>): seq<string> {
    if p == "" || p == "." then acc
    else if p != ".." || acc == [] || acc[|acc| - 1] == ".." then acc + [p]
    else acc[..|acc| - 1]
  }

  // ---- a link text cut at its first number sign ----------------------------------------------------

  lemma NotAcrossSign(a: string, b: string, pat: string)
    requires '#' !in pat
    ensures pat <= a + ['#'] + b ==> pat <= a
  {
    var s := a + ['#'] + b;
    assert s[|a|] == '#';
    assert |a| < |pat| ==> pat[|a|] != '#';
    if pat <= s && |pat| <= |a| {
      assert s[..|pat|] == a[..|pat|];
    }
  }

  /** Encoding goes piece by piece around a number sign. */
  lemma {:induction false} EncodeAround(a: string, b: string)
    ensures EncodeSpaces(a + ['#'] + b) == EncodeSpaces(a) + ['#'] + EncodeSpaces(b)
  {
    var s := a + ['#'] + b;
    EncodeUnfolds(s);
    if a == "" {
      assert s[0] == '#' && s[1..] == b && !("%2520" <= s);
    } else {
      EncodeUnfolds(a);
      NotAcrossSign(a, b, "%2520");
      var n := if "%2520" <= a then 5 else 1;
      assert s[0] == a[0] && s[n..] == a[n..] + ['#'] + b && ("%2520" <= a ==> "%2520" <= s);
      EncodeAround(a[n..], b);
      Reassociate(if "%2520" <= a || a[0] == ' ' then "%20" else [a[0]], EncodeSpaces(a[n..]), EncodeSpaces(b));
    }
  }

  lemma Reassociate(h: string, x: string, y: string)
    ensures h + (x + ['#'] + y) == (h + x) + ['#'] + y
  {
  }

  lemma {:induction false} AnchorAfter(lead: string, text: string)
    requires '#' !in lead
    ensures SplitAnchor(lead + text) == (lead + SplitAnchor(text).0, SplitAnchor(text).1)
  {
    if lead == "" {
      assert lead + text == text && lead + SplitAnchor(text).0 == SplitAnchor(text).0;
    } else {
      assert (lead + text)[1..] == lead[1..] + text && lead[0] in lead;
      AnchorAfter(lead[1..], text);
      assert [lead[0]] + (lead[1..] + SplitAnchor(text).0) == lead + SplitAnchor(text).0;
    }
  }

  /** The way up: `../` once per level. */
  function Lead(up: nat): string {
    if up == 0 then "" else Join(Dots(up), '/') + ['/']
  }

  lemma LeadPlain(up: nat)
    ensures '#' !in Lead(up) && (up > 0 ==> Lead(up)[0] == '.')
  {
    if up > 0 {
      JoinEnds(Dots(up), '/');
      JoinChars(Dots(up), '/', '#');
    }
  }

  lemma LeadSplits(up: nat, y: string)
    ensures Split(Lead(up) + y, '/') == Dots(up) + Split(y, '/')
  {
    if up > 0 {
      SplitConcat(Join(Dots(up), '/'), y, '/');
      SplitJoin(Dots(up), '/');
    } else {
      assert Lead(up) + y == y && Dots(up) + Split(y, '/') == Split(y, '/');
    }
  }

  lemma LeadSquashes(up: nat, y: string)
    ensures Squash(Lead(up) + y) == Lead(up) + Squash(y)
  {
    if up > 0 {
      var dots := Join(Dots(up), '/');
      SquashConcat(dots, y);
      SquashJoin(Dots(up));
      SquashDots();
      assert SquashAll(Dots(up)) == Dots(up);
      assert dots + "/" + y == Lead(up) + y;
    } else {
      assert Lead(up) + y == y && Lead(up) + Squash(y) == Squash(y);
    }
  }

  lemma TextHasLead(up: nat, rest: seq<string>)
    requires rest != []
    ensures PathOf(Dots(up) + rest) == Lead(up) + Join(rest, '/')
  {
    if up > 0 {
      JoinConcat(Dots(up), rest, '/');
    } else {
      assert Dots(up) + rest == rest;
    }
  }

  // ---- where a cut link leads ----------------------------------------------------------------------

  lemma NormLead(base: seq<string>, i: nat, y: string)
    requires Clean(base) && i <= |base|
    ensures Norm(base + (Dots(|base| - i) + Split(y, '/')), false, []) == Norm(Split(y, '/'), false, base[..i])
  {
    NormConcat(base, Dots(|base| - i) + Split(y, '/'), false, []);
    NormClean(base, false, []);
    assert [] + base == base;
    NormConcat(Dots(|base| - i), Split(y, '/'), false, base);
    NormDots(|base| - i, false, base);
  }

  lemma SplitSigns(y: string)
    ensures SignsIn(Split(y, '/')) == Signs(y)
  {
    SplitParts(y, '/');
    SignsJoin(Split(y, '/'));
  }

  lemma PathSigns(full: string)
    requires full == "" || full[0] != '/'
    ensures Signs(NormPath(full)) == if full == "" then 0 else SignsIn(Norm(Split(full, '/'), false, []))
  {
    assert Signs(".") == Signs("."[1..]);
    if full != "" {
      var parts := Norm(Split(full, '/'), false, []);
      assert "" + Join(parts, '/') == Join(parts, '/');
      SignsJoin(parts);
    }
  }

  lemma CutNorm(base: seq<string>, i: nat, y: string, d: string)
    requires Clean(base) && i <= |base| && '#' !in y && d == Lead(|base| - i) + y
    ensures SignsIn(Norm(base + Split(d, '/'), false, [])) <= SignsIn(base[..i])
  {
    LeadSplits(|base| - i, y);
    NormLead(base, i, y);
    NoSigns(y);
    SplitSigns(y);
    NormSigns(Split(y, '/'), base[..i]);
  }

  /** Joining a path to a directory and normalising counts the signs of the normalised components. */
  lemma JoinedSigns(base: seq<string>, d: string)
    requires Clean(base) && (d == "" || d[0] != '/')
    ensures Signs(NormPath(PathJoin(Join(base, '/'), d))) <= SignsIn(Norm(base + Split(d, '/'), false, []))
  {
    JoinedSplits(base, d);
    PathSigns(PathJoin(Join(base, '/'), d));
  }

  /** A path of signless components below what is shared resolves to a path with no more signs than that. */
  lemma CutResolves(base: seq<string>, i: nat, y: string, d: string)
    requires Clean(base) && i <= |base| && '#' !in y && (y == "" || y[0] != '/') && d == Lead(|base| - i) + y
    ensures Signs(NormPath(PathJoin(Join(base, '/'), d))) <= SignsIn(base[..i])
  {
    LeadPlain(|base| - i);
    CutNorm(base, i, y, d);
    JoinedSigns(base, d);
  }

  /** Joining a relative path to a directory, the empty path included. */
  lemma JoinedSplits(base: seq<string>, d: string)
    requires Clean(base) && (d == "" || d[0] != '/')
    ensures var full := PathJoin(Join(base, '/'), d);
      && (full == "" || full[0] != '/')
      && (full == "" ==> base == [] && d == "")
      && (full != "" ==> Split(full, '/') == base + Split(d, '/'))
  {
    if d != "" {
      SplitUnderDir(base, d);
    } else if base != [] {
      CleanPathSplits(base);
      var dir := Join(base, '/');
      assert PathJoin(dir, d) == dir + ['/'] + "";
      SplitConcat(dir, "", '/');
    }
  }

  // ---- the two cases ---------------------------------------------------------------------------------

  predicate Signless(parts: seq<string>) {
    forall p <- parts :: '#' !in p
  }

  /** What of the target lies below the directory it shares with the source. */
  function Below(base: seq<string>, target: seq<string>): seq<string> {
    target[CommonLen(base, target)..]
  }

  lemma SignlessText(base: seq<string>, target: seq<string>)
    requires Signless(Below(base, target))
    ensures '#' !in PathOf(RelParts(base, target))
  {
    var parts := RelParts(base, target);
    JoinChars(parts, '/', '#');
    forall p | p in parts ensures '#' !in p {
      assert p in Dots(|base| - CommonLen(base, target)) || p in Below(base, target);
    }
  }

  lemma WholeLink(base: seq<string>, name: string, target: seq<string>, slash: bool, text: string, anchor: string)
    requires Clean(base) && CleanPart(name) && Clean(target) && Signless(Below(base, target))
    requires text == PathOf(RelParts(base, target)) + if slash then "/" else ""
    requires anchor == "" || anchor[0] == '#'
    ensures SplitAnchor(EncodeSpaces(text) + anchor) == (EncodeSpaces(text), anchor)
    ensures ResolveTarget(Join(base + [name], '/'), EncodeSpaces(text)) == PathOf(Seen(base, target))
  {
    SignlessText(base, target);
    EncodeKeepsOut(text, '#');
    AnchorSplits(EncodeSpaces(text), anchor);
    EncodedResolves(base, name, target, slash, text);
  }

  lemma CutAt(a: string, b: string, anchor: string)
    requires '#' !in a
    ensures SplitAnchor(EncodeSpaces(a + ['#'] + b) + anchor) == (EncodeSpaces(a), ['#'] + EncodeSpaces(b) + anchor)
  {
    EncodeAround(a, b);
    EncodeKeepsOut(a, '#');
    TailMoves(EncodeSpaces(a), EncodeSpaces(b), anchor);
    AnchorSplits(EncodeSpaces(a), ['#'] + EncodeSpaces(b) + anchor);
  }

  lemma TailMoves(x: string, y: string, anchor: string)
    ensures (x + ['#'] + y) + anchor == x + (['#'] + y + anchor)
  {
  }

  /** A sign in a text cuts the encoded text there. */
  lemma CutText(text: string, anchor: string)
    requires '#' in text
    ensures var (link, tail) := SplitAnchor(EncodeSpaces(text) + anchor);
      link == EncodeSpaces(SplitAnchor(text).0) && |tail| > |anchor|
  {
    var a, b := FirstSign(text);
    CutAt(a, b, anchor);
  }

  lemma FirstSign(text: string) returns (a: string, b: string)
    requires '#' in text
    ensures text == a + ['#'] + b && '#' !in a && a == SplitAnchor(text).0
  {
    AnchorShape(text);
    var t := SplitAnchor(text).1;
    a := SplitAnchor(text).0;
    b := t[1..];
    assert t == ['#'] + b;
    JoinSign(a, b);
  }

  lemma JoinSign(a: string, b: string)
    ensures a + (['#'] + b) == a + ['#'] + b
  {
  }

  /** The piece of a relative text before its first sign is the way up and a signless piece of the way down. */
  lemma CutPiece(base: seq<string>, target: seq<string>, slash: bool, text: string) returns (y: string)
    requires Clean(target) && !Signless(Below(base, target))
    requires text == PathOf(RelParts(base, target)) + if slash then "/" else ""
    ensures '#' in text && '#' !in y && (y == "" || y[0] != '/')
    ensures SplitAnchor(text).0 == Lead(|base| - CommonLen(base, target)) + y
  {
    var up, rest := |base| - CommonLen(base, target), Below(base, target);
    var down := Join(rest, '/') + if slash then "/" else "";
    assert text == Lead(up) + down by { LeadThenDown(up, rest, if slash then "/" else ""); }
    y := PieceOf(rest, slash, down);
    PieceAfterLead(up, down, text);
  }

  lemma PieceAfterLead(up: nat, down: string, text: string)
    requires text == Lead(up) + down && '#' in down
    ensures '#' in text && SplitAnchor(text).0 == Lead(up) + SplitAnchor(down).0
  {
    LeadPlain(up);
    AnchorAfter(Lead(up), down);
    SignAfter(Lead(up), down);
  }

  lemma LeadThenDown(up: nat, rest: seq<string>, end: string)
    requires rest != []
    ensures PathOf(Dots(up) + rest) + end == Lead(up) + (Join(rest, '/') + end)
  {
    TextHasLead(up, rest);
    Associates(Lead(up), Join(rest, '/'), end);
  }

  lemma SignAfter(a: string, b: string)
    requires '#' in b
    ensures '#' in a + b
  {
  }

  lemma PieceOf(rest: seq<string>, slash: bool, down: string) returns (y: string)
    requires Clean(rest) && !Signless(rest) && down == Join(rest, '/') + if slash then "/" else ""
    ensures '#' in down && y == SplitAnchor(down).0 && '#' !in y && (y == "" || y[0] != '/')
  {
    AnchorShape(down);
    y := SplitAnchor(down).0;
    JoinChars(rest, '/', '#');
    assert forall k :: 0 <= k < |rest| ==> CleanPart(rest[k]);
    JoinEnds(rest, '/');
    assert y != "" ==> y[0] == down[0];
  }

  lemma SquashStarts(y: string)
    requires '#' !in y && (y == "" || y[0] != '/')
    ensures '#' !in Squash(y) && (Squash(y) == "" || Squash(y)[0] != '/')
  {
    SquashKeepsOut(y);
  }

  lemma {:induction false} SquashKeepsOut(y: string)
    requires '#' !in y
    ensures '#' !in Squash(y)
  {
    if y != "" {
      if "%2520" <= y {
        SquashKeepsOut(y[5..]);
      } else if "%20" <= y {
        SquashKeepsOut(y[3..]);
      } else {
        SquashKeepsOut(y[1..]);
      }
    }
  }

  lemma PieceDecodes(up: nat, y: string)
    ensures Decode(EncodeSpaces(Lead(up) + y)) == Lead(up) + Squash(y)
  {
    DecodeEncode(Lead(up) + y);
    LeadSquashes(up, y);
  }

  /** Where a link leads that decodes to the way up and a signless piece. */
  lemma PieceResolves(base: seq<string>, name: string, i: nat, link: string, z: string)
    requires Clean(base) && CleanPart(name) && i <= |base| && '#' !in z && (z == "" || z[0] != '/')
    requires Decode(link) == Lead(|base| - i) + z
    ensures Signs(ResolveTarget(Join(base + [name], '/'), link)) <= SignsIn(base[..i])
  {
    ResolvedFrom(base, name, link, Decode(link));
    CutResolves(base, i, z, Decode(link));
  }

  lemma ResolvedFrom(base: seq<string>, name: string, link: string, d: string)
    requires Clean(base) && CleanPart(name) && Decode(link) == d
    ensures ResolveTarget(Join(base + [name], '/'), link) == NormPath(PathJoin(Join(base, '/'), d))
  {
    DirNameOf(base, name);
  }

  /** A cut link leads elsewhere: the target has more signs. */
  lemma CutLink(base: seq<string>, name: string, target: seq<string>, slash: bool, text: string, anchor: string)
    requires Clean(base) && CleanPart(name) && Clean(target) && !Signless(Below(base, target))
    requires text == PathOf(RelParts(base, target)) + if slash then "/" else ""
    ensures var (link, tail) := SplitAnchor(EncodeSpaces(text) + anchor);
      tail != anchor && ResolveTarget(Join(base + [name], '/'), link) != PathOf(target)
  {
    var y := CutPiece(base, target, slash, text);
    CutText(text, anchor);
    var i := CommonLen(base, target);
    PieceDecodes(|base| - i, y);
    SquashStarts(y);
    PieceResolves(base, name, i, EncodeSpaces(Lead(|base| - i) + y), Squash(y));
    MoreSigns(base, target);
  }

  lemma MoreSigns(base: seq<string>, target: seq<string>)
    requires !Signless(Below(base, target))
    ensures Signs(PathOf(target)) > SignsIn(base[..CommonLen(base, target)])
  {
    var i := CommonLen(base, target);
    SomeSign(Below(base, target));
    SignsInConcat(target[..i], Below(base, target));
    assert target == target[..i] + Below(base, target);
    SignsJoin(target);
  }

  // ---- the theorems ------------------------------------------------------------------------------------

  /** For every move table, every working directory and every old source.  If no component of the target below the
      shared directory holds a number sign, the rewritten link keeps its anchor and resolves, from the source's new
      place, to the target as `Seen`; otherwise it loses its anchor and resolves elsewhere. */
  lemma LinkResolves(url: string, srcOld: string, base: seq<string>, name: string,
                     files: FileMoves, dirs: DirMoves, w: seq<string>, target: seq<string>)
    requires IsRelative(url) && SplitAnchor(url).0 != ""
    requires Clean(base) && CleanPart(name) && Clean(w) && Clean(target)
    requires RemapTarget(ResolveTarget(srcOld, SplitAnchor(url).0), files, dirs) == PathOf(target)
    ensures var link := RewriteUrl(url, srcOld, Join(base + [name], '/'), files, dirs, "/" + Join(w, '/'));
      var found := ResolveTarget(Join(base + [name], '/'), SplitAnchor(link).0);
      if Signless(Below(base, target)) then
        SplitAnchor(link).1 == SplitAnchor(url).1 && found == PathOf(Seen(base, target))
      else SplitAnchor(link).1 != SplitAnchor(url).1 && found != PathOf(target)
  {
    var (path, anchor) := SplitAnchor(url);
    AnchorShape(url);
    var slash := path[|path| - 1] == '/';
    NewPathOf(base, name, w, target, slash);
    var text := PathOf(RelParts(base, target)) + if slash then "/" else "";
    if Signless(Below(base, target)) {
      WholeLink(base, name, target, slash, text, anchor);
    } else {
      CutLink(base, name, target, slash, text, anchor);
    }
  }

  /** The link survives exactly when no component of the target below the shared directory holds a literal %20 or %2520
      or a number sign. */
  lemma LinkSurvives(url: string, srcOld: string, base: seq<string>, name: string,
                     files: FileMoves, dirs: DirMoves, w: seq<string>, target: seq<string>)
    requires IsRelative(url) && SplitAnchor(url).0 != ""
    requires Clean(base) && CleanPart(name) && Clean(w) && Clean(target)
    requires RemapTarget(ResolveTarget(srcOld, SplitAnchor(url).0), files, dirs) == PathOf(target)
    ensures var link := RewriteUrl(url, srcOld, Join(base + [name], '/'), files, dirs, "/" + Join(w, '/'));
      ResolveTarget(Join(base + [name], '/'), SplitAnchor(link).0) == PathOf(target)
      <==> forall c <- target[CommonLen(base, target)..] :: Plain(c) && '#' !in c
  {
    LinkResolves(url, srcOld, base, name, files, dirs, w, target);
    SeenIsTarget(base, target);
  }

  // ---- two inputs that break ---------------------------------------------------------------------------

  lemma SquashLiteral()
    ensures Squash("x%20y") == "x y"
  {
    var s := "x%20y";
    assert s[1..] == "%20y" && s[1..][3..] == "y";
    assert Squash("y") == "y";
    assert Squash("%20y") == " " + Squash("y");
  }

  /** A file at the root that is renamed: the rewritten link resolves to the new name with its literal %20 and
      %2520 turned into spaces. */
  lemma RenamedLink(src: string, name: string, renamed: string, w: seq<string>)
    requires CleanPart(src) && CleanPart(name) && CleanPart(renamed) && IsRelative(name) && Clean(w)
    requires !Has(name, "%20") && '#' !in name && '#' !in renamed
    ensures var link := RewriteUrl(name, src, src, map[name := renamed], [], "/" + Join(w, '/'));
      ResolveTarget(src, SplitAnchor(link).0) == Squash(renamed)
  {
    PlainTarget([], src, name);
    WholeName(name);
    OnePart(src);
    OnePart(name);
    OnePart(renamed);
    LinkResolves(name, src, [], src, map[name := renamed], [], w, [renamed]);
    SeenAtRoot(renamed);
  }

  lemma OnePart(name: string)
    ensures Join([] + [name], '/') == name && PathOf([name]) == name && [] + [name] == [name]
  {
  }

  lemma SeenAtRoot(name: string)
    ensures PathOf(Seen([], [name])) == Squash(name)
  {
    assert SquashAll([name]) == [Squash(name)];
    OnePart(Squash(name));
  }

  /** So a file renamed to a name with a literal %20 is lost: its link resolves to the name with a space. */
  lemma LiteralEscapeBreaks()
    ensures var link := RewriteUrl("a", "s", "s", map["a" := "x%20y"], [], "/" + Join(["w"], '/'));
      ResolveTarget("s", SplitAnchor(link).0) == "x y" != "x%20y"
  {
    SquashLiteral();
    assert Clean(["w"]);
    RenamedLink("s", "a", "x%20y", ["w"]);
    assert |"x y"| != |"x%20y"|;
  }

  // ---- links inside a moved directory ------------------------------------------------------------------

  lemma UnderDir(d: seq<string>, t: seq<string>)
    requires Clean(d) && d != [] && Clean(t)
    ensures Under(PathOf(d + t), PathOf(d))
    ensures PathOf(d + t)[|PathOf(d)|..] == if t == [] then "" else ['/'] + Join(t, '/')
  {
    if t == [] {
      assert d + t == d;
    } else {
      JoinConcat(d, t, '/');
      UnderText(PathOf(d), Join(t, '/'));
    }
  }

  lemma UnderText(a: string, b: string)
    ensures Under(a + ['/'] + b, a) && (a + ['/'] + b)[|a|..] == ['/'] + b
  {
    assert a + ['/'] + b == (a + "/") + b;
  }

  lemma BelowDir(d: seq<string>, t: seq<string>)
    requires d != []
    ensures PathOf(d) + (if t == [] then "" else ['/'] + Join(t, '/')) == PathOf(d + t)
  {
    if t == [] {
      assert d + t == d && PathOf(d) + "" == PathOf(d);
    } else {
      JoinConcat(d, t, '/');
    }
  }

  /** Where the target goes: by the file table, or by the longest rule. */
  lemma InsideTarget(from: seq<string>, to: seq<string>, t: seq<string>, files: FileMoves, dirs: DirMoves)
    requires Clean(from) && from != [] && to != [] && Clean(t) && (PathOf(from), PathOf(to)) in dirs
    requires forall e <- dirs :: Under(PathOf(from + t), e.0) ==>
               |e.0| < |PathOf(from)| || e == (PathOf(from), PathOf(to))
    requires PathOf(from + t) in files ==> files[PathOf(from + t)] == PathOf(to + t)
    ensures RemapTarget(PathOf(from + t), files, dirs) == PathOf(to + t)
  {
    UnderDir(from, t);
    BelowDir(to, t);
    MapDirIs(PathOf(from + t), dirs, (PathOf(from), PathOf(to)));
  }

  /** A directory that moves with everything in it keeps the links inside it: source and target lie in directory
      `from`, both move to directory `to`, and the link written is the relative path between them, which depends on
      neither directory.  The move of the target is the one of the longest rule, or of the file table. */
  lemma InsideLinkKept(url: string, from: seq<string>, to: seq<string>, b: seq<string>, name: string, t: seq<string>,
                       files: FileMoves, dirs: DirMoves, w: seq<string>)
    requires IsRelative(url) && SplitAnchor(url).0 != ""
    requires Clean(from) && from != [] && Clean(to) && to != [] && Clean(b) && CleanPart(name) && Clean(t) && Clean(w)
    requires ResolveTarget(Join(from + b + [name], '/'), SplitAnchor(url).0) == PathOf(from + t)
    requires (PathOf(from), PathOf(to)) in dirs
    requires forall e <- dirs :: Under(PathOf(from + t), e.0) ==>
               |e.0| < |PathOf(from)| || e == (PathOf(from), PathOf(to))
    requires PathOf(from + t) in files ==> files[PathOf(from + t)] == PathOf(to + t)
    ensures var (path, anchor) := SplitAnchor(url);
      RewriteUrl(url, Join(from + b + [name], '/'), Join(to + b + [name], '/'), files, dirs, "/" + Join(w, '/'))
      == EncodeSpaces(PathOf(RelParts(b, t)) + if path[|path| - 1] == '/' then "/" else "") + anchor
  {
    var (path, anchor) := SplitAnchor(url);
    InsideTarget(from, to, t, files, dirs);
    NewPathOf(to + b, name, w, to + t, path[|path| - 1] == '/');
    RelPartsShared(to, b, t);
  }

  /** A plain name linked from a file resolves to itself in the file's directory. */
  lemma PlainTarget(base: seq<string>, src: string, name: string)
    requires Clean(base) && CleanPart(src) && CleanPart(name) && !Has(name, "%20")
    ensures ResolveTarget(Join(base + [src], '/'), name) == PathOf(base + [name])
  {
    ReplaceNothing(name, "%20", " ");
    assert Clean([name]);
    assert Dots(0) + [name] == [name] && PathOf([name]) == name && name + "" == name;
    assert base[..|base|] == base;
    ResolveParts(base, src, |base|, [name], false, name);
  }

  /** A file that leaves its directory, whose name holds a number sign, for the one above: its link to a neighbour
      it left behind is cut at the sign. */
  lemma SignBreaks(top: seq<string>, dir: string, name: string, neighbour: string, w: seq<string>)
    requires Clean(top) && CleanPart(dir) && '#' in dir && CleanPart(name) && CleanPart(neighbour) && Clean(w)
    requires IsRelative(neighbour) && !Has(neighbour, "%20") && '#' !in neighbour
    ensures var was, now := Join(top + [dir] + [name], '/'), Join(top + [name], '/');
      var link := RewriteUrl(neighbour, was, now, map[], [], "/" + Join(w, '/'));
      && ResolveTarget(was, neighbour) == PathOf(top + [dir] + [neighbour])
      && ResolveTarget(now, SplitAnchor(link).0) != PathOf(top + [dir] + [neighbour])
  {
    PlainTarget(top + [dir], name, neighbour);
    SharedTop(top, dir, neighbour);
    CutWhereMoved(Join(top + [dir] + [name], '/'), top, name, neighbour, w, top + [dir] + [neighbour]);
  }

  /** The target stays where it is, and only its source moves. */
  lemma CutWhereMoved(was: string, base: seq<string>, name: string, url: string, w: seq<string>, target: seq<string>)
    requires IsRelative(url) && '#' !in url && url != ""
    requires Clean(base) && CleanPart(name) && Clean(w) && Clean(target) && ResolveTarget(was, url) == PathOf(target)
    requires !Signless(Below(base, target))
    ensures var now := Join(base + [name], '/');
      ResolveTarget(now, SplitAnchor(RewriteUrl(url, was, now, map[], [], "/" + Join(w, '/'))).0) != PathOf(target)
  {
    WholeName(url);
    LinkResolves(url, was, base, name, map[], [], w, target);
  }

  lemma WholeName(name: string)
    requires '#' !in name
    ensures SplitAnchor(name) == (name, "")
  {
    AnchorSplits(name, "");
    assert name + "" == name;
  }

  lemma SharedTop(top: seq<string>, dir: string, name: string)
    requires '#' in dir
    ensures !Signless(Below(top, top + [dir] + [name]))
  {
    var target := top + [dir] + [name];
    assert top == target[..|top|];
    forall j | 0 <= j < |top| ensures top[j] == target[j] {
      assert target[..|top|][j] == target[j];
    }
    assert Below(top, target)[0] == dir;
  }

  /** For example `c#`. */
  lemma NumberSignBreaks()
    ensures var link := RewriteUrl("y", "d/c#/x", "d/x", map[], [], "/" + Join(["w"], '/'));
      ResolveTarget("d/c#/x", "y") == "d/c#/y" && ResolveTarget("d/x", SplitAnchor(link).0) != "d/c#/y"
  {
    assert "c#"[1] == '#';
    ThreeParts("d", "c#", "x", "d/c#/x");
    ThreeParts("d", "c#", "y", "d/c#/y");
    TwoParts("d", "x", "d/x");
    assert Clean(["d"]) && Clean(["w"]) && ["d"] + ["c#"] == ["d", "c#"] && ["d", "c#"] + ["y"] == ["d", "c#", "y"];
    SignBreaks(["d"], "c#", "x", "y", ["w"]);
  }

  lemma TwoParts(a: string, b: string, path: string)
    requires path == a + ['/'] + b
    ensures Join([a] + [b], '/') == path
  {
    assert ([a] + [b])[1..] == [b];
  }

  lemma ThreeParts(a: string, b: string, c: string, path: string)
    requires path == a + ['/'] + (b + ['/'] + c)
    ensures Join([a, b] + [c], '/') == path && PathOf([a, b, c]) == path
  {
    var all := [a, b, c];
    assert [a, b] + [c] == all && all[1..] == [b, c] && all[1..][1..] == [c];
    assert Join(all[1..], '/') == b + ['/'] + Join(all[1..][1..], '/');
  }
}
