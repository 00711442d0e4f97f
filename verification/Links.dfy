/**
  Rewriting relative markdown links when files move (tools/reorg_docs.py).

  Paths are strings, as in the script; `dirname`, `join`, `normpath` and `relpath` are the
  posixpath functions it calls.  The main result says what a rewritten link resolves to from
  the source's new place, for any move table and any working directory.
 */
module Links {
  import opened Text

  // ---- posixpath -------------------------------------------------------------------------

  function LastSlash(p: string): (i: int)
    ensures -1 <= i < |p|
    ensures i >= 0 ==> p[i] == '/'
    ensures forall k :: i < k < |p| ==> p[k] != '/'
  {
    if p == "" then -1 else if p[|p| - 1] == '/' then |p| - 1 else LastSlash(p[..|p| - 1])
  }

  function StripRight(p: string, c: char): string {
    if p != "" && p[|p| - 1] == c then StripRight(p[..|p| - 1], c) else p
  }

  function DirName(p: string): string {
    var head := p[..LastSlash(p) + 1];
    var stripped := StripRight(head, '/');
    if stripped == "" then head else stripped
  }

  function PathJoin(a: string, b: string): string {
    if b != "" && b[0] == '/' then b
    else if a == "" || a[|a| - 1] == '/' then a + b
    else a + "/" + b
  }

  /** `normpath`'s loop over the components, with the result so far. */
  function Norm(parts: seq<string>, abs: bool, acc: seq<string>): seq<string> {
    if parts == [] then acc
    else
      var p := parts[0];
      var grown :=
        if p == "" || p == "." then acc
        else if p != ".." || (!abs && acc == []) || (acc != [] && acc[|acc| - 1] == "..") then acc + [p]
        else if acc != [] then acc[..|acc| - 1]
        else acc;
      Norm(parts[1..], abs, grown)
  }

  function NormPath(p: string): string {
    if p == "" then "."
    else
      var root := if "//" <= p && !("///" <= p) then "//" else if "/" <= p then "/" else "";
      var path := root + Join(Norm(Split(p, '/'), root != "", []), '/');
      if path == "" then "." else path
  }

  function NonEmpty(parts: seq<string>): seq<string> {
    if parts == [] then []
    else (if parts[0] == "" then [] else [parts[0]]) + NonEmpty(parts[1..])
  }

  function AbsParts(path: string, cwd: string): seq<string> {
    NonEmpty(Split(NormPath(if "/" <= path then path else PathJoin(cwd, path)), '/'))
  }

  function CommonLen(a: seq<string>, b: seq<string>): (i: nat)
    ensures i <= |a| && i <= |b| && a[..i] == b[..i]
    ensures i < |a| && i < |b| ==> a[i] != b[i]
  {
    if a == [] || b == [] || a[0] != b[0] then 0 else 1 + CommonLen(a[1..], b[1..])
  }

  function Dots(k: nat): (ds: seq<string>)
    ensures |ds| == k && forall i :: 0 <= i < k ==> ds[i] == ".."
  {
    seq(k, _ => "..")
  }

  function JoinFrom(acc: string, parts: seq<string>): string
    decreases |parts|
  {
    if parts == [] then acc else JoinFrom(PathJoin(acc, parts[0]), parts[1..])
  }

  /** `relpath(path, start)` for a process whose working directory is `cwd`. */
  function RelPath(path: string, start: string, cwd: string): string {
    RelBetween(AbsParts(start, cwd), AbsParts(path, cwd))
  }

  /** Up to what two lists of components share, then down. */
  function RelParts(base: seq<string>, target: seq<string>): seq<string> {
    var i := CommonLen(base, target);
    Dots(|base| - i) + target[i..]
  }

  function RelBetween(s: seq<string>, p: seq<string>): string {
    JoinedParts(RelParts(s, p))
  }

  function JoinedParts(parts: seq<string>): string {
    if parts == [] then "." else JoinFrom(parts[0], parts[1..])
  }

  // ---- the script ------------------------------------------------------------------------

  type FileMoves = map<string, string>
  type DirMoves = seq<(string, string)>

  function Home(folder: string, name: string): string {
    "docs/" + folder + "/" + name
  }

  const DIR_MOVES: DirMoves := [
    ("docs/dev-guide", Home("01 - Design", "dev-guide")),
    ("docs/decisions", Home("02 - Implementation", "decisions")),
    ("docs/ops", Home("02 - Implementation", "ops")),
    ("docs/atoms", Home("04 - Reference", "atoms")),
    ("docs/kernel", Home("04 - Reference", "kernel")),
    ("docs/rfcs", Home("05 - Standards", "rfcs")),
    ("docs/bsps", "docs/03 - Blueprint"),
    ("docs/notebook", "docs/03 - Blueprint")]

  predicate IsRelative(url: string) {
    && !("#" <= url) && !("/" <= url) && !("http://" <= url) && !("https://" <= url)
    && !("mailto:" <= url) && !("tel:" <= url) && !("ftp://" <= url)
    && !Has(url, "://")
  }

  function SplitAnchor(url: string): (string, string) {
    if url == "" then ("", "")
    else if url[0] == '#' then ("", url)
    else var r := SplitAnchor(url[1..]); ([url[0]] + r.0, r.1)
  }

  function EncodeSpaces(p: string): string {
    Replace(Replace(p, " ", "%20"), "%2520", "%20")
  }

  function Decode(p: string): string {
    Replace(p, "%20", " ")
  }

  function ResolveTarget(src: string, link: string): string {
    NormPath(PathJoin(DirName(src), Decode(link)))
  }

  predicate Under(target: string, src: string) {
    target == src || src + "/" <= target
  }

  /** The script's choice of directory rule: the first of the longest that matches, or -1. */
  function BestDir(target: string, table: DirMoves): (b: int)
    ensures -1 <= b < |table|
  {
    if table == [] then -1
    else
      var n := |table| - 1;
      var b := BestDir(target, table[..n]);
      if Under(target, table[n].0) && (b == -1 || |table[n].0| > |table[b].0|) then n else b
  }

  function MapDir(target: string, table: DirMoves): string {
    var b := BestDir(target, table);
    if b == -1 || |table[b].0| > |target| then target else table[b].1 + target[|table[b].0|..]
  }

  function RemapTarget(target: string, files: FileMoves, dirs: DirMoves): string {
    if target in files then files[target] else MapDir(target, dirs)
  }

  function RewriteUrl(url: string, srcOld: string, srcNew: string,
                      files: FileMoves, dirs: DirMoves, cwd: string): string {
    if !IsRelative(url) then url
    else
      var (path, anchor) := SplitAnchor(url);
      if path == "" then url
      else
        var target := RemapTarget(ResolveTarget(srcOld, path), files, dirs);
        EncodeSpaces(NewPath(target, srcNew, cwd, path[|path| - 1] == '/')) + anchor
  }

  /** Where `relpath` starts from. */
  function StartDir(src: string): string {
    var base := DirName(src);
    if base == "" then "." else base
  }

  function WithSlash(rel: string, trailingSlash: bool): string {
    if trailingSlash && (rel == "" || rel[|rel| - 1] != '/') then rel + "/" else rel
  }

  /** The relative path written for a target, before encoding. */
  function NewPath(targetNew: string, srcNew: string, cwd: string, trailingSlash: bool): string {
    WithSlash(RelPath(targetNew, StartDir(srcNew), cwd), trailingSlash)
  }

  /** Links that lead elsewhere: anchors, paths from the root, mail and telephone, and whatever names a scheme. */
  predicate Elsewhere(url: string) {
    "#" <= url || "/" <= url || "mailto:" <= url || "tel:" <= url || Has(url, "://")
  }

  lemma {:induction false} HasBehind(a: string, pat: string, b: string)
    ensures Has(a + pat + b, pat)
  {
    var s := a + pat + b;
    if a != "" {
      assert s[1..] == a[1..] + pat + b;
      HasBehind(a[1..], pat, b);
    } else {
      assert pat <= s;
    }
  }

  lemma SchemeHas(url: string, name: string)
    requires name + "://" <= url
    ensures Has(url, "://")
  {
    var rest := url[|name| + 3..];
    assert url == name + "://" + rest;
    HasBehind(name, "://", rest);
  }

  /** Exactly those links are left alone for what they are; every other link with a path is rewritten. */
  lemma RelativeExactly(url: string)
    ensures IsRelative(url) <==> !Elsewhere(url)
  {
    assert "http" + "://" == "http://" && "https" + "://" == "https://" && "ftp" + "://" == "ftp://";
    if "http://" <= url { SchemeHas(url, "http"); }
    if "https://" <= url { SchemeHas(url, "https"); }
    if "ftp://" <= url { SchemeHas(url, "ftp"); }
  }

  lemma LeftAlone(url: string, srcOld: string, srcNew: string, files: FileMoves, dirs: DirMoves, cwd: string)
    requires Elsewhere(url)
    ensures RewriteUrl(url, srcOld, srcNew, files, dirs, cwd) == url
  {
    RelativeExactly(url);
  }

  /** The loop of `map_dir`. */
  method MapDirLoop(target: string, table: DirMoves) returns (r: string)
    ensures r == MapDir(target, table)
  {
    var best := -1;
    for i := 0 to |table|
      invariant best == BestDir(target, table[..i])
    {
      assert table[..i + 1][..i] == table[..i];
      if Under(target, table[i].0) {
        if best == -1 || |table[i].0| > |table[best].0| {
          best := i;
        }
      }
    }
    assert table[..|table|] == table;
    if best == -1 {
      return target;
    }
    BestDirMatches(target, table);
    return table[best].1 + target[|table[best].0|..];
  }

  /** The rule chosen matches and no matching rule is longer; there is none only if none matches. */
  lemma {:induction false} BestDirMatches(target: string, table: DirMoves)
    ensures var b := BestDir(target, table);
      && (b == -1 <==> forall e <- table :: !Under(target, e.0))
      && (b >= 0 ==> Under(target, table[b].0) && forall e <- table :: Under(target, e.0) ==> |e.0| <= |table[b].0|)
  {
    if table != [] {
      var n := |table| - 1;
      BestDirMatches(target, table[..n]);
      assert table[..n] + [table[n]] == table;
      assert forall e :: e in table <==> e in table[..n] || e == table[n];
    }
  }

  /** The longest matching rule, if no other rule has its source, swaps its source for its destination and keeps the
      rest of the path; a target that no rule matches stays. */
  lemma MapDirIs(target: string, table: DirMoves, rule: (string, string))
    requires rule in table && Under(target, rule.0)
    requires forall e <- table :: Under(target, e.0) ==> |e.0| < |rule.0| || e == rule
    ensures MapDir(target, table) == rule.1 + target[|rule.0|..]
  {
    BestDirMatches(target, table);
    var b := BestDir(target, table);
    assert table[b] in table;
  }

  lemma MapDirNone(target: string, table: DirMoves)
    requires forall e <- table :: !Under(target, e.0)
    ensures MapDir(target, table) == target
  {
    BestDirMatches(target, table);
  }

  /** Longest-prefix matching does not depend on the order in which the rules are listed. */
  lemma MapDirOrderFree(target: string, t1: DirMoves, t2: DirMoves)
    requires forall e :: e in t1 <==> e in t2
    requires forall d, e :: d in t1 && e in t1 && d.0 == e.0 ==> d == e
    ensures MapDir(target, t1) == MapDir(target, t2)
  {
    BestDirMatches(target, t1);
    BestDirMatches(target, t2);
    var b1, b2 := BestDir(target, t1), BestDir(target, t2);
    if b1 >= 0 && b2 >= 0 {
      assert t1[b1] in t2 && t2[b2] in t1;
      var x, y := t1[b1].0, t2[b2].0;
      assert |x| == |y|;
      assert x == target[..|x|] && y == target[..|y|];
    }
  }

  // ---- component lists -------------------------------------------------------------------

  predicate CleanPart(p: string) {
    p != "" && p != "." && p != ".." && '/' !in p
  }

  /** The components of a normalised path that stays inside the repository. */
  predicate Clean(cs: seq<string>) {
    forall i :: 0 <= i < |cs| ==> CleanPart(cs[i])
  }

  function PathOf(cs: seq<string>): string {
    if cs == [] then "." else Join(cs, '/')
  }

  lemma {:induction false} NormConcat(a: seq<string>, b: seq<string>, abs: bool, acc: seq<string>)
    ensures Norm(a + b, abs, acc) == Norm(b, abs, Norm(a, abs, acc))
    decreases |a|
  {
    if a == [] {
      assert a + b == b;
    } else {
      assert (a + b)[1..] == a[1..] + b;
      var p := a[0];
      var grown :=
        if p == "" || p == "." then acc
        else if p != ".." || (!abs && acc == []) || (acc != [] && acc[|acc| - 1] == "..") then acc + [p]
        else if acc != [] then acc[..|acc| - 1]
        else acc;
      NormConcat(a[1..], b, abs, grown);
    }
  }

  lemma {:induction false} NormClean(cs: seq<string>, abs: bool, acc: seq<string>)
    requires Clean(cs)
    ensures Norm(cs, abs, acc) == acc + cs
    decreases |cs|
  {
    if cs != [] {
      NormClean(cs[1..], abs, acc + [cs[0]]);
      assert acc + [cs[0]] + cs[1..] == acc + cs;
    }
  }

  lemma {:induction false} NormDots(k: nat, abs: bool, acc: seq<string>)
    requires k <= |acc| && Clean(acc)
    ensures Norm(Dots(k), abs, acc) == acc[..|acc| - k]
  {
    if k > 0 {
      assert Dots(k)[1..] == Dots(k - 1);
      assert CleanPart(acc[|acc| - 1]);
      NormDots(k - 1, abs, acc[..|acc| - 1]);
    } else {
      assert acc[..|acc|] == acc;
    }
  }

  /** Going up from `base` to the common prefix and down again normalises to the destination. */
  lemma NormRelative(base: seq<string>, i: nat, down: seq<string>, abs: bool)
    requires Clean(base) && Clean(down) && i <= |base|
    ensures Norm(base + (Dots(|base| - i) + down), abs, []) == base[..i] + down
  {
    NormConcat(base, Dots(|base| - i) + down, abs, []);
    NormClean(base, abs, []);
    NormConcat(Dots(|base| - i), down, abs, base);
    NormDots(|base| - i, abs, base);
    NormClean(down, abs, base[..i]);
    assert [] + base == base;
  }

  lemma CleanPathSplits(cs: seq<string>)
    requires Clean(cs) && cs != []
    ensures Split(Join(cs, '/'), '/') == cs
    ensures Join(cs, '/') != "" && Join(cs, '/')[0] != '/' && Join(cs, '/')[|Join(cs, '/')| - 1] != '/'
  {
    JoinEnds(cs, '/');
    forall p | p in cs ensures '/' !in p { var i :| 0 <= i < |cs| && cs[i] == p; assert CleanPart(cs[i]); }
    SplitJoin(cs, '/');
  }

  lemma {:induction false} NonEmptyClean(cs: seq<string>)
    requires Clean(cs)
    ensures NonEmpty(cs) == cs
  {
    if cs != [] {
      assert CleanPart(cs[0]);
      NonEmptyClean(cs[1..]);
    }
  }

  lemma SplitUnderRoot(w: seq<string>, rel: string)
    requires Clean(w) && rel != "" && rel[0] != '/'
    ensures var full := PathJoin("/" + Join(w, '/'), rel);
      && Split(full, '/') == [""] + w + Split(rel, '/')
      && |full| > 1 && full[0] == '/' && full[1] != '/'
  {
    var full := PathJoin("/" + Join(w, '/'), rel);
    if w == [] {
      assert full == "" + ['/'] + rel;
      SplitConcat("", rel, '/');
    } else {
      CleanPathSplits(w);
      var mid := Join(w, '/');
      assert full == ("" + ['/'] + mid) + ['/'] + rel;
      SplitConcat("", mid, '/');
      SplitConcat("" + ['/'] + mid, rel, '/');
    }
  }

  lemma NormUnderRoot(full: string, abs: seq<string>)
    requires |full| > 1 && full[0] == '/' && full[1] != '/'
    requires Norm(Split(full, '/'), true, []) == abs && Clean(abs)
    ensures NonEmpty(Split(NormPath(full), '/')) == abs
  {
    assert NormPath(full) == "/" + Join(abs, '/');
    RootParts(abs);
  }

  lemma RootParts(abs: seq<string>)
    requires Clean(abs)
    ensures NonEmpty(Split("/" + Join(abs, '/'), '/')) == abs
  {
    var text := Join(abs, '/');
    assert "/" + text == "" + ['/'] + text;
    SplitConcat("", text, '/');
    var parts := Split(text, '/');
    assert Split("/" + text, '/') == [""] + parts && ([""] + parts)[1..] == parts;
    if abs != [] {
      CleanPathSplits(abs);
      NonEmptyClean(abs);
    } else {
      assert parts == [""] && [""][1..] == [];
      assert NonEmpty([""]) == [];
    }
  }

  lemma PathOfSplits(cs: seq<string>)
    requires Clean(cs)
    ensures PathOf(cs) != "" && PathOf(cs)[0] != '/' && PathOf(cs)[|PathOf(cs)| - 1] != '/'
    ensures Split(PathOf(cs), '/') == if cs == [] then ["."] else cs
  {
    if cs == [] {
      SplitNoSep(".", '/');
    } else {
      CleanPathSplits(cs);
    }
  }

  /** From a working directory `/w`, the absolute components of an inside path are w ++ cs. */
  lemma AbsPartsOf(w: seq<string>, cs: seq<string>)
    requires Clean(w) && Clean(cs)
    ensures AbsParts(PathOf(cs), "/" + Join(w, '/')) == w + cs
  {
    PathOfSplits(cs);
    var rel := PathOf(cs);
    SplitUnderRoot(w, rel);
    var full, parts := PathJoin("/" + Join(w, '/'), rel), Split(rel, '/');
    NormConcat([""] + w, parts, true, []);
    NormConcat([""], w, true, []);
    assert Norm([""], true, []) == [];
    NormClean(w, true, []);
    assert [] + w == w;
    assert Norm(parts, true, w) == w + cs by {
      if cs == [] { assert Norm(["."], true, w) == w; } else { NormClean(cs, true, w); }
    }
    NormUnderRoot(full, w + cs);
  }

  lemma {:induction false} JoinFromParts(acc: string, parts: seq<string>)
    requires acc != "" && acc[|acc| - 1] != '/'
    requires forall i :: 0 <= i < |parts| ==> parts[i] != "" && '/' !in parts[i]
    ensures JoinFrom(acc, parts) == Join([acc] + parts, '/')
    decreases |parts|
  {
    if parts != [] {
      var p := parts[0];
      assert p != "" && '/' !in p && p[0] in p && p[|p| - 1] in p;
      var grown := acc + "/" + p;
      assert PathJoin(acc, p) == grown;
      JoinFromParts(grown, parts[1..]);
      assert ([acc] + parts)[1..] == parts && ([grown] + parts[1..])[1..] == parts[1..];
      if |parts| > 1 {
        assert acc + ['/'] + (p + ['/'] + Join(parts[1..], '/')) == grown + ['/'] + Join(parts[1..], '/');
      }
    }
  }

  lemma {:induction false} CommonLenPrefix(w: seq<string>, a: seq<string>, b: seq<string>)
    ensures CommonLen(w + a, w + b) == |w| + CommonLen(a, b)
  {
    if w == [] {
      assert w + a == a && w + b == b;
    } else {
      assert (w + a)[1..] == w[1..] + a && (w + b)[1..] == w[1..] + b;
      CommonLenPrefix(w[1..], a, b);
    }
  }

  lemma RelPartsPlain(base: seq<string>, target: seq<string>)
    requires Clean(target)
    ensures forall k :: 0 <= k < |RelParts(base, target)| ==>
              RelParts(base, target)[k] != "" && '/' !in RelParts(base, target)[k]
  {
    var parts, i := RelParts(base, target), CommonLen(base, target);
    forall k | 0 <= k < |parts| ensures parts[k] != "" && '/' !in parts[k] {
      if k >= |base| - i {
        assert parts[k] == target[k - |base| + i + i] && CleanPart(parts[k]);
      }
    }
  }

  lemma JoinAllParts(parts: seq<string>)
    requires parts != [] && forall k :: 0 <= k < |parts| ==> parts[k] != "" && '/' !in parts[k]
    ensures JoinFrom(parts[0], parts[1..]) == Join(parts, '/')
  {
    assert parts[0] != "" && '/' !in parts[0] && parts[0][|parts[0]| - 1] in parts[0];
    JoinFromParts(parts[0], parts[1..]);
    assert [parts[0]] + parts[1..] == parts;
  }

  /** `relpath` between inside paths does not depend on the working directory. */
  lemma RelPathOf(w: seq<string>, base: seq<string>, target: seq<string>)
    requires Clean(w) && Clean(base) && Clean(target)
    ensures RelPath(PathOf(target), PathOf(base), "/" + Join(w, '/')) == PathOf(RelParts(base, target))
  {
    AbsPartsOf(w, base);
    AbsPartsOf(w, target);
    RelBetweenOf(w, base, target);
  }

  lemma RelBetweenOf(w: seq<string>, base: seq<string>, target: seq<string>)
    requires Clean(target)
    ensures RelBetween(w + base, w + target) == PathOf(RelParts(base, target))
  {
    RelPartsShared(w, base, target);
    JoinRelParts(base, target);
  }

  /** What both sides share does not show in the parts. */
  lemma RelPartsShared(w: seq<string>, base: seq<string>, target: seq<string>)
    ensures RelParts(w + base, w + target) == RelParts(base, target)
  {
    CommonLenPrefix(w, base, target);
    assert (w + target)[|w| + CommonLen(base, target)..] == target[CommonLen(base, target)..];
  }

  lemma JoinRelParts(base: seq<string>, target: seq<string>)
    requires Clean(target)
    ensures JoinedParts(RelParts(base, target)) == PathOf(RelParts(base, target))
  {
    var parts := RelParts(base, target);
    RelPartsPlain(base, target);
    if parts != [] {
      JoinAllParts(parts);
    }
  }

  lemma StripNothing(p: string, c: char)
    requires p != "" && p[|p| - 1] != c
    ensures StripRight(p + [c], c) == p
  {
    assert (p + [c])[..|p|] == p;
  }

  lemma DirNameOf(base: seq<string>, name: string)
    requires Clean(base) && CleanPart(name)
    ensures DirName(Join(base + [name], '/')) == Join(base, '/')
  {
    var p := Join(base + [name], '/');
    if base == [] {
      assert p == name;
      assert LastSlash(p) == -1;
    } else {
      JoinConcat(base, [name], '/');
      var dir := Join(base, '/');
      assert p == dir + ['/'] + name;
      assert forall k :: |dir| < k < |p| ==> p[k] == name[k - |dir| - 1] && p[k] in name;
      assert p[|dir|] == '/';
      assert LastSlash(p) == |dir| by {
        var i := LastSlash(p);
        assert i >= 0 && !(i < |dir|) && !(i > |dir|);
      }
      assert p[..|dir| + 1] == dir + ['/'];
      CleanPathSplits(base);
      StripNothing(dir, '/');
    }
  }

  // ---- space encoding ----------------------------------------------------------------------

  /** What survives encoding followed by decoding: a literal %20 or %2520 becomes a space. */
  function Squash(s: string): string {
    if s == "" then ""
    else if "%2520" <= s then " " + Squash(s[5..])
    else if "%20" <= s then " " + Squash(s[3..])
    else [s[0]] + Squash(s[1..])
  }

  lemma {:induction false} SpacesHead(s: string, n: nat)
    requires n <= |Replace(s, " ", "%20")|
    requires forall i :: 0 <= i < n ==> Replace(s, " ", "%20")[i] != '%'
    ensures n <= |s| && s[..n] == Replace(s, " ", "%20")[..n]
    ensures Replace(s, " ", "%20")[n..] == Replace(s[n..], " ", "%20")
  {
    if n > 0 {
      assert Replace(s, " ", "%20")[0] == if s[0] == ' ' then '%' else s[0];
      var r := Replace(s[1..], " ", "%20");
      assert Replace(s, " ", "%20") == [s[0]] + r;
      forall i | 0 <= i < n - 1 ensures r[i] != '%' { assert Replace(s, " ", "%20")[i + 1] == r[i]; }
      SpacesHead(s[1..], n - 1);
      assert s[n..] == s[1..][n - 1..];
    }
  }

  lemma EncodeSpace(s: string)
    requires s != "" && s[0] == ' '
    ensures EncodeSpaces(s) == "%20" + EncodeSpaces(s[1..])
  {
    var t := Replace(s[1..], " ", "%20");
    var r := "%20" + t;
    assert Replace(s, " ", "%20") == r;
    assert r[1..] == "20" + t && r[1..][1..] == "0" + t && r[1..][1..][1..] == t;
    assert r[2] == '0';
    assert Replace(r, "%2520", "%20") == ['%'] + Replace(r[1..], "%2520", "%20");
    assert Replace("20" + t, "%2520", "%20") == ['2'] + Replace("0" + t, "%2520", "%20");
    assert Replace("0" + t, "%2520", "%20") == ['0'] + Replace(t, "%2520", "%20");
  }

  lemma EncodeLiteral(s: string)
    requires "%2520" <= s
    ensures EncodeSpaces(s) == "%20" + EncodeSpaces(s[5..])
  {
    assert s[..5] == "%2520";
    assert forall i :: 0 <= i < 5 ==> s[i] == "%2520"[i];
    PlainHead(s, 5);
    var r := Replace(s, " ", "%20");
    assert r == r[..5] + r[5..];
  }

  lemma EncodeOther(s: string)
    requires s != "" && s[0] != ' ' && !("%2520" <= s)
    ensures EncodeSpaces(s) == [s[0]] + EncodeSpaces(s[1..])
  {
    var t := Replace(s[1..], " ", "%20");
    var r := [s[0]] + t;
    assert Replace(s, " ", "%20") == r && r[1..] == t;
    if "%2520" <= r {
      assert r[..5] == "%2520" && t[..4] == "2520";
      assert forall i :: 0 <= i < 4 ==> t[i] == "2520"[i];
      SpacesHead(s[1..], 4);
      assert false;
    }
  }

  /** Encoding after a literal %2520, a space, or any other character. */
  lemma EncodeUnfolds(s: string)
    requires s != ""
    ensures "%2520" <= s ==> EncodeSpaces(s) == "%20" + EncodeSpaces(s[5..])
    ensures s[0] == ' ' ==> EncodeSpaces(s) == "%20" + EncodeSpaces(s[1..])
    ensures s[0] != ' ' && !("%2520" <= s) ==> EncodeSpaces(s) == [s[0]] + EncodeSpaces(s[1..])
  {
    if "%2520" <= s {
      EncodeLiteral(s);
    } else if s[0] == ' ' {
      EncodeSpace(s);
    } else {
      EncodeOther(s);
    }
  }

  lemma {:induction false} PlainHead(s: string, n: nat)
    requires n <= |s| && forall i :: 0 <= i < n ==> s[i] != ' '
    ensures var r := Replace(s, " ", "%20"); n <= |r| && r[..n] == s[..n] && r[n..] == Replace(s[n..], " ", "%20")
  {
    if n > 0 {
      PlainHead(s[1..], n - 1);
      var r := Replace(s[1..], " ", "%20");
      assert Replace(s, " ", "%20") == [s[0]] + r;
      assert s[n..] == s[1..][n - 1..] && ([s[0]] + r)[n..] == r[n - 1..];
      assert s[..n] == [s[0]] + s[1..][..n - 1] && ([s[0]] + r)[..n] == [s[0]] + r[..n - 1];
    }
  }

  lemma EncodeHead(s: string)
    ensures var e := EncodeSpaces(s);
      e != "" && e[0] != '%' ==> s != "" && e[0] == s[0] && e[1..] == EncodeSpaces(s[1..])
  {
    if s != "" {
      EncodeUnfolds(s);
    }
  }

  lemma EncodeTwenty(s: string)
    requires "%20" <= s
    ensures EncodeSpaces(s) == "%20" + EncodeSpaces(s[3..])
  {
    assert s[1] == '2' && s[2] == '0';
    assert s[1..][1..] == s[2..] && s[2..][1..] == s[3..];
    EncodeOther(s);
    EncodeOther(s[1..]);
    EncodeOther(s[2..]);
    ThreeChars(EncodeSpaces(s[3..]));
  }

  lemma ThreeChars(t: string)
    ensures ['%'] + (['2'] + (['0'] + t)) == "%20" + t
  {
  }

  lemma EncodeNoTwenty(s: string)
    requires s != "" && s[0] != ' ' && !("%2520" <= s) && !("%20" <= s)
    ensures !("%20" <= EncodeSpaces(s))
  {
    EncodeOther(s);
    var e := EncodeSpaces(s);
    assert e[1..] == EncodeSpaces(s[1..]);
    EncodeHead(s[1..]);
    if |s| >= 2 {
      assert s[1..][1..] == s[2..];
      EncodeHead(s[2..]);
    }
  }

  lemma {:induction false} DecodeEncode(s: string)
    ensures Decode(EncodeSpaces(s)) == Squash(s)
  {
    if s != "" {
      var e := EncodeSpaces(s);
      if "%2520" <= s {
        EncodeLiteral(s);
        DecodeEncode(s[5..]);
        assert e[3..] == EncodeSpaces(s[5..]);
      } else if "%20" <= s {
        EncodeTwenty(s);
        DecodeEncode(s[3..]);
        assert e[3..] == EncodeSpaces(s[3..]);
      } else if s[0] == ' ' {
        EncodeSpace(s);
        DecodeEncode(s[1..]);
        assert e[3..] == EncodeSpaces(s[1..]);
      } else {
        EncodeOther(s);
        EncodeNoTwenty(s);
        DecodeEncode(s[1..]);
        assert e[1..] == EncodeSpaces(s[1..]);
      }
    }
  }

  predicate Plain(s: string) {
    !Has(s, "%20") && !Has(s, "%2520")
  }

  /** Encoding then decoding a text gives it back if and only if it holds no literal %20 or %2520. */
  lemma {:induction false} SquashFixes(s: string)
    ensures |Squash(s)| <= |s|
    ensures Squash(s) == s <==> Plain(s)
    ensures |Squash(s)| == |s| ==> Plain(s)
  {
    if s != "" {
      if "%2520" <= s {
        SquashFixes(s[5..]);
      } else if "%20" <= s {
        SquashFixes(s[3..]);
      } else {
        SquashFixes(s[1..]);
        assert ([s[0]] + Squash(s[1..]))[1..] == Squash(s[1..]);
      }
    }
  }

  lemma {:induction false} SquashConcat(a: string, b: string)
    ensures Squash(a + "/" + b) == Squash(a) + "/" + Squash(b)
  {
    if a == "" {
      var s := "" + "/" + b;
      assert s[0] == '/' && s[1..] == b;
      assert Squash(s) == ['/'] + Squash(b);
      assert "" + "/" + Squash(b) == ['/'] + Squash(b);
    } else {
      var n := if "%2520" <= a then 5 else if "%20" <= a then 3 else 1;
      SquashStep(a, b, n);
      SquashConcat(a[n..], b);
      JoinHead(if n == 1 then [a[0]] else " ", Squash(a[n..]), Squash(b));
    }
  }

  lemma JoinHead(h: string, x: string, y: string)
    ensures h + (x + "/" + y) == (h + x) + "/" + y
  {
  }

  /** A slash after a text does not change how its head is squashed. */
  lemma SquashStep(a: string, b: string, n: nat)
    requires a != "" && n == if "%2520" <= a then 5 else if "%20" <= a then 3 else 1
    ensures Squash(a + "/" + b) == (if n == 1 then [a[0]] else " ") + Squash(a[n..] + "/" + b)
  {
    var s := a + "/" + b;
    NotAcross(a, b, "%2520");
    NotAcross(a, b, "%20");
    assert s[n..] == a[n..] + "/" + b && s[0] == a[0];
    assert s == a + ("/" + b);
  }

  lemma NotAcross(a: string, b: string, pat: string)
    requires '/' !in pat
    ensures pat <= a + "/" + b ==> pat <= a
  {
    var s := a + "/" + b;
    assert s[|a|] == '/';
    assert |a| < |pat| ==> pat[|a|] != '/';
    if pat <= s && |pat| <= |a| {
      assert s[..|pat|] == a[..|pat|];
    }
  }

  lemma {:induction false} SquashChars(s: string)
    ensures Squash(s) == s || ' ' in Squash(s)
    ensures '/' !in s ==> '/' !in Squash(s)
    ensures s != "" ==> Squash(s) != ""
  {
    if s != "" {
      if "%2520" <= s {
        SquashChars(s[5..]);
      } else if "%20" <= s {
        SquashChars(s[3..]);
      } else {
        SquashChars(s[1..]);
        assert [s[0]] + s[1..] == s;
      }
    }
  }

  function SquashAll(ps: seq<string>): (qs: seq<string>)
    ensures |qs| == |ps| && forall i :: 0 <= i < |ps| ==> qs[i] == Squash(ps[i])
  {
    seq(|ps|, i requires 0 <= i < |ps| => Squash(ps[i]))
  }

  lemma {:induction false} SquashJoin(ps: seq<string>)
    ensures Squash(Join(ps, '/')) == Join(SquashAll(ps), '/')
  {
    if |ps| > 1 {
      SquashJoin(ps[1..]);
      SquashConcat(ps[0], Join(ps[1..], '/'));
      assert SquashAll(ps)[1..] == SquashAll(ps[1..]);
    }
  }

  lemma SquashClean(cs: seq<string>)
    requires Clean(cs)
    ensures Clean(SquashAll(cs))
  {
    forall i | 0 <= i < |cs| ensures CleanPart(Squash(cs[i])) {
      assert CleanPart(cs[i]);
      SquashChars(cs[i]);
    }
  }

  // ---- what a rewritten link resolves to -----------------------------------------------------

  /** The components of a relative link text, with or without a trailing slash. */
  lemma LinkSteps(k: nat, down: seq<string>, slash: bool, d: string)
    requires Clean(down) && d == PathOf(Dots(k) + down) + if slash then "/" else ""
    ensures d != "" && d[0] != '/'
    ensures Split(d, '/') == (if Dots(k) + down == [] then ["."] else Dots(k) + down) + if slash then [""] else []
  {
    var parts := Dots(k) + down;
    var rel := PathOf(parts);
    if parts == [] {
      SplitNoSep(".", '/');
    } else {
      PlainParts(k, down);
      JoinEnds(parts, '/');
      SplitJoin(parts, '/');
    }
    if slash {
      assert d == rel + ['/'] + "";
      SplitConcat(rel, "", '/');
    } else {
      assert d == rel;
    }
  }

  lemma NormSteps(base: seq<string>, i: nat, down: seq<string>, shown: seq<string>, tail: seq<string>)
    requires Clean(base) && i <= |base| && Clean(down)
    requires shown == if Dots(|base| - i) + down == [] then ["."] else Dots(|base| - i) + down
    requires tail == [""] || tail == []
    ensures Norm(base + (shown + tail), false, []) == base[..i] + down
  {
    NormRelative(base, i, down, false);
    var parts := Dots(|base| - i) + down;
    var end := base[..i] + down;
    if parts == [] {
      NormClean(base, false, []);
      assert [] + base == base && base[..i] == base;
      NormConcat(base, ["."], false, []);
      assert Norm(["."], false, base) == base;
    }
    assert Norm(base + shown, false, []) == end;
    assert base + (shown + tail) == (base + shown) + tail;
    NormConcat(base + shown, tail, false, []);
    assert Norm([""], false, end) == end && Norm([], false, end) == end;
  }

  lemma NormInside(full: string, end: seq<string>)
    requires full != "" && full[0] != '/' && Norm(Split(full, '/'), false, []) == end && Clean(end)
    ensures NormPath(full) == PathOf(end)
  {
    assert "" + Join(end, '/') == Join(end, '/');
    if end != [] {
      CleanPathSplits(end);
    }
  }

  lemma SplitUnderDir(base: seq<string>, d: string)
    requires Clean(base) && d != "" && d[0] != '/'
    ensures var full := PathJoin(Join(base, '/'), d);
      full != "" && full[0] != '/' && Split(full, '/') == base + Split(d, '/')
  {
    var dir := Join(base, '/');
    var full := PathJoin(dir, d);
    if base == [] {
      assert full == d && base + Split(d, '/') == Split(d, '/');
    } else {
      CleanPathSplits(base);
      assert full == dir + ['/'] + d;
      SplitConcat(dir, d, '/');
    }
  }

  /** Resolving `up k levels, then down` from a file of directory `base`. */
  lemma ResolveParts(base: seq<string>, name: string, i: nat, down: seq<string>, slash: bool, d: string)
    requires Clean(base) && CleanPart(name) && i <= |base| && Clean(down)
    requires d == PathOf(Dots(|base| - i) + down) + if slash then "/" else ""
    ensures NormPath(PathJoin(DirName(Join(base + [name], '/')), d)) == PathOf(base[..i] + down)
  {
    DirNameOf(base, name);
    ResolveUnder(base, i, down, slash, d);
  }

  lemma ResolveUnder(base: seq<string>, i: nat, down: seq<string>, slash: bool, d: string)
    requires Clean(base) && i <= |base| && Clean(down)
    requires d == PathOf(Dots(|base| - i) + down) + if slash then "/" else ""
    ensures NormPath(PathJoin(Join(base, '/'), d)) == PathOf(base[..i] + down)
  {
    var end := base[..i] + down;
    CleanJoin(base, i, down);
    assert d != "" && d[0] != '/' && Norm(base + Split(d, '/'), false, []) == end by {
      LinkNorm(base, i, down, slash, d);
    }
    ResolveSteps(base, d, end);
  }

  lemma CleanJoin(base: seq<string>, i: nat, down: seq<string>)
    requires Clean(base) && i <= |base| && Clean(down)
    ensures Clean(base[..i] + down)
  {
  }

  lemma ResolveSteps(base: seq<string>, d: string, end: seq<string>)
    requires Clean(base) && Clean(end) && d != "" && d[0] != '/'
    requires Norm(base + Split(d, '/'), false, []) == end
    ensures NormPath(PathJoin(Join(base, '/'), d)) == PathOf(end)
  {
    SplitUnderDir(base, d);
    NormInside(PathJoin(Join(base, '/'), d), end);
  }

  lemma LinkNorm(base: seq<string>, i: nat, down: seq<string>, slash: bool, d: string)
    requires Clean(base) && i <= |base| && Clean(down)
    requires d == PathOf(Dots(|base| - i) + down) + if slash then "/" else ""
    ensures d != "" && d[0] != '/' && Norm(base + Split(d, '/'), false, []) == base[..i] + down
  {
    var parts := Dots(|base| - i) + down;
    var shown := if parts == [] then ["."] else parts;
    var tail := if slash then [""] else [];
    LinkSteps(|base| - i, down, slash, d);
    NormSteps(base, i, down, shown, tail);
  }

  lemma PlainParts(k: nat, down: seq<string>)
    requires Clean(down)
    ensures forall j :: 0 <= j < k + |down| ==> (Dots(k) + down)[j] != "" && '/' !in (Dots(k) + down)[j]
    ensures forall p <- Dots(k) + down :: '/' !in p
  {
    forall j | 0 <= j < k + |down| ensures (Dots(k) + down)[j] != "" && '/' !in (Dots(k) + down)[j] {
      if j >= k { assert CleanPart(down[j - k]); }
    }
  }

  lemma {:induction false} AnchorSplits(path: string, anchor: string)
    requires '#' !in path && (anchor == "" || anchor[0] == '#')
    ensures SplitAnchor(path + anchor) == (path, anchor)
  {
    if path == "" {
      assert path + anchor == anchor;
    } else {
      assert (path + anchor)[1..] == path[1..] + anchor && path[0] in path && [path[0]] + path[1..] == path;
      AnchorSplits(path[1..], anchor);
    }
  }

  lemma {:induction false} AnchorShape(url: string)
    ensures var (p, a) := SplitAnchor(url); p + a == url && '#' !in p && (a == "" || a[0] == '#')
  {
    if url != "" && url[0] != '#' {
      AnchorShape(url[1..]);
    }
  }

  lemma {:induction false} EncodeKeepsOut(s: string, c: char)
    requires c !in s && c !in "%20"
    ensures c !in EncodeSpaces(s)
  {
    if s != "" {
      EncodeUnfolds(s);
      if "%2520" <= s { EncodeKeepsOut(s[5..], c); }
      EncodeKeepsOut(s[1..], c);
    }
  }

  /** The target as the rewritten link shows it: literal %20 and %2520 below the directory
      shared with the source have turned into spaces. */
  function Seen(base: seq<string>, target: seq<string>): seq<string> {
    var i := CommonLen(base, target);
    target[..i] + SquashAll(target[i..])
  }

  lemma SquashDots()
    ensures Squash(".") == "." && Squash("..") == ".."
  {
    assert "."[1..] == "" && ".."[1..] == ".";
  }

  lemma RelSquash(base: seq<string>, target: seq<string>)
    requires Clean(target)
    ensures var i := CommonLen(base, target);
      Squash(PathOf(RelParts(base, target))) == PathOf(Dots(|base| - i) + SquashAll(target[i..]))
  {
    var i := CommonLen(base, target);
    SquashPath(RelParts(base, target));
    SquashUp(|base| - i, target[i..]);
  }

  lemma SquashPath(ps: seq<string>)
    ensures Squash(PathOf(ps)) == PathOf(SquashAll(ps))
  {
    SquashJoin(ps);
    SquashDots();
  }

  lemma SquashUp(k: nat, down: seq<string>)
    ensures SquashAll(Dots(k) + down) == Dots(k) + SquashAll(down)
  {
    SquashDots();
  }

  lemma NewPathOf(base: seq<string>, name: string, w: seq<string>, target: seq<string>, slash: bool)
    requires Clean(base) && CleanPart(name) && Clean(w) && Clean(target)
    ensures NewPath(PathOf(target), Join(base + [name], '/'), "/" + Join(w, '/'), slash)
         == PathOf(RelParts(base, target)) + if slash then "/" else ""
  {
    var src, cwd, rel := Join(base + [name], '/'), "/" + Join(w, '/'), PathOf(RelParts(base, target));
    assert StartDir(src) == PathOf(base) by { StartDirOf(base, name); }
    assert RelPath(PathOf(target), PathOf(base), cwd) == rel by { RelPathOf(w, base, target); }
    assert rel != "" && rel[|rel| - 1] != '/' by { RelEnds(base, target); }
    NewPathBy(PathOf(target), src, cwd, slash, PathOf(base), rel);
  }

  lemma NewPathBy(target: string, src: string, cwd: string, slash: bool, start: string, rel: string)
    requires StartDir(src) == start && RelPath(target, start, cwd) == rel && rel != "" && rel[|rel| - 1] != '/'
    ensures NewPath(target, src, cwd, slash) == rel + if slash then "/" else ""
  {
    SlashOf(rel, slash);
  }

  lemma SlashOf(rel: string, slash: bool)
    requires rel != "" && rel[|rel| - 1] != '/'
    ensures WithSlash(rel, slash) == rel + if slash then "/" else ""
  {
    assert rel + "" == rel;
  }

  lemma SquashText(base: seq<string>, target: seq<string>, slash: bool, text: string)
    requires Clean(target) && text == PathOf(RelParts(base, target)) + if slash then "/" else ""
    ensures var i := CommonLen(base, target);
      Squash(text) == PathOf(Dots(|base| - i) + SquashAll(target[i..])) + if slash then "/" else ""
  {
    var rel := PathOf(RelParts(base, target));
    RelSquash(base, target);
    if slash {
      SquashConcat(rel, "");
      assert rel + "/" + "" == text && Squash(rel) + "/" + Squash("") == Squash(rel) + "/";
    } else {
      assert text == rel && Squash(rel) + "" == Squash(rel);
    }
  }

  lemma EncodedResolves(base: seq<string>, name: string, target: seq<string>, slash: bool, text: string)
    requires Clean(base) && CleanPart(name) && Clean(target)
    requires text == PathOf(RelParts(base, target)) + if slash then "/" else ""
    ensures ResolveTarget(Join(base + [name], '/'), EncodeSpaces(text)) == PathOf(Seen(base, target))
  {
    DecodeEncode(text);
    SquashText(base, target, slash, text);
    SquashedResolves(base, name, target, slash, Squash(text));
  }

  lemma SquashedResolves(base: seq<string>, name: string, target: seq<string>, slash: bool, d: string)
    requires Clean(base) && CleanPart(name) && Clean(target)
    requires var i := CommonLen(base, target);
      d == PathOf(Dots(|base| - i) + SquashAll(target[i..])) + if slash then "/" else ""
    ensures NormPath(PathJoin(DirName(Join(base + [name], '/')), d)) == PathOf(Seen(base, target))
  {
    var i := CommonLen(base, target);
    SquashClean(target[i..]);
    ResolveParts(base, name, i, SquashAll(target[i..]), slash, d);
  }

  lemma StartDirOf(base: seq<string>, name: string)
    requires Clean(base) && CleanPart(name)
    ensures StartDir(Join(base + [name], '/')) == PathOf(base)
  {
    DirNameOf(base, name);
    if base != [] {
      CleanPathSplits(base);
    }
  }

  lemma RelEnds(base: seq<string>, target: seq<string>)
    requires Clean(target)
    ensures var rel := PathOf(RelParts(base, target)); rel != "" && rel[|rel| - 1] != '/'
  {
    var parts := RelParts(base, target);
    if parts != [] {
      RelPartsPlain(base, target);
      JoinEnds(parts, '/');
    }
  }

  lemma SeenIsTarget(base: seq<string>, target: seq<string>)
    requires Clean(target)
    ensures PathOf(Seen(base, target)) == PathOf(target)
            <==> forall c <- target[CommonLen(base, target)..] :: Plain(c)
  {
    var i := CommonLen(base, target);
    SquashAllFixed(target[i..]);
    SeenFixed(target, i);
    SeenClean(target, i);
    PathOfInjective(target[..i] + SquashAll(target[i..]), target);
  }

  lemma SeenFixed(target: seq<string>, i: nat)
    requires i <= |target|
    ensures target[..i] + SquashAll(target[i..]) == target <==> SquashAll(target[i..]) == target[i..]
  {
    var seen := target[..i] + SquashAll(target[i..]);
    assert target == target[..i] + target[i..] && seen[i..] == SquashAll(target[i..]);
  }

  lemma SeenClean(target: seq<string>, i: nat)
    requires Clean(target) && i <= |target|
    ensures Clean(target[..i] + SquashAll(target[i..]))
  {
    SquashClean(target[i..]);
  }

  lemma SquashAllFixed(ps: seq<string>)
    ensures SquashAll(ps) == ps <==> forall p <- ps :: Plain(p)
  {
    var qs := SquashAll(ps);
    forall k | 0 <= k < |ps| ensures Plain(ps[k]) <==> qs[k] == ps[k] {
      SquashFixes(ps[k]);
    }
    if forall p <- ps :: Plain(p) {
      assert qs == ps;
    }
  }

  lemma PathOfInjective(a: seq<string>, b: seq<string>)
    requires Clean(a) && Clean(b)
    ensures PathOf(a) == PathOf(b) <==> a == b
  {
    PathOfSplits(a);
    PathOfSplits(b);
  }

  // ---- targets stay inside ---------------------------------------------------------------

  ghost predicate InsidePath(p: string) {
    exists cs :: Clean(cs) && p == PathOf(cs)
  }

  /** A move table whose destinations are inside the repository keeps every inside target inside. */
  lemma RemapStaysInside(cs: seq<string>, files: FileMoves, dirs: DirMoves)
    requires Clean(cs)
    requires forall f :: f in files ==> InsidePath(files[f])
    requires forall e <- dirs :: InsidePath(e.1) && e.1 != "."
    ensures InsidePath(RemapTarget(PathOf(cs), files, dirs))
  {
    var t := PathOf(cs);
    if t !in files {
      BestDirMatches(t, dirs);
      var b := BestDir(t, dirs);
      if b >= 0 {
        assert dirs[b] in dirs;
        var ds :| Clean(ds) && dirs[b].1 == PathOf(ds);
        SwapPrefix(cs, dirs[b].0, ds);
      }
    }
  }

  lemma SwapPrefix(cs: seq<string>, src: string, ds: seq<string>)
    requires Clean(cs) && Clean(ds) && ds != [] && Under(PathOf(cs), src)
    ensures InsidePath(PathOf(ds) + PathOf(cs)[|src|..])
  {
    var t, dst := PathOf(cs), PathOf(ds);
    if t == src {
      assert dst + t[|src|..] == dst;
    } else {
      var rest := t[|src| + 1..];
      assert t[|src|] == '/' && t == src + ['/'] + rest;
      var r := RestParts(cs, src, rest);
      JoinConcat(ds, r, '/');
      assert dst + t[|src|..] == dst + ['/'] + rest;
      assert Clean(ds + r);
    }
  }

  lemma RestParts(cs: seq<string>, src: string, rest: string) returns (r: seq<string>)
    requires Clean(cs) && PathOf(cs) == src + ['/'] + rest
    ensures Clean(r) && r != [] && Join(r, '/') == rest
  {
    r := Split(rest, '/');
    SplitParts(rest, '/');
    SplitConcat(src, rest, '/');
    PathOfSplits(cs);
    var a := Split(src, '/');
    assert PathOf(cs)[|src|] == '/';
    assert cs == a + r;
    forall k | 0 <= k < |r| ensures CleanPart(r[k]) {
      assert r[k] == cs[|a| + k];
    }
  }

  /** The script's own directory table meets the premise above. */
  lemma ScriptTableInside(k: nat)
    requires k < |DIR_MOVES|
    ensures InsidePath(DIR_MOVES[k].1) && DIR_MOVES[k].1 != "."
  {
    if k == 0 { Named("01 - Design", "dev-guide"); }
    if k == 1 { Named("02 - Implementation", "decisions"); }
    if k == 2 { Named("02 - Implementation", "ops"); }
    if k == 3 { Named("04 - Reference", "atoms"); }
    if k == 4 { Named("04 - Reference", "kernel"); }
    if k == 5 { Named("05 - Standards", "rfcs"); }
    if k >= 6 { Blueprint(); }
  }

  /** No two sources of the script's table lie on one path. */
  lemma ScriptSourcesApart(j: nat, k: nat) returns (i: nat)
    requires j < |DIR_MOVES| && k < |DIR_MOVES| && j != k
    ensures i < |DIR_MOVES[j].0| && i < |DIR_MOVES[k].0| && DIR_MOVES[j].0[i] != DIR_MOVES[k].0[i]
  {
    i := if j <= 1 && k <= 1 then 7 else 5;
  }

  lemma NotUnderBoth(j: nat, k: nat, target: string)
    requires j < |DIR_MOVES| && k < |DIR_MOVES| && j != k && Under(target, DIR_MOVES[k].0)
    ensures !Under(target, DIR_MOVES[j].0)
  {
    var i := ScriptSourcesApart(j, k);
    assert target[i] == DIR_MOVES[k].0[i];
    UnderIsPrefix(target, DIR_MOVES[j].0);
  }

  lemma UnderIsPrefix(target: string, src: string)
    ensures Under(target, src) ==> src <= target
  {
  }

  /** Every directory of the script's table moves with everything in it: what stands below the directory is kept. */
  lemma ScriptKeepsSubpath(k: nat, rest: string)
    requires k < |DIR_MOVES|
    ensures MapDir(DIR_MOVES[k].0 + "/" + rest, DIR_MOVES) == DIR_MOVES[k].1 + "/" + rest
    ensures MapDir(DIR_MOVES[k].0, DIR_MOVES) == DIR_MOVES[k].1
  {
    var src, dst := DIR_MOVES[k].0, DIR_MOVES[k].1;
    ScriptRule(k, src + "/" + rest);
    assert (src + "/" + rest)[|src|..] == "/" + rest;
    ScriptRule(k, src);
    assert dst + src[|src|..] == dst;
  }

  lemma ScriptRule(k: nat, target: string)
    requires k < |DIR_MOVES| && Under(target, DIR_MOVES[k].0)
    ensures MapDir(target, DIR_MOVES) == DIR_MOVES[k].1 + target[|DIR_MOVES[k].0|..]
  {
    forall e | e in DIR_MOVES && Under(target, e.0) ensures e == DIR_MOVES[k] {
      var j :| 0 <= j < |DIR_MOVES| && DIR_MOVES[j] == e;
      if j != k {
        NotUnderBoth(j, k, target);
      }
    }
    MapDirIs(target, DIR_MOVES, DIR_MOVES[k]);
  }

  /** For example, whatever stood in `docs/atoms`. */
  lemma AtomsMove(rest: string)
    ensures MapDir("docs/atoms/" + rest, DIR_MOVES) == "docs/04 - Reference/atoms/" + rest
  {
    ScriptKeepsSubpath(3, rest);
    AtomsRule();
  }

  lemma AtomsRule()
    ensures DIR_MOVES[3].0 + "/" == "docs/atoms/" && DIR_MOVES[3].1 + "/" == "docs/04 - Reference/atoms/"
  {
    assert DIR_MOVES[3] == ("docs/atoms", Home("04 - Reference", "atoms"));
  }

  lemma Blueprint()
    ensures InsidePath("docs/03 - Blueprint")
  {
    var cs := ["docs", "03 - Blueprint"];
    assert cs[1..] == ["03 - Blueprint"];
    assert PathOf(cs) == "docs" + ['/'] + "03 - Blueprint";
    assert PathOf(cs) == "docs/03 - Blueprint";
    assert CleanPart("docs") && CleanPart("03 - Blueprint");
    assert Clean(cs);
  }

  lemma Named(folder: string, name: string)
    requires CleanPart(folder) && CleanPart(name)
    ensures InsidePath(Home(folder, name)) && Home(folder, name) != "."
  {
    var cs := ["docs", folder, name];
    assert cs[1..] == [folder, name] && cs[1..][1..] == [name];
    assert Join([folder, name], '/') == folder + ['/'] + name;
    assert PathOf(cs) == "docs" + ['/'] + (folder + ['/'] + name);
    assert PathOf(cs) == Home(folder, name);
    assert Clean(cs);
  }
}
