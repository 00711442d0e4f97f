/** Strings: splitting, joining, replacing. */
module Text {
  predicate EndsWith(s: string, suffix: string) {
    |suffix| <= |s| && s[|s| - |suffix|..] == suffix
  }

  lemma Associates(a: string, b: string, c: string)
    ensures a + (b + c) == (a + b) + c
  {
  }

  /** A line without one trailing carriage return. */
  function StripCR(line: string): string {
    if line != "" && line[|line| - 1] == '\r' then line[..|line| - 1] else line
  }

  /** The first place where `c` occurs, or -1. */
  function IndexOf(s: string, c: char): (i: int)
    ensures -1 <= i < |s|
  {
    if s == "" then -1
    else if s[0] == c then 0
    else var r := IndexOf(s[1..], c); if r < 0 then -1 else r + 1
  }

  /** `s.split(c)`: always at least one part. */
  function Split(s: string, c: char): (ps: seq<string>)
    ensures |ps| >= 1
  {
    if s == "" then [""]
    else
      var r := Split(s[1..], c);
      if s[0] == c then [""] + r else [[s[0]] + r[0]] + r[1..]
  }

  /** `c.join(ps)`. */
  function Join(ps: seq<string>, c: char): string {
    if ps == [] then "" else if |ps| == 1 then ps[0] else ps[0] + [c] + Join(ps[1..], c)
  }

  lemma {:induction false} SplitNoSep(s: string, c: char)
    requires c !in s
    ensures Split(s, c) == [s]
  {
    if s != "" {
      SplitNoSep(s[1..], c);
      assert [s[0]] + s[1..] == s;
    }
  }

  lemma {:induction false} SplitConcat(a: string, b: string, c: char)
    ensures Split(a + [c] + b, c) == Split(a, c) + Split(b, c)
  {
    if a == "" {
      assert a + [c] + b == [c] + b && ([c] + b)[1..] == b;
    } else {
      assert (a + [c] + b)[1..] == a[1..] + [c] + b;
      SplitConcat(a[1..], b, c);
    }
  }

  lemma {:induction false} SplitJoin(ps: seq<string>, c: char)
    requires ps != [] && forall p <- ps :: c !in p
    ensures Split(Join(ps, c), c) == ps
  {
    SplitNoSep(ps[0], c);
    if |ps| > 1 {
      SplitConcat(ps[0], Join(ps[1..], c), c);
      SplitJoin(ps[1..], c);
    }
  }

  lemma {:induction false} SplitParts(s: string, c: char)
    ensures forall p <- Split(s, c) :: c !in p
    ensures Join(Split(s, c), c) == s
  {
    if s != "" {
      SplitParts(s[1..], c);
      var r := Split(s[1..], c);
      var ps := Split(s, c);
      if s[0] == c {
        assert ps[1..] == r;
      } else if |r| > 1 {
        assert ps[1..] == r[1..];
      }
    }
  }

  /** The part before the first separator. */
  lemma FirstPartIs(s: string, c: char, p: string)
    ensures Split(s, c)[0] == p <==> c !in p && (s == p || p + [c] <= s)
  {
    var ps := Split(s, c);
    SplitParts(s, c);
    assert ps[0] in ps && (|ps| > 1 ==> s == ps[0] + [c] + Join(ps[1..], c));
    if c !in p {
      SplitNoSep(p, c);
      if p + [c] <= s {
        assert s == p + [c] + s[|p| + 1..];
        SplitConcat(p, s[|p| + 1..], c);
      }
    }
  }

  lemma {:induction false} JoinConcat(ps: seq<string>, qs: seq<string>, c: char)
    requires ps != [] && qs != []
    ensures Join(ps + qs, c) == Join(ps, c) + [c] + Join(qs, c)
  {
    if |ps| == 1 {
      assert (ps + qs)[1..] == qs;
    } else {
      assert (ps + qs)[1..] == ps[1..] + qs;
      JoinConcat(ps[1..], qs, c);
    }
  }

  lemma {:induction false} JoinEnds(ps: seq<string>, c: char)
    requires ps != [] && forall i :: 0 <= i < |ps| ==> ps[i] != "" && c !in ps[i]
    ensures Join(ps, c) != "" && Join(ps, c)[0] != c && Join(ps, c)[|Join(ps, c)| - 1] != c
    ensures Join(ps, c)[0] == ps[0][0]
  {
    assert ps[0] != "" && c !in ps[0] && ps[0][0] in ps[0] && ps[0][|ps[0]| - 1] in ps[0];
    if |ps| > 1 {
      JoinEnds(ps[1..], c);
    }
  }

  lemma {:induction false} JoinChars(ps: seq<string>, c: char, d: char)
    requires c != d
    ensures d in Join(ps, c) <==> exists p :: p in ps && d in p
  {
    if ps != [] {
      if |ps| > 1 {
        JoinChars(ps[1..], c, d);
        assert d in Join(ps, c) <==> d in ps[0] || d in Join(ps[1..], c);
        assert forall p :: p in ps <==> p == ps[0] || p in ps[1..];
      } else {
        assert forall p :: p in ps <==> p == ps[0];
      }
    }
  }

  /** Does `pat` occur in `s`? */
  predicate Has(s: string, pat: string) {
    |s| >= |pat| && (pat <= s || (s != "" && Has(s[1..], pat)))
  }

  /** `s.replace(pat, rep)`: leftmost, non-overlapping. */
  function Replace(s: string, pat: string, rep: string): string
    requires pat != ""
  {
    if s == "" then ""
    else if pat <= s then rep + Replace(s[|pat|..], pat, rep)
    else [s[0]] + Replace(s[1..], pat, rep)
  }

  lemma {:induction false} ReplaceNothing(s: string, pat: string, rep: string)
    requires pat != "" && !Has(s, pat)
    ensures Replace(s, pat, rep) == s
  {
    if s != "" {
      ReplaceNothing(s[1..], pat, rep);
    }
  }
}
