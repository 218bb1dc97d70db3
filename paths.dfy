/**
 * The part of Node's POSIX `path` module the transforms use (normalize, relative,
 * dirname, basename, join), modelled on the segments between '/' separators, and
 * the relative-path helper `getTSStyleRelativePath` built on it.
 *
 * `path.relative` resolves its arguments against the process's working directory;
 * this model takes that directory to be "/", so a relative argument is resolved as
 * if it were rooted.
 */
module Paths {
  import opened Text

  const Separator: char := '/'
  const Backslash: char := '\\'

  predicate IsAbsolute(p: string) {
    p != "" && p[0] == Separator
  }

  // ---------------------------------------------------------------------------
  // Segments

  /** A character put in front of a split: a separator starts a new piece, any other joins the first. */
  function Cons(c: char, segs: seq<string>): (r: seq<string>)
    requires |segs| >= 1
    ensures |r| >= 1
  {
    if c == Separator then [""] + segs else [[c] + segs[0]] + segs[1..]
  }

  /** `p.split("/")`: the text between separators, empty pieces included. */
  function Split(p: string): (segs: seq<string>)
    ensures |segs| >= 1
  {
    if p == "" then [""] else Cons(p[0], Split(p[1..]))
  }

  /** Every character of a piece of `Split(p)` is a character of `p` other than a separator. */
  lemma {:induction false} SplitPieces(p: string, seg: string, c: char)
    requires seg in Split(p) && c in seg
    ensures c in p && c != Separator
  {
    if p != "" {
      var rest := Split(p[1..]);
      if p[0] != Separator && seg == [p[0]] + rest[0] {
        if c != p[0] {
          assert c in rest[0];
          SplitPieces(p[1..], rest[0], c);
        }
      } else {
        assert seg in rest;
        SplitPieces(p[1..], seg, c);
      }
    }
  }

  /** No piece of a split holds a separator. */
  lemma SplitNoSeparators(p: string)
    ensures NoSeparators(Split(p))
  {
    forall i | 0 <= i < |Split(p)|
      ensures Separator !in Split(p)[i]
    {
      if Separator in Split(p)[i] {
        SplitPieces(p, Split(p)[i], Separator);
      }
    }
  }

  /** A path without separators is one piece. */
  lemma {:induction false} SplitNone(p: string)
    requires Separator !in p
    ensures Split(p) == [p]
  {
    if p != "" {
      SplitNone(p[1..]);
      assert [p[0]] + p[1..] == p;
    }
  }

  /** Segments joined with '/'. */
  function Render(segs: seq<string>): string {
    JoinWith(segs, [Separator])
  }

  predicate NoSeparators(segs: seq<string>) {
    forall i :: 0 <= i < |segs| ==> Separator !in segs[i]
  }

  lemma ConsAppend(c: char, r: seq<string>, s: seq<string>)
    requires |r| >= 1
    ensures Cons(c, r + s) == Cons(c, r) + s
  {
    if c != Separator {
      assert (r + s)[0] == r[0];
      assert (r + s)[1..] == r[1..] + s;
    }
  }

  lemma {:induction false} SplitAppend(a: string, b: string)
    ensures Split(a + [Separator] + b) == Split(a) + Split(b)
    decreases |a|
  {
    var p := a + [Separator] + b;
    if a == "" {
      assert p[0] == Separator && p[1..] == b;
    } else {
      var tail := a[1..] + [Separator] + b;
      assert p[0] == a[0] && p[1..] == tail;
      SplitAppend(a[1..], b);
      ConsAppend(a[0], Split(a[1..]), Split(b));
    }
  }

  lemma {:induction false} SplitRender(segs: seq<string>)
    requires |segs| >= 1 && NoSeparators(segs)
    ensures Split(Render(segs)) == segs
  {
    if |segs| > 1 {
      var rest := Render(segs[1..]);
      calc {
        Split(Render(segs));
        Split(segs[0] + [Separator] + rest);
        { SplitAppend(segs[0], rest); }
        Split(segs[0]) + Split(rest);
        { SplitNone(segs[0]); SplitRender(segs[1..]); }
        [segs[0]] + segs[1..];
        segs;
      }
    } else {
      assert Render(segs) == segs[0];
      SplitNone(segs[0]);
    }
  }

  // ---------------------------------------------------------------------------
  // Normalisation

  /** A segment that `normalize` keeps as it is. */
  predicate Plain(seg: string) {
    seg != "" && seg != "." && seg != ".." && Separator !in seg
  }

  /**
   * One step of Node's `normalizeString`: empty and "." segments vanish, ".." drops the
   * last kept segment unless that is itself "..", and above the root a ".." is kept only
   * when `allowAboveRoot` (that is, when the path is relative).
   */
  function Step(acc: seq<string>, seg: string, allowAboveRoot: bool): seq<string> {
    if seg == "" || seg == "." then acc
    else if seg == ".." then
      if |acc| > 0 && acc[|acc| - 1] != ".." then acc[..|acc| - 1]
      else if allowAboveRoot then acc + [".."]
      else acc
    else acc + [seg]
  }

  function Fold(acc: seq<string>, segs: seq<string>, allowAboveRoot: bool): seq<string>
    decreases |segs|
  {
    if segs == [] then acc else Fold(Step(acc, segs[0], allowAboveRoot), segs[1..], allowAboveRoot)
  }

  function NormalizeSegments(segs: seq<string>, allowAboveRoot: bool): seq<string> {
    Fold([], segs, allowAboveRoot)
  }

  /**
   * The shape `normalizeString` produces: no empty, "." or separator-holding segment,
   * and ".." only in a leading run, and only when the path may climb above its root.
   */
  predicate NormalForm(segs: seq<string>, allowAboveRoot: bool) {
    && (forall i :: 0 <= i < |segs| ==> segs[i] != "" && segs[i] != "." && Separator !in segs[i])
    && (forall i :: 0 <= i < |segs| && segs[i] == ".." ==>
          allowAboveRoot && forall j :: 0 <= j < i ==> segs[j] == "..")
  }

  lemma {:induction false} FoldAppend(acc: seq<string>, a: seq<string>, b: seq<string>, allow: bool)
    ensures Fold(acc, a + b, allow) == Fold(Fold(acc, a, allow), b, allow)
    decreases |a|
  {
    if a != [] {
      assert (a + b)[0] == a[0] && (a + b)[1..] == a[1..] + b;
      FoldAppend(Step(acc, a[0], allow), a[1..], b, allow);
    } else {
      assert a + b == b;
    }
  }

  lemma {:induction false} FoldKeepsNormalForm(acc: seq<string>, segs: seq<string>, allow: bool)
    requires NormalForm(acc, allow) && NoSeparators(segs)
    ensures NormalForm(Fold(acc, segs, allow), allow)
    decreases |segs|
  {
    if segs != [] {
      var next := Step(acc, segs[0], allow);
      assert NormalForm(next, allow) by {
        if segs[0] == ".." && !(|acc| > 0 && acc[|acc| - 1] != "..") && allow {
          assert forall j :: 0 <= j < |acc| ==> acc[j] == ".." by {
            if |acc| > 0 {
              assert acc[|acc| - 1] == "..";
            }
          }
        }
      }
      FoldKeepsNormalForm(next, segs[1..], allow);
    }
  }

  lemma {:induction false} FoldFixpoint(acc: seq<string>, segs: seq<string>, allow: bool)
    requires NormalForm(acc + segs, allow)
    ensures Fold(acc, segs, allow) == acc + segs
    decreases |segs|
  {
    if segs != [] {
      var s := acc + segs;
      assert s[|acc|] == segs[0];
      if segs[0] == ".." {
        assert allow;
        if |acc| > 0 {
          assert s[|acc| - 1] == acc[|acc| - 1];
        }
      }
      assert Step(acc, segs[0], allow) == acc + [segs[0]];
      assert (acc + [segs[0]]) + segs[1..] == s;
      FoldFixpoint(acc + [segs[0]], segs[1..], allow);
    } else {
      assert acc + segs == acc;
    }
  }

  /** `n` copies of `s`. */
  function Repeat(s: string, n: nat): (r: seq<string>)
    ensures |r| == n && forall i :: 0 <= i < n ==> r[i] == s
  {
    if n == 0 then [] else [s] + Repeat(s, n - 1)
  }

  /** Each ".." removes one trailing plain segment. */
  lemma {:induction false} FoldClimbs(f: seq<string>, m: nat, allow: bool)
    requires NormalForm(f, false) && m <= |f|
    ensures Fold(f, Repeat("..", m), allow) == f[..|f| - m]
    decreases m
  {
    if m > 0 {
      assert f[|f| - 1] != "..";
      assert Step(f, "..", allow) == f[..|f| - 1];
      assert Repeat("..", m)[1..] == Repeat("..", m - 1);
      FoldClimbs(f[..|f| - 1], m - 1, allow);
      assert f[..|f| - 1][..|f| - 1 - (m - 1)] == f[..|f| - m];
    } else {
      assert f[..|f|] == f;
    }
  }

  /** Climbing out of a normal `f` back to its first `k` segments. */
  lemma FoldClimbsTo(f: seq<string>, k: nat)
    requires NormalForm(f, false) && k <= |f|
    ensures Fold(f, Repeat("..", |f| - k), false) == f[..k]
  {
    FoldClimbs(f, |f| - k, false);
    assert f[..|f| - (|f| - k)] == f[..k];
  }

  /** Every segment `Fold` keeps is one of its inputs or "..". */
  lemma {:induction false} FoldSegmentsFromInput(acc: seq<string>, segs: seq<string>, allow: bool, x: string)
    requires x in Fold(acc, segs, allow)
    ensures x in acc || x in segs || x == ".."
    decreases |segs|
  {
    if segs != [] {
      FoldSegmentsFromInput(Step(acc, segs[0], allow), segs[1..], allow, x);
      if x in Step(acc, segs[0], allow) && !(x == "..") && !(x == segs[0]) {
        assert x in acc;
      }
    }
  }

  /** Rendering non-empty segments gives the empty string only for no segments at all. */
  lemma {:induction false} RenderEmpty(segs: seq<string>)
    requires forall i :: 0 <= i < |segs| ==> segs[i] != ""
    ensures Render(segs) == "" <==> segs == []
  {
    if |segs| > 1 {
      assert Render(segs) == segs[0] + [Separator] + Render(segs[1..]);
    }
  }

  /** First and last character of a rendering of non-empty, separator-free segments. */
  lemma {:induction false} RenderEnds(segs: seq<string>)
    requires |segs| >= 1 && forall i :: 0 <= i < |segs| ==> segs[i] != "" && Separator !in segs[i]
    ensures var r := Render(segs); r != "" && r[0] != Separator && r[|r| - 1] != Separator
  {
    var r := Render(segs);
    if |segs| > 1 {
      assert r == segs[0] + [Separator] + Render(segs[1..]);
      RenderEnds(segs[1..]);
      assert r[0] == segs[0][0];
      assert segs[0][0] in segs[0];
      var tail := Render(segs[1..]);
      assert r[|r| - 1] == tail[|tail| - 1];
    } else {
      assert r == segs[0];
      assert r[0] in segs[0] && r[|r| - 1] in segs[0];
    }
  }

  /**
   * Node's `path.posix.normalize`. It is `Normalized(p, 0)` (see `NormalizeDef`), reached
   * through one recursive step so that the solver does not expand the definition at every
   * normalised path, only where a proof asks for it.
   */
  function Normalize(p: string): (r: string)
    ensures r != ""
  {
    Normalized(p, 1)
  }

  /** The definition of `Normalize` when `delay` is 0; a positive `delay` only defers it. */
  function Normalized(p: string, delay: nat): (r: string)
    ensures r != ""
  {
    if delay > 0 then Normalized(p, delay - 1)
    else if p == "" then "."
    else
      var isAbsolute := p[0] == Separator;
      var trailingSeparator := p[|p| - 1] == Separator;
      var body := Render(NormalizeSegments(Split(p), !isAbsolute));
      if body == "" then
        (if isAbsolute then "/" else if trailingSeparator then "./" else ".")
      else
        (if isAbsolute then "/" else "") + body + (if trailingSeparator then "/" else "")
  }

  lemma NormalizeDef(p: string)
    ensures Normalize(p) == Normalized(p, 0)
  {
  }

  /**
   * The segments `Normalize` renders, and how the result is laid out around them.
   */
  lemma {:induction false} NormalizeShape(p: string)
    requires p != ""
    ensures var segs := NormalizeSegments(Split(p), !IsAbsolute(p));
      && NormalForm(segs, !IsAbsolute(p))
      && (segs == [] ==> Normalize(p) in {"/", "./", "."})
      && (segs != [] ==>
            Normalize(p) == (if IsAbsolute(p) then "/" else "") + Render(segs) + (if p[|p| - 1] == Separator then "/" else ""))
  {
    var segs := NormalizeSegments(Split(p), !IsAbsolute(p));
    NormalizeDef(p);
    SplitNoSeparators(p);
    FoldKeepsNormalForm([], Split(p), !IsAbsolute(p));
    RenderEmpty(segs);
  }

  lemma SplitEmpty()
    ensures Split("") == [""]
  {
  }

  /** A leading separator adds one empty piece in front. */
  lemma SplitLead(x: string)
    ensures Split("/" + x) == [""] + Split(x)
  {
    assert "/" + x == "" + [Separator] + x;
    SplitAppend("", x);
    SplitEmpty();
  }

  /** A trailing separator adds one empty piece at the end. */
  lemma SplitTrail(x: string)
    ensures Split(x + "/") == Split(x) + [""]
  {
    assert x + "/" == x + [Separator] + "";
    SplitAppend(x, "");
    SplitEmpty();
  }

  /** Split of a laid-out normalised path: the segments, framed by empty pieces for the separators. */
  lemma {:induction false} SplitFramed(segs: seq<string>, lead: bool, trail: bool)
    requires |segs| >= 1 && NoSeparators(segs)
    ensures Split((if lead then "/" else "") + Render(segs) + (if trail then "/" else ""))
         == (if lead then [""] else []) + segs + (if trail then [""] else [])
  {
    var body := Render(segs);
    SplitRender(segs);
    var withTrail := body + (if trail then "/" else "");
    if trail {
      SplitTrail(body);
    } else {
      assert withTrail == body;
    }
    assert Split(withTrail) == segs + (if trail then [""] else []);
    if lead {
      assert (if lead then "/" else "") + body + (if trail then "/" else "") == "/" + withTrail;
      SplitLead(withTrail);
    } else {
      assert (if lead then "/" else "") + body + (if trail then "/" else "") == withTrail;
    }
  }

  /** A path laid out from segments in normal form. */
  function LaidOut(segs: seq<string>, lead: bool, trail: bool): string {
    (if lead then "/" else "") + Render(segs) + (if trail then "/" else "")
  }

  /** A laid-out normal path is its own normalisation. */
  lemma {:induction false} NormalizeLaidOut(segs: seq<string>, lead: bool, trail: bool)
    requires |segs| >= 1 && NormalForm(segs, !lead)
    ensures Normalize(LaidOut(segs, lead, trail)) == LaidOut(segs, lead, trail)
  {
    var q := LaidOut(segs, lead, trail);
    NormalizeDef(q);
    var body := Render(segs);
    RenderEnds(segs);
    assert q != "";
    assert q[0] == Separator <==> lead;
    assert q[|q| - 1] == Separator <==> trail;
    SplitFramed(segs, lead, trail);
    var front: seq<string> := if lead then [""] else [];
    var back: seq<string> := if trail then [""] else [];
    assert Split(q) == front + segs + back;
    FoldAppend([], front + segs, back, !lead);
    FoldAppend([], front, segs, !lead);
    assert Fold([], front, !lead) == [];
    FoldFixpoint([], segs, !lead);
    assert [] + segs == segs;
    assert Fold(segs, back, !lead) == segs;
    assert NormalizeSegments(Split(q), !IsAbsolute(q)) == segs;
  }

  lemma NormalizeRoot()
    ensures Normalize("/") == "/" && Normalize("./") == "./" && Normalize(".") == "."
  {
    SplitLead("");
    SplitTrail(".");
    assert "/" == "/" + "" && "./" == "." + "/";
    SplitNone(".");
  }

  /** Normalising twice is the same as normalising once. */
  lemma {:induction false} NormalizeIdempotent(p: string)
    ensures Normalize(Normalize(p)) == Normalize(p)
  {
    NormalizeRoot();
    if p != "" {
      var segs := NormalizeSegments(Split(p), !IsAbsolute(p));
      NormalizeShape(p);
      if segs != [] {
        NormalizeLaidOut(segs, IsAbsolute(p), p[|p| - 1] == Separator);
      }
    }
  }

  lemma NormalizeDotIsDot()
    ensures Normalize(".") == "."
  {
    NormalizeRoot();
  }

  // ---------------------------------------------------------------------------
  // resolve, relative, dirname, basename, join

  /** The segments of `path.resolve(p)` with the working directory taken as "/". */
  function Resolve(p: string): (segs: seq<string>)
    ensures NormalForm(segs, false)
  {
    SplitNoSeparators(p);
    FoldKeepsNormalForm([], Split(p), false);
    NormalizeSegments(Split(p), false)
  }

  /** Resolving a normalised absolute path gives the same segments as resolving the path. */
  lemma {:induction false} ResolveNormalize(p: string)
    requires IsAbsolute(p)
    ensures Resolve(Normalize(p)) == Resolve(p)
  {
    var segs := NormalizeSegments(Split(p), false);
    NormalizeShape(p);
    var q := Normalize(p);
    if segs == [] {
      if q == "/" {
        assert Split(q) == ["", ""] by { SplitAppend("", ""); assert q == "" + [Separator] + ""; }
      }
    } else {
      var trail := p[|p| - 1] == Separator;
      SplitFramed(segs, true, trail);
      FoldAppend([], [""] + segs, (if trail then [""] else []), false);
      FoldAppend([], [""], segs, false);
      FoldFixpoint([], segs, false);
      assert [] + segs == segs;
    }
  }

  /** Length of the longest common prefix of two segment lists. */
  function CommonPrefixLength(a: seq<string>, b: seq<string>): (k: nat)
    ensures k <= |a| && k <= |b| && a[..k] == b[..k]
    ensures k < |a| && k < |b| ==> a[k] != b[k]
  {
    if a == [] || b == [] || a[0] != b[0] then 0
    else
      var k := CommonPrefixLength(a[1..], b[1..]);
      assert a[..k + 1] == [a[0]] + a[1..][..k];
      assert b[..k + 1] == [b[0]] + b[1..][..k];
      k + 1
  }

  /** The segments `Relative` renders: one ".." per segment of `from` past the common prefix, then the rest of `to`. */
  function RelativeSegments(f: seq<string>, t: seq<string>): seq<string> {
    var k := CommonPrefixLength(f, t);
    Repeat("..", |f| - k) + t[k..]
  }

  /** Node's `path.posix.relative`: `Related(from, to, 0)`, deferred like `Normalize`. */
  function Relative(from: string, to: string): string {
    Related(from, to, 1)
  }

  /** The definition of `Relative` when `delay` is 0; a positive `delay` only defers it. */
  function Related(from: string, to: string, delay: nat): string {
    if delay > 0 then Related(from, to, delay - 1)
    else if from == to then ""
    else
      var f := Resolve(from);
      var t := Resolve(to);
      if f == t then "" else Render(RelativeSegments(f, t))
  }

  lemma RelativeDef(from: string, to: string)
    ensures Relative(from, to) == Related(from, to, 0)
  {
  }

  /** Scan used by `Dirname`: the index of the separator that ends the directory part, or -1. */
  function DirnameEnd(p: string, i: int, matchedSlash: bool): (end: int)
    requires i < |p|
    decreases i
    ensures end == -1 || 1 <= end <= i
  {
    if i < 1 then -1
    else if p[i] == Separator then (if !matchedSlash then i else DirnameEnd(p, i - 1, matchedSlash))
    else DirnameEnd(p, i - 1, false)
  }

  /** Node's `path.posix.dirname`. */
  function Dirname(p: string): (r: string)
    ensures r != ""
    ensures IsAbsolute(p) ==> IsAbsolute(r)
  {
    if p == "" then "."
    else
      var hasRoot := p[0] == Separator;
      var end := DirnameEnd(p, |p| - 1, true);
      if end == -1 then (if hasRoot then "/" else ".")
      else if hasRoot && end == 1 then "//"
      else p[..end]
  }

  /** Index one past the last non-separator character of `p[..i]`, or -1 when there is none. */
  function BasenameEnd(p: string, i: nat): (end: int)
    requires i <= |p|
    ensures end == -1 || 1 <= end <= i
  {
    if i == 0 then -1 else if p[i - 1] != Separator then i else BasenameEnd(p, i - 1)
  }

  /** Index just after the last separator in `p[..i]`, or 0 when there is none. */
  function BasenameStart(p: string, i: nat): (start: nat)
    requires i <= |p|
    ensures start <= i
    ensures forall j :: start <= j < i ==> p[j] != Separator
  {
    if i == 0 then 0 else if p[i - 1] == Separator then i else BasenameStart(p, i - 1)
  }

  /** Node's `path.posix.basename` without an extension argument. */
  function Basename(p: string): (r: string)
    ensures Separator !in r
  {
    var end := BasenameEnd(p, |p|);
    if end == -1 then "" else p[BasenameStart(p, end)..end]
  }

  /** Node's `path.posix.join` of two arguments: the non-empty ones joined by '/', then normalised. */
  function Join(a: string, b: string): (r: string)
    ensures r != ""
  {
    if a == "" && b == "" then "."
    else Normalize(if a == "" then b else if b == "" then a else a + [Separator] + b)
  }

  // ---------------------------------------------------------------------------
  // getTSStyleRelativePath (src/transforms/pathUtil.ts, copied in stripNamespaces.ts)

  /**
   * The path from the directory of `from` to `to`, normalised, with "./" in front when it
   * does not already start with ".", and every backslash turned into '/'.
   */
  function TsStyleRelativePath(from: string, to: string): (r: string)
    ensures StartsWith(r, ".")
    ensures Backslash !in r
  {
    TsStyled(from, to, 1)
  }

  /** The definition of `TsStyleRelativePath` when `delay` is 0; a positive `delay` only defers it. */
  function TsStyled(from: string, to: string, delay: nat): (r: string)
    ensures StartsWith(r, ".")
    ensures Backslash !in r
  {
    if delay > 0 then TsStyled(from, to, delay - 1)
    else
      var result := Normalize(Relative(Dirname(from), to));
      var prefixed := if !StartsWith(result, ".") then "./" + result else result;
      ReplaceAll(prefixed, Backslash, Separator)
  }

  lemma TsStyleDef(from: string, to: string)
    ensures TsStyleRelativePath(from, to) == TsStyled(from, to, 0)
  {
  }

  /** When the normalised relative path does not start with ".", the result is "./" in front of it. */
  lemma TsStyleRelativePathPrefixed(from: string, to: string)
    requires !StartsWith(Normalize(Relative(Dirname(from), to)), ".")
    ensures TsStyleRelativePath(from, to)
         == "./" + ReplaceAll(Normalize(Relative(Dirname(from), to)), Backslash, Separator)
  {
    var n := Normalize(Relative(Dirname(from), to));
    TsStyleDef(from, to);
    ReplaceAllAppend("./", n, Backslash, Separator);
  }

  lemma {:induction false} ReplaceAllAppend(a: string, b: string, x: char, y: char)
    ensures ReplaceAll(a + b, x, y) == ReplaceAll(a, x, y) + ReplaceAll(b, x, y)
  {
    var l := ReplaceAll(a + b, x, y);
    var r := ReplaceAll(a, x, y) + ReplaceAll(b, x, y);
    assert |l| == |r|;
    forall i | 0 <= i < |l| ensures l[i] == r[i] {
      if i < |a| {
        assert (a + b)[i] == a[i];
      } else {
        assert (a + b)[i] == b[i - |a|];
      }
    }
  }

  /** `ReplaceAll` leaves a string without the replaced character as it is. */
  lemma ReplaceAllAbsent(s: string, x: char, y: char)
    requires x !in s
    ensures ReplaceAll(s, x, y) == s
  {
    var r := ReplaceAll(s, x, y);
    assert forall i :: 0 <= i < |s| ==> s[i] != x;
    assert |r| == |s| && forall i :: 0 <= i < |s| ==> r[i] == s[i];
  }

  /** A relative path that already starts with "." is kept apart from the separator replacement. */
  lemma TsStyleRelativePathDotted(from: string, to: string)
    requires StartsWith(Normalize(Relative(Dirname(from), to)), ".")
    ensures TsStyleRelativePath(from, to)
         == ReplaceAll(Normalize(Relative(Dirname(from), to)), Backslash, Separator)
  {
    TsStyleDef(from, to);
  }

  /** Climbing out of `f` and descending into `t` from there lands on `t`. */
  lemma FoldRelativeSegments(f: seq<string>, t: seq<string>)
    requires NormalForm(f, false) && NormalForm(t, false)
    ensures Fold(f, RelativeSegments(f, t), false) == t
  {
    var k := CommonPrefixLength(f, t);
    var climb := Repeat("..", |f| - k);
    var down := t[k..];
    assert RelativeSegments(f, t) == climb + down;
    FoldAppend(f, climb, down, false);
    FoldClimbsTo(f, k);
    assert Fold(t[..k], down, false) == t by {
      TakeDrop(t, k);
      FoldFixpoint(t[..k], down, false);
    }
  }

  /** A sequence is its first `k` elements followed by the rest. */
  lemma TakeDrop<T>(s: seq<T>, k: nat)
    requires k <= |s|
    ensures s[..k] + s[k..] == s
  {
  }

  /** The segments of a non-empty relative path: in normal form, and holding only characters of `to`. */
  lemma {:induction false} RelativeSegmentsShape(f: seq<string>, t: seq<string>, to: string)
    requires NormalForm(f, false) && t == Resolve(to) && f != t
    ensures var segs := RelativeSegments(f, t);
      && segs != [] && NormalForm(segs, true)
      && (Backslash !in to ==> forall i :: 0 <= i < |segs| ==> Backslash !in segs[i])
  {
    var segs := RelativeSegments(f, t);
    var k := CommonPrefixLength(f, t);
    var m := |f| - k;
    assert forall i :: m <= i < |segs| ==> segs[i] == t[k + (i - m)];
    PrefixCoversAll(f, t, k);
    if Backslash !in to {
      forall i | m <= i < |segs| ensures Backslash !in segs[i] {
        assert segs[i] in t;
        FoldSegmentsFromInput([], Split(to), false, segs[i]);
        if segs[i] != ".." {
          SplitNoChar(to, Backslash, segs[i]);
        }
      }
    }
  }

  lemma PrefixCoversAll(f: seq<string>, t: seq<string>, k: nat)
    requires k <= |f| && k <= |t| && f[..k] == t[..k]
    ensures k == |f| && k == |t| ==> f == t
  {
    assert f[..|f|] == f && t[..|t|] == t;
  }

  /** Resolving `d` joined with a non-empty `r` folds `r`'s pieces onto `d`'s segments. */
  lemma JoinResolves(d: string, r: string)
    requires IsAbsolute(d) && r != ""
    ensures Resolve(Join(d, r)) == Fold(Resolve(d), Split(r), false)
  {
    var joined := d + [Separator] + r;
    assert Join(d, r) == Normalize(joined);
    ResolveNormalize(joined);
    SplitAppend(d, r);
    FoldAppend([], Split(d), Split(r), false);
  }

  /** A non-empty relative path is already normal, has no backslash, and splits into its segments. */
  lemma RelativeIsNormal(from: string, to: string)
    requires Backslash !in to
    requires Relative(Dirname(from), to) != ""
    ensures var rel := Relative(Dirname(from), to);
      && Normalize(rel) == rel && Backslash !in rel
      && Split(rel) == RelativeSegments(Resolve(Dirname(from)), Resolve(to))
  {
    var f := Resolve(Dirname(from));
    var t := Resolve(to);
    var rel := Relative(Dirname(from), to);
    var segs := RelativeSegments(f, t);
    RelativeDef(Dirname(from), to);
    RelativeSegmentsShape(f, t, to);
    assert rel == Render(segs);
    NormalizeLaidOut(segs, false, false);
    assert LaidOut(segs, false, false) == rel;
    RenderNoChar(segs, Backslash);
    SplitRender(segs);
  }

  /** On a normal relative path without backslashes, the TS-style path only adds a leading "./" when needed. */
  lemma TsStyleOfNormal(from: string, to: string)
    requires var rel := Relative(Dirname(from), to); Normalize(rel) == rel && Backslash !in rel
    ensures var rel := Relative(Dirname(from), to);
      TsStyleRelativePath(from, to) == if StartsWith(rel, ".") then rel else "./" + rel
  {
    var rel := Relative(Dirname(from), to);
    TsStyleDef(from, to);
    if StartsWith(rel, ".") {
      ReplaceAllAbsent(rel, Backslash, Separator);
    } else {
      ReplaceAllAbsent("./" + rel, Backslash, Separator);
    }
  }

  /** The pieces of a non-empty TS-style relative path are the relative segments, possibly after a ".". */
  lemma TsStylePieces(from: string, to: string)
    requires Backslash !in to
    requires Relative(Dirname(from), to) != ""
    ensures var f := Resolve(Dirname(from));
      Fold(f, Split(TsStyleRelativePath(from, to)), false) == Fold(f, RelativeSegments(f, Resolve(to)), false)
  {
    var rel := Relative(Dirname(from), to);
    var r := TsStyleRelativePath(from, to);
    RelativeIsNormal(from, to);
    TsStyleOfNormal(from, to);
    if !StartsWith(rel, ".") {
      assert r == "." + [Separator] + rel;
      SplitAppend(".", rel);
      SplitNone(".");
      assert Split(r) == ["."] + Split(rel);
    }
  }

  /** When the relative path is empty, both ends resolve alike and the result is ".". */
  lemma TsStyleSamePlace(from: string, to: string)
    requires Relative(Dirname(from), to) == ""
    ensures Resolve(Dirname(from)) == Resolve(to)
    ensures TsStyleRelativePath(from, to) == "."
  {
    var d := Dirname(from);
    RelativeDef(d, to);
    if d != to && Resolve(d) != Resolve(to) {
      var segs := RelativeSegments(Resolve(d), Resolve(to));
      RelativeSegmentsShape(Resolve(d), Resolve(to), to);
      RenderEmpty(segs);
      assert false;
    }
    assert Normalize(Relative(d, to)) == "." by { NormalizeDef(Relative(d, to)); }
    TsStyleDef(from, to);
    ReplaceAllAbsent(".", Backslash, Separator);
  }

  /**
   * Round trip: joining the directory of an absolute `from` with the relative path computed
   * from it leads back to `to` (when `to` has no backslash for the final replacement to change).
   */
  lemma {:induction false} TsStyleRelativePathRoundTrip(from: string, to: string)
    requires IsAbsolute(from)
    requires Backslash !in to
    ensures Resolve(Join(Dirname(from), TsStyleRelativePath(from, to))) == Resolve(to)
  {
    var d := Dirname(from);
    var f := Resolve(d);
    var t := Resolve(to);
    var r := TsStyleRelativePath(from, to);
    JoinResolves(d, r);
    if Relative(d, to) == "" {
      TsStyleSamePlace(from, to);
      SplitNone(".");
    } else {
      TsStylePieces(from, to);
      FoldRelativeSegments(f, t);
    }
  }

  /** A rendering holds a character other than '/' only if some segment does. */
  lemma {:induction false} RenderNoChar(segs: seq<string>, c: char)
    requires c != Separator
    requires forall i :: 0 <= i < |segs| ==> c !in segs[i]
    ensures c !in Render(segs)
  {
    if |segs| > 1 {
      assert Render(segs) == segs[0] + [Separator] + Render(segs[1..]);
      RenderNoChar(segs[1..], c);
    }
  }

  /** A segment of `Split(p)` holds a character only if `p` does. */
  lemma SplitNoChar(p: string, c: char, seg: string)
    requires c !in p && seg in Split(p)
    ensures c !in seg
  {
    if c in seg {
      SplitPieces(p, seg, c);
    }
  }
}
