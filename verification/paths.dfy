/**
 * Paths as '/'-separated segment lists, link targets as a path with an
 * optional '#anchor', and the relative path from one directory to a file:
 * climb with ".." to the deepest common ancestor, then descend.
 */
module Paths {
  import opened Strings

  // ---------------------------------------------------------------------------
  // Anchors
  // ---------------------------------------------------------------------------

  /** A link target cut at its first '#': the path before it and the anchor after it ("" without one). */
  function CutAnchor(t: string): (r: (string, string))
    ensures '#' !in r.0
    ensures '#' in t ==> t == r.0 + "#" + r.1
    ensures '#' !in t ==> r == (t, "")
    decreases |t|
  {
    if |t| == 0 then ("", "")
    else if t[0] == '#' then ("", t[1..])
    else
      var r := CutAnchor(t[1..]);
      assert t == [t[0]] + t[1..];
      ([t[0]] + r.0, r.1)
  }

  /** A path followed by an anchor; an empty anchor adds nothing. */
  function WithAnchor(path: string, anchor: string): (t: string)
    ensures anchor == "" ==> t == path
    ensures anchor != "" ==> t == path + "#" + anchor
  {
    if anchor == "" then path else path + "#" + anchor
  }

  /** Cutting at the first '#' recovers a '#'-free path and whatever anchor followed it. */
  lemma {:induction false} CutAnchorOf(path: string, anchor: string)
    requires '#' !in path
    ensures CutAnchor(path + "#" + anchor) == (path, anchor)
    decreases |path|
  {
    var t := path + "#" + anchor;
    if |path| == 0 {
      assert t == "#" + anchor;
      assert t[1..] == anchor;
    } else {
      assert t[1..] == path[1..] + "#" + anchor;
      CutAnchorOf(path[1..], anchor);
      assert [t[0]] + path[1..] == path;
    }
  }

  /** Putting an anchor on and cutting it off again are inverse. */
  lemma CutWithAnchor(path: string, anchor: string)
    requires '#' !in path
    ensures CutAnchor(WithAnchor(path, anchor)) == (path, anchor)
  {
    if anchor != "" {
      CutAnchorOf(path, anchor);
    }
  }

  // ---------------------------------------------------------------------------
  // Segments, directory and file name
  // ---------------------------------------------------------------------------

  /** The '/'-separated segments of a path; an absolute path starts with an empty segment. */
  function Segments(p: string): (segs: seq<string>)
    ensures |segs| >= 1
    ensures forall k :: 0 <= k < |segs| ==> '/' !in segs[k]
  {
    Split(p, '/')
  }

  /** The last segment: the file name. */
  function Basename(p: string): (name: string)
    ensures '/' !in name
  {
    var segs := Segments(p);
    segs[|segs| - 1]
  }

  /** Every segment but the last: the directory the file is in. */
  function DirSegments(p: string): (dir: seq<string>)
    ensures |dir| == |Segments(p)| - 1 && dir == Segments(p)[..|dir|]
  {
    var segs := Segments(p);
    segs[..|segs| - 1]
  }

  /** The directory part of a path, without a trailing '/'. */
  function Dirname(p: string): string
  {
    Join(DirSegments(p), '/')
  }

  /** A path with a '/' is its directory, a '/', and its file name. */
  lemma DirnameBasename(p: string)
    requires '/' in p
    ensures Dirname(p) + "/" + Basename(p) == p
  {
    var segs := Segments(p);
    CountIn(p, '/');
    var dir := DirSegments(p);
    assert segs == dir + [Basename(p)];
    JoinAppend(dir, [Basename(p)], '/');
    JoinSplit(p, '/');
  }

  /** A path without a '/' is a bare file name in the empty directory. */
  lemma NoDirectory(p: string)
    requires '/' !in p
    ensures Basename(p) == p && DirSegments(p) == [] && Dirname(p) == ""
  {
    SplitNoSeparator(p, '/');
  }

  // ---------------------------------------------------------------------------
  // Relative paths
  // ---------------------------------------------------------------------------

  /** Length of the longest common prefix of two segment lists. */
  function CommonPrefix(a: seq<string>, b: seq<string>): (k: nat)
    ensures k <= |a| && k <= |b|
    ensures a[..k] == b[..k]
    ensures k == |a| || k == |b| || a[k] != b[k]
  {
    if |a| == 0 || |b| == 0 || a[0] != b[0] then 0
    else
      var k := CommonPrefix(a[1..], b[1..]);
      assert a[..k + 1] == [a[0]] + a[1..][..k];
      assert b[..k + 1] == [b[0]] + b[1..][..k];
      k + 1
  }

  /** `n` parent-directory steps. */
  function Ups(n: nat): (r: seq<string>)
    ensures |r| == n && forall k :: 0 <= k < n ==> r[k] == ".."
  {
    if n == 0 then [] else Ups(n - 1) + [".."]
  }

  /**
   * The segments of the relative path from directory `from` to the file
   * whose segments are `to`: one ".." per directory of `from` below the
   * deepest common ancestor, then the rest of `to`.
   */
  function RelativeSegments(from: seq<string>, to: seq<string>): (rel: seq<string>)
    requires |to| >= 1
  {
    var k := CommonPrefix(from, to[..|to| - 1]);
    Ups(|from| - k) + to[k..]
  }

  /**
   * The relative path from directory `from` to the file whose segments are
   * `to`. Climbing it from `from` lands exactly on `to`, provided `to` is
   * normalised and made of real segments.
   */
  function Relative(from: seq<string>, to: seq<string>): (rel: string)
    requires |to| >= 1
    ensures Normalised(to) && (forall k :: 0 <= k < |to| ==> '/' !in to[k]) ==> Climb(from, Split(rel, '/')) == to
  {
    if Normalised(to) && (forall k :: 0 <= k < |to| ==> '/' !in to[k]) then
      RelativeSegmentsClimb(from, to);
      Join(RelativeSegments(from, to), '/')
    else
      Join(RelativeSegments(from, to), '/')
  }

  /** Following relative segments from a directory: ".." goes up a level, anything else goes down. */
  function Climb(dir: seq<string>, rel: seq<string>): (r: seq<string>)
    decreases |rel|
  {
    if |rel| > 0 && rel[0] == ".." && |dir| > 0 then Climb(dir[..|dir| - 1], rel[1..])
    else dir + rel
  }

  /**
   * Resolving a relative link written in the file `source`. A bare file
   * name resolves to that file in the source's directory.
   */
  function Resolve(source: string, rel: string): (target: string)
    ensures '/' !in rel && rel != ".." ==> Segments(target) == DirSegments(source) + [rel]
  {
    var dir := DirSegments(source);
    var segs := Climb(dir, Split(rel, '/'));
    assert '/' !in rel && rel != ".." ==> Segments(Join(segs, '/')) == dir + [rel] by {
      if '/' !in rel && rel != ".." {
        SplitNoSeparator(rel, '/');
        assert segs == dir + [rel];
        assert forall k :: 0 <= k < |dir| ==> dir[k] == Segments(source)[k];
        SplitJoin(dir + [rel], '/');
      }
    }
    Join(segs, '/')
  }

  /** `n` steps up from a directory at least `n` deep, then down into `rest`. */
  lemma {:induction false} ClimbUps(dir: seq<string>, n: nat, rest: seq<string>)
    requires n <= |dir|
    requires |rest| == 0 || rest[0] != ".."
    ensures Climb(dir, Ups(n) + rest) == dir[..|dir| - n] + rest
    decreases n
  {
    if n > 0 {
      var up := Ups(n) + rest;
      assert up == [".."] + (Ups(n - 1) + rest) by {
        UpsFront(n);
      }
      var parent := dir[..|dir| - 1];
      ClimbUps(parent, n - 1, rest);
      assert parent[..|parent| - (n - 1)] == dir[..|dir| - n];
    } else {
      assert Ups(0) + rest == rest;
    }
  }

  /** Ups can also be read as a first step followed by the others. */
  lemma {:induction false} UpsFront(n: nat)
    requires n > 0
    ensures Ups(n) == [".."] + Ups(n - 1)
  {
    if n > 1 {
      UpsFront(n - 1);
    }
  }

  /** No segment of the path is "..": it is already normalised. */
  predicate Normalised(segs: seq<string>)
  {
    forall k :: 0 <= k < |segs| ==> segs[k] != ".."
  }

  /** Climbing the joined relative segments from `from` lands exactly on `to`. */
  lemma RelativeSegmentsClimb(from: seq<string>, to: seq<string>)
    requires |to| >= 1 && Normalised(to)
    requires forall k :: 0 <= k < |to| ==> '/' !in to[k]
    ensures Climb(from, Split(Join(RelativeSegments(from, to), '/'), '/')) == to
  {
    var k := CommonPrefix(from, to[..|to| - 1]);
    var n := |from| - k;
    var rest := to[k..];
    var parts := Ups(n) + rest;
    assert forall j :: 0 <= j < |rest| ==> '/' !in rest[j] by {
      assert forall j :: 0 <= j < |rest| ==> rest[j] == to[k + j];
    }
    UpsThenSegments(n, rest);
    SplitJoin(parts, '/');
    ClimbUps(from, n, rest);
    assert from[..k] == to[..k];
  }

  /** Steps up followed by segments without '/' are segments without '/'. */
  lemma UpsThenSegments(n: nat, rest: seq<string>)
    requires forall j :: 0 <= j < |rest| ==> '/' !in rest[j]
    ensures forall j :: 0 <= j < n + |rest| ==> '/' !in (Ups(n) + rest)[j]
  {
    var parts := Ups(n) + rest;
    forall j | 0 <= j < |parts|
      ensures '/' !in parts[j]
    {
      if j >= n {
        assert parts[j] == rest[j - n];
      }
    }
  }

  /** A relative link computed for a normalised target resolves back to it from the source file. */
  lemma RelativeResolves(source: string, target: string)
    requires Normalised(Segments(target))
    ensures Resolve(source, Relative(DirSegments(source), Segments(target))) == target
  {
    var from, to := DirSegments(source), Segments(target);
    var rel := Relative(from, to);
    assert Climb(from, Split(rel, '/')) == to;
    JoinSplit(target, '/');
  }

  /** A file name resolves, from a file in the same directory, to that file. */
  lemma ResolveSibling(source: string, path: string)
    requires DirSegments(path) == DirSegments(source) && Basename(path) != ".."
    ensures Resolve(source, Basename(path)) == path
  {
    var name := Basename(path);
    SplitNoSeparator(name, '/');
    assert DirSegments(source) + [name] == Segments(path);
    JoinSplit(path, '/');
  }

  /** Joining '#'-free parts with '/' gives a '#'-free string. */
  lemma {:induction false} JoinWithout(parts: seq<string>, c: char)
    requires c != '/'
    requires forall k :: 0 <= k < |parts| ==> c !in parts[k]
    ensures c !in Join(parts, '/')
  {
    if |parts| > 1 {
      JoinWithout(parts[1..], c);
    }
  }
}
