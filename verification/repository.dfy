/**
 * Repositories: what kind of repository a path opens, which files an index
 * of it lists, which dialect a loaded document is in, and how a link from
 * one document to another is written.
 */
module Repositories {
  import opened Wrappers
  import opened Strings
  import opened Paths
  import Outlines

  /** MINDFORGER repositories keep metadata in their documents; MARKDOWN ones never do. */
  datatype RepositoryType = MINDFORGER | MARKDOWN

  /** A whole directory tree, or one file. */
  datatype RepositoryMode = REPOSITORY | FILE

  /**
   * What the filesystem says a path is: nothing, a regular file, a directory
   * with the MindForger layout (a `memory` subdirectory), or any other
   * directory. Probing the filesystem is not modelled; callers say which.
   */
  datatype PathKind = Missing | RegularFile | MindForgerLayout | PlainDirectory

  /** The root directory, the file name in FILE mode ("" otherwise), type and mode. */
  datatype Repository = Repository(dir: string, file: string, rtype: RepositoryType, mode: RepositoryMode)

  // ---------------------------------------------------------------------------
  // Classification
  // ---------------------------------------------------------------------------

  /**
   * The repository a path opens. A directory is a whole repository rooted
   * at the path, MINDFORGER when it has the MindForger layout; a file is a
   * FILE-mode repository in its parent directory, provisionally MINDFORGER
   * until its content has been read.
   */
  function ForPath(path: string, kind: PathKind): (r: Option<Repository>)
    ensures r.None? <==> kind == Missing
    ensures r.Some? ==> (r.value.mode == FILE <==> kind == RegularFile)
    ensures r.Some? ==> (r.value.rtype == MINDFORGER <==> kind != PlainDirectory)
    ensures r.Some? && r.value.mode == REPOSITORY ==> r.value.dir == path && r.value.file == ""
    ensures r.Some? && r.value.mode == FILE ==> r.value.dir == Dirname(path) && r.value.file == Basename(path)
  {
    match kind
    case Missing => None
    case RegularFile => Some(Repository(Dirname(path), Basename(path), MINDFORGER, FILE))
    case MindForgerLayout => Some(Repository(path, "", MINDFORGER, REPOSITORY))
    case PlainDirectory => Some(Repository(path, "", MARKDOWN, REPOSITORY))
  }

  /** A file repository's directory and file name put back together give the path it was opened with. */
  lemma FileRepositoryLocatesFile(path: string)
    requires '/' in path
    ensures ForPath(path, RegularFile).Some?
    ensures var r := ForPath(path, RegularFile).value; r.dir + "/" + r.file == path
  {
    DirnameBasename(path);
  }

  // ---------------------------------------------------------------------------
  // Indexing
  // ---------------------------------------------------------------------------

  /** Where a MindForger repository keeps its documents and its two kinds of stencils. */
  const MemoryDir := "memory/"
  const NoteStencilDir := "stencils/notes/"
  const OutlineStencilDir := "stencils/notebooks/"

  predicate IsMarkdownFile(f: string)
  {
    EndsWith(f, ".md")
  }

  /** Markdown files of the listing under `prefix`, in listing order. */
  function Under(files: seq<string>, prefix: string): (r: seq<string>)
    ensures |r| <= |files|
    ensures forall f :: f in r <==> f in files && StartsWith(f, prefix) && IsMarkdownFile(f)
  {
    if |files| == 0 then []
    else
      var rest := Under(files[1..], prefix);
      assert files == [files[0]] + files[1..];
      if StartsWith(files[0], prefix) && IsMarkdownFile(files[0]) then [files[0]] + rest else rest
  }

  /** The files an index of the repository lists: outlines, Markdown files, note stencils, outline stencils. */
  datatype Index = Index(outlines: seq<string>, markdowns: seq<string>, noteStencils: seq<string>, outlineStencils: seq<string>)

  /**
   * Indexing a repository, given the files found under its directory as
   * paths relative to it. A FILE-mode repository lists its one file and
   * nothing else; a MINDFORGER repository its documents under `memory/` and
   * its stencils; a MARKDOWN repository every Markdown file.
   */
  function IndexFiles(r: Repository, files: seq<string>): (ix: Index)
    ensures ix.markdowns == ix.outlines
    ensures r.mode == FILE ==> ix == Index([r.file], [r.file], [], [])
    ensures r.mode == REPOSITORY ==> forall f :: f in ix.outlines ==> f in files && IsMarkdownFile(f)
    ensures r.rtype == MARKDOWN || r.mode == FILE ==> ix.noteStencils == [] && ix.outlineStencils == []
    ensures r.mode == REPOSITORY && r.rtype == MINDFORGER ==>
              && (forall f :: f in ix.outlines <==> f in files && StartsWith(f, MemoryDir) && IsMarkdownFile(f))
              && (forall f :: f in ix.noteStencils <==> f in files && StartsWith(f, NoteStencilDir) && IsMarkdownFile(f))
              && (forall f :: f in ix.outlineStencils <==> f in files && StartsWith(f, OutlineStencilDir) && IsMarkdownFile(f))
    ensures r.mode == REPOSITORY && r.rtype == MARKDOWN ==> forall f :: f in ix.outlines <==> f in files && IsMarkdownFile(f)
  {
    if r.mode == FILE then Index([r.file], [r.file], [], [])
    else if r.rtype == MINDFORGER then
      var docs := Under(files, MemoryDir);
      Index(docs, docs, Under(files, NoteStencilDir), Under(files, OutlineStencilDir))
    else
      var docs := Under(files, "");
      Index(docs, docs, [], [])
  }

  /** Two prefixes that differ at some position before either ends never start the same path. */
  lemma DistinctPrefixes(f: string, p: string, q: string, k: nat)
    requires k < |p| && k < |q| && p[k] != q[k]
    ensures StartsWith(f, p) ==> !StartsWith(f, q)
  {
    if StartsWith(f, p) {
      assert f[..|p|][k] == f[k];
    }
  }

  /** In a MINDFORGER repository no file is listed both as a document and as a stencil, or as both kinds of stencil. */
  lemma IndexPartitions(r: Repository, files: seq<string>)
    requires r.mode == REPOSITORY && r.rtype == MINDFORGER
    ensures var ix := IndexFiles(r, files);
            forall f :: (f in ix.outlines ==> f !in ix.noteStencils && f !in ix.outlineStencils)
                        && (f in ix.noteStencils ==> f !in ix.outlineStencils)
  {
    forall f: string
      ensures !(StartsWith(f, MemoryDir) && StartsWith(f, NoteStencilDir))
      ensures !(StartsWith(f, MemoryDir) && StartsWith(f, OutlineStencilDir))
      ensures !(StartsWith(f, NoteStencilDir) && StartsWith(f, OutlineStencilDir))
    {
      DistinctPrefixes(f, MemoryDir, NoteStencilDir, 0);
      DistinctPrefixes(f, MemoryDir, OutlineStencilDir, 0);
      DistinctPrefixes(f, NoteStencilDir, OutlineStencilDir, 13);
    }
  }

  // ---------------------------------------------------------------------------
  // Dialect of a loaded document
  // ---------------------------------------------------------------------------

  /**
   * The dialect a document is treated in once read: metadata on any of its
   * headings makes it MINDFORGER; without metadata it is MINDFORGER only
   * inside a MINDFORGER repository tree (so that saving it adds metadata),
   * and MARKDOWN in a plain directory or as a single file.
   */
  function ResolveFormat(r: Repository, hasMetadata: bool): (f: Outlines.Format)
    ensures hasMetadata ==> f == Outlines.MINDFORGER
    ensures r.rtype == MINDFORGER && r.mode == REPOSITORY ==> f == Outlines.MINDFORGER
    ensures f == Outlines.MARKDOWN <==> !hasMetadata && (r.rtype.MARKDOWN? || r.mode.FILE?)
  {
    if hasMetadata || (r.rtype == MINDFORGER && r.mode == REPOSITORY) then Outlines.MINDFORGER
    else Outlines.MARKDOWN
  }

  /** A FILE-mode repository takes the dialect of its one document once it is read; a tree keeps its type. */
  function AfterLoad(r: Repository, hasMetadata: bool): (loaded: Repository)
    ensures loaded.dir == r.dir && loaded.file == r.file && loaded.mode == r.mode
    ensures r.mode == REPOSITORY ==> loaded.rtype == r.rtype
    ensures r.mode == FILE ==> (loaded.rtype == MINDFORGER <==> ResolveFormat(r, hasMetadata) == Outlines.MINDFORGER)
  {
    if r.mode == FILE then r.(rtype := if hasMetadata then MINDFORGER else MARKDOWN) else r
  }

  /** Once loaded, a repository resolves its documents to the dialect it reports: reloading changes nothing. */
  lemma AfterLoadStable(r: Repository, hasMetadata: bool)
    ensures AfterLoad(AfterLoad(r, hasMetadata), hasMetadata) == AfterLoad(r, hasMetadata)
    ensures ResolveFormat(AfterLoad(r, hasMetadata), hasMetadata) == ResolveFormat(r, hasMetadata)
  {
  }

  // ---------------------------------------------------------------------------
  // Links between documents
  // ---------------------------------------------------------------------------

  /** The path lies in the tree rooted at `dir`. */
  predicate Inside(dir: string, path: string)
  {
    Segments(dir) <= DirSegments(path)
  }

  /**
   * How a link from the document `source` to `target` (a path, optionally
   * followed by '#anchor') is written, in order:
   * - into the same file: just "#anchor", or the file name when the anchor is empty;
   * - in FILE mode: the file name when the target sits in the source's directory, otherwise the target as given;
   * - to a file outside the repository: the target as given;
   * - otherwise: the relative path from the source's directory, with the anchor.
   * An empty anchor is dropped ("x#" is written "x").
   */
  function MakePathRelative(r: Repository, source: string, target: string): (link: string)
    ensures var (path, anchor) := CutAnchor(target);
            path == source ==> link == (if anchor == "" then Basename(source) else "#" + anchor)
    ensures var (path, anchor) := CutAnchor(target);
            path != source ==> CutAnchor(link).1 == anchor
    ensures var (path, anchor) := CutAnchor(target);
            path != source && r.mode == FILE ==>
              CutAnchor(link).0 == (if DirSegments(path) == DirSegments(source) then Basename(path) else path)
    ensures var (path, anchor) := CutAnchor(target);
            path != source && r.mode == REPOSITORY ==>
              CutAnchor(link).0 == (if Inside(r.dir, path) then Relative(DirSegments(source), Segments(path)) else path)
  {
    LinkParts(r, source, target);
    var (path, anchor) := CutAnchor(target);
    if path == source then (if anchor == "" then Basename(path) else "#" + anchor)
    else if r.mode == FILE then
      (if DirSegments(path) == DirSegments(source) then WithAnchor(Basename(path), anchor) else WithAnchor(path, anchor))
    else if !Inside(r.dir, path) then WithAnchor(path, anchor)
    else WithAnchor(Relative(DirSegments(source), Segments(path)), anchor)
  }

  /** The path written for a link to another file has no '#', so the anchor can be cut off again. */
  lemma LinkParts(r: Repository, source: string, target: string)
    ensures var (path, anchor) := CutAnchor(target);
            && '#' !in Basename(path)
            && '#' !in Relative(DirSegments(source), Segments(path))
            && CutAnchor(WithAnchor(path, anchor)) == (path, anchor)
            && CutAnchor(WithAnchor(Basename(path), anchor)) == (Basename(path), anchor)
            && CutAnchor(WithAnchor(Relative(DirSegments(source), Segments(path)), anchor)) == (Relative(DirSegments(source), Segments(path)), anchor)
  {
    var (path, anchor) := CutAnchor(target);
    SplitWithout(path, '/', '#');
    RelativeFree(DirSegments(source), Segments(path));
    CutWithAnchor(path, anchor);
    CutWithAnchor(Basename(path), anchor);
    CutWithAnchor(Relative(DirSegments(source), Segments(path)), anchor);
  }

  /** A link into the same file is the bare anchor, or the file name when there is no anchor. */
  lemma SameFileLink(r: Repository, source: string, anchor: string)
    requires '#' !in source
    ensures anchor != "" ==> MakePathRelative(r, source, source + "#" + anchor) == "#" + anchor
    ensures MakePathRelative(r, source, source + "#") == Basename(source)
    ensures MakePathRelative(r, source, source) == Basename(source)
  {
    CutAnchorOf(source, anchor);
    CutAnchorOf(source, "");
    assert source + "#" + "" == source + "#";
  }

  /**
   * Inside a repository tree a link to another normalised file is written
   * relative, keeps its anchor, and resolves back to the target from the
   * source's directory.
   */
  lemma TreeLinkResolves(r: Repository, source: string, target: string)
    requires r.mode == REPOSITORY
    requires CutAnchor(target).0 != source && Inside(r.dir, CutAnchor(target).0)
    requires Normalised(Segments(CutAnchor(target).0))
    ensures CutAnchor(MakePathRelative(r, source, target)).1 == CutAnchor(target).1
    ensures Resolve(source, CutAnchor(MakePathRelative(r, source, target)).0) == CutAnchor(target).0
  {
    var (path, anchor) := CutAnchor(target);
    var rel := Relative(DirSegments(source), Segments(path));
    SplitWithout(path, '/', '#');
    RelativeFree(DirSegments(source), Segments(path));
    CutWithAnchor(rel, anchor);
    RelativeResolves(source, path);
  }

  /** A relative path built from '#'-free segments has no '#'. */
  lemma RelativeFree(from: seq<string>, to: seq<string>)
    requires |to| >= 1
    requires forall k :: 0 <= k < |to| ==> '#' !in to[k]
    ensures '#' !in Relative(from, to)
  {
    var k := CommonPrefix(from, to[..|to| - 1]);
    var parts := Ups(|from| - k) + to[k..];
    forall j | 0 <= j < |parts|
      ensures '#' !in parts[j]
    {
      if j >= |from| - k {
        assert parts[j] == to[k + (j - (|from| - k))];
      }
    }
    JoinWithout(parts, '#');
  }

  /**
   * In FILE mode only a target in the source's own directory is written
   * relative (as its file name, which resolves back to it); any other
   * target is written as given.
   */
  lemma FileModeLinks(r: Repository, source: string, target: string)
    requires r.mode == FILE && CutAnchor(target).0 != source
    requires Normalised(Segments(CutAnchor(target).0))
    ensures var path := CutAnchor(target).0;
            var link := MakePathRelative(r, source, target);
            && (DirSegments(path) != DirSegments(source) ==> link == WithAnchor(path, CutAnchor(target).1))
            && (DirSegments(path) == DirSegments(source) ==>
                  CutAnchor(link) == (Basename(path), CutAnchor(target).1)
                  && Resolve(source, Basename(path)) == path)
  {
    var (path, anchor) := CutAnchor(target);
    if DirSegments(path) == DirSegments(source) {
      var name := Basename(path);
      assert '#' !in name by {
        SplitWithout(path, '/', '#');
      }
      CutWithAnchor(name, anchor);
      ResolveSibling(source, path);
    }
  }

  /** Outside the repository tree a link is left as given (an empty anchor dropped), whatever the repository type. */
  lemma OutsideLinkUnchanged(r: Repository, source: string, target: string)
    requires r.mode == REPOSITORY
    requires CutAnchor(target).0 != source && !Inside(r.dir, CutAnchor(target).0)
    ensures MakePathRelative(r, source, target) == WithAnchor(CutAnchor(target).0, CutAnchor(target).1)
    ensures '#' !in target ==> MakePathRelative(r, source, target) == target
  {
  }
}
