/**
 * The repository, indexing and link-writing scenarios, restated on the model.
 * Paths are written as their '/'-separated segments joined by '/'.
 */
module RepositoryScenarios {
  import opened Wrappers
  import opened Strings
  import opened Paths
  import opened Repositories

  /** The path with the given segments. */
  function P(segs: seq<string>): string
  {
    Join(segs, '/')
  }

  /** Segments that make a path: at least one, none holding '/' or '#'. */
  predicate PathSegments(segs: seq<string>)
  {
    |segs| >= 1 && forall k :: 0 <= k < |segs| ==> '/' !in segs[k] && '#' !in segs[k]
  }

  /** A path written out as its segments splits back into them and has no anchor. */
  lemma SegmentsOf(segs: seq<string>)
    requires PathSegments(segs)
    ensures Segments(P(segs)) == segs && '#' !in P(segs)
  {
    SplitJoin(segs, '/');
    JoinWithout(segs, '#');
  }

  /** In a repository tree, a link to another file inside it is the relative path with the anchor kept. */
  lemma TreeLink(r: Repository, source: string, path: string, anchor: string)
    requires r.mode == REPOSITORY && '#' !in path && path != source && Inside(r.dir, path)
    ensures MakePathRelative(r, source, WithAnchor(path, anchor)) == WithAnchor(Relative(DirSegments(source), Segments(path)), anchor)
  {
    CutWithAnchor(path, anchor);
  }

  /** A link between two different files of a repository tree, the target inside it. */
  lemma TreeLinkCase(r: Repository, src: seq<string>, dst: seq<string>, anchor: string, rel: seq<string>)
    requires r.mode == REPOSITORY && PathSegments(src) && PathSegments(dst) && src != dst
    requires Segments(r.dir) <= dst[..|dst| - 1]
    requires RelativeSegments(src[..|src| - 1], dst) == rel
    ensures MakePathRelative(r, P(src), WithAnchor(P(dst), anchor)) == WithAnchor(P(rel), anchor)
  {
    var source, path := P(src), P(dst);
    SegmentsOf(src);
    SegmentsOf(dst);
    assert path != source;
    assert DirSegments(source) == src[..|src| - 1];
    assert Relative(DirSegments(source), Segments(path)) == P(rel);
    assert Inside(r.dir, path);
    TreeLink(r, source, path, anchor);
  }

  /**
   * Two different files whose paths are written as segments, the target in
   * directory `dir` or below, and the relative path from the source's
   * directory to the target, as segments and spelled out.
   */
  predicate TreeLinkFacts(dir: seq<string>, src: seq<string>, dst: seq<string>, rel: seq<string>, want: string)
  {
    && PathSegments(src) && PathSegments(dst) && src != dst && dir <= dst[..|dst| - 1]
    && RelativeSegments(src[..|src| - 1], dst) == rel && P(rel) == want
  }

  /**
   * A link between two different files of a repository tree inside a
   * directory `dir` of it, written without and with the anchor "n1".
   */
  lemma TreeLinkBoth(r: Repository, dir: seq<string>, src: seq<string>, dst: seq<string>, rel: seq<string>, want: string)
    requires r.mode == REPOSITORY && Segments(r.dir) <= dir
    requires TreeLinkFacts(dir, src, dst, rel, want)
    ensures MakePathRelative(r, P(src), P(dst)) == want
    ensures MakePathRelative(r, P(src), P(dst) + "#n1") == want + "#n1"
  {
    assert Segments(r.dir) <= dst[..|dst| - 1];
    TreeLinkCase(r, src, dst, "", rel);
    AnchorN1(P(dst));
    AnchorN1(want);
    TreeLinkCase(r, src, dst, "n1", rel);
  }

  /** A link from a file in FILE mode to another file. */
  lemma FileLinkCase(r: Repository, src: seq<string>, dst: seq<string>, anchor: string)
    requires r.mode == FILE && PathSegments(src) && PathSegments(dst) && src != dst
    ensures src[..|src| - 1] == dst[..|dst| - 1] ==>
              MakePathRelative(r, P(src), WithAnchor(P(dst), anchor)) == WithAnchor(dst[|dst| - 1], anchor)
    ensures src[..|src| - 1] != dst[..|dst| - 1] ==>
              MakePathRelative(r, P(src), WithAnchor(P(dst), anchor)) == WithAnchor(P(dst), anchor)
  {
    var source, path := P(src), P(dst);
    assert Segments(source) == src && Segments(path) == dst && '#' !in path by {
      SegmentsOf(src);
      SegmentsOf(dst);
    }
    assert CutAnchor(WithAnchor(path, anchor)) == (path, anchor) by {
      CutWithAnchor(path, anchor);
    }
    assert path != source;
  }

  /** A link from a file of a repository tree to a file outside it. */
  lemma OutsideCase(r: Repository, src: seq<string>, dst: seq<string>, anchor: string)
    requires r.mode == REPOSITORY && PathSegments(src) && PathSegments(dst) && src != dst
    requires !(Segments(r.dir) <= dst[..|dst| - 1])
    ensures MakePathRelative(r, P(src), WithAnchor(P(dst), anchor)) == WithAnchor(P(dst), anchor)
  {
    var source, path := P(src), P(dst);
    assert Segments(source) == src && Segments(path) == dst && '#' !in path by {
      SegmentsOf(src);
      SegmentsOf(dst);
    }
    assert CutAnchor(WithAnchor(path, anchor)) == (path, anchor) by {
      CutWithAnchor(path, anchor);
    }
    assert path != source;
  }

  // ---------------------------------------------------------------------------
  // Links in the repository tree /tmp/mf-relativize and in its memory directory
  // ---------------------------------------------------------------------------

  const root := ["", "tmp", "mf-relativize"]
  const memory := ["", "tmp", "mf-relativize", "memory"]
  const mfTree := Repository(P(root), "", MINDFORGER, REPOSITORY)
  const mdTree := Repository(P(memory), "", MARKDOWN, REPOSITORY)

  /** /tmp/mf-relativize/memory/src.md and dst.md */
  const srcTop := memory + ["src.md"]
  const dstTop := memory + ["dst.md"]
  /** /tmp/mf-relativize/memory/a/b/c/src.md and dst.md */
  const srcDeep := memory + ["a", "b", "c", "src.md"]
  const dstDeep := memory + ["a", "b", "c", "dst.md"]
  /** /tmp/mf-relativize/memory/a/b/src.md and /tmp/mf-relativize/memory/A/B/dst.md */
  const srcAB := memory + ["a", "b", "src.md"]
  const dstAB := memory + ["A", "B", "dst.md"]
  /** /tmp/dst.md and / */
  const dstTmp := ["", "tmp", "dst.md"]
  const slash := ["", ""]

  /** Both repositories, /tmp/mf-relativize and /tmp/mf-relativize/memory, hold the memory directory. */
  lemma TreesHoldMemory()
    ensures mfTree.mode == REPOSITORY && root <= Segments(mfTree.dir) <= memory
    ensures mdTree.mode == REPOSITORY && root <= Segments(mdTree.dir) <= memory
  {
    assert PathSegments(root) && PathSegments(memory);
    SegmentsOf(root);
    SegmentsOf(memory);
  }

  /** The anchored links the scenarios expect, spelled out. */
  lemma AnchoredSpelling(link: string)
    requires link in {"dst.md", "a/b/c/dst.md", "../../../dst.md", "../../A/B/dst.md"}
    ensures link == "dst.md" ==> link + "#n1" == "dst.md#n1"
    ensures link == "a/b/c/dst.md" ==> link + "#n1" == "a/b/c/dst.md#n1"
    ensures link == "../../../dst.md" ==> link + "#n1" == "../../../dst.md#n1"
    ensures link == "../../A/B/dst.md" ==> link + "#n1" == "../../A/B/dst.md#n1"
  {
  }

  /** Appending "#n1" is putting the anchor "n1" on. */
  lemma AnchorN1(path: string)
    ensures path + "#n1" == WithAnchor(path, "n1")
  {
    assert path + "#n1" == path + "#" + "n1";
  }

  lemma CleanTop()
    ensures PathSegments(srcTop) && PathSegments(dstTop)
  {
  }

  lemma CleanDeep()
    ensures PathSegments(srcDeep) && PathSegments(dstDeep)
  {
  }

  lemma CleanAB()
    ensures PathSegments(srcAB) && PathSegments(dstAB)
  {
  }

  lemma CleanOutside()
    ensures PathSegments(dstTmp) && PathSegments(slash)
  {
  }

  /** Same directory: "dst.md", "dst.md#n1", in both repositories. */
  lemma LinkSameDirectory(r: Repository)
    requires r.mode == REPOSITORY && root <= Segments(r.dir) <= memory
    ensures MakePathRelative(r, P(srcTop), P(dstTop)) == "dst.md"
    ensures MakePathRelative(r, P(srcTop), P(dstTop) + "#n1") == "dst.md#n1"
  {
    TopFacts();
    AnchoredSpelling("dst.md");
    TreeLinkBoth(r, memory, srcTop, dstTop, ["dst.md"], "dst.md");
  }

  /** Into a subdirectory: "a/b/c/dst.md", with and without the anchor. */
  lemma LinkDescendant(r: Repository)
    requires r.mode == REPOSITORY && root <= Segments(r.dir) <= memory
    ensures MakePathRelative(r, P(srcTop), P(dstDeep)) == "a/b/c/dst.md"
    ensures MakePathRelative(r, P(srcTop), P(dstDeep) + "#n1") == "a/b/c/dst.md#n1"
  {
    DescendantFacts();
    AnchoredSpelling("a/b/c/dst.md");
    TreeLinkBoth(r, memory, srcTop, dstDeep, ["a", "b", "c", "dst.md"], "a/b/c/dst.md");
  }

  /** Up to an ancestor directory: "../../../dst.md", with and without the anchor. */
  lemma LinkAncestor(r: Repository)
    requires r.mode == REPOSITORY && root <= Segments(r.dir) <= memory
    ensures MakePathRelative(r, P(srcDeep), P(dstTop)) == "../../../dst.md"
    ensures MakePathRelative(r, P(srcDeep), P(dstTop) + "#n1") == "../../../dst.md#n1"
  {
    AncestorFacts();
    AnchoredSpelling("../../../dst.md");
    TreeLinkBoth(r, memory, srcDeep, dstTop, ["..", "..", "..", "dst.md"], "../../../dst.md");
  }

  /** Same directory: one file name. */
  lemma TopFacts()
    ensures TreeLinkFacts(memory, srcTop, dstTop, ["dst.md"], "dst.md")
  {
    CleanTop();
    assert srcTop[4][0] != dstTop[4][0];
    assert CommonPrefix(srcTop[..4], dstTop[..4]) == 4;
  }

  /** Down from the memory directory into a/b/c. */
  lemma DescendantFacts()
    ensures TreeLinkFacts(memory, srcTop, dstDeep, ["a", "b", "c", "dst.md"], "a/b/c/dst.md")
  {
    SpellDescendant();
    CleanTop();
    CleanDeep();
    assert CommonPrefix(srcTop[..4], dstDeep[..7]) == 4;
  }

  lemma AncestorFacts()
    ensures TreeLinkFacts(memory, srcDeep, dstTop, ["..", "..", "..", "dst.md"], "../../../dst.md")
  {
    SpellAncestor();
    CleanTop();
    CleanDeep();
    AncestorSegments();
  }

  lemma CousinFacts()
    ensures TreeLinkFacts(memory, srcAB, dstAB, ["..", "..", "A", "B", "dst.md"], "../../A/B/dst.md")
  {
    SpellCousin();
    CleanAB();
    CousinSegments();
    assert srcAB[4][0] != dstAB[4][0];
  }

  /** From a/b/c up three levels. */
  lemma AncestorSegments()
    ensures RelativeSegments(srcDeep[..7], dstTop) == ["..", "..", "..", "dst.md"]
  {
    assert CommonPrefix(srcDeep[..7], dstTop[..4]) == 4;
    assert Ups(3) == ["..", "..", ".."];
  }

  /** From a/b up two levels and down into A/B. */
  lemma CousinSegments()
    ensures RelativeSegments(srcAB[..6], dstAB) == ["..", "..", "A", "B", "dst.md"]
  {
    assert srcAB[4][0] != dstAB[4][0];
    assert CommonPrefix(srcAB[..6], dstAB[..6]) == 4;
  }

  /** Across to a cousin directory: "../../A/B/dst.md", with and without the anchor. */
  lemma LinkCousin(r: Repository)
    requires r.mode == REPOSITORY && root <= Segments(r.dir) <= memory
    ensures MakePathRelative(r, P(srcAB), P(dstAB)) == "../../A/B/dst.md"
    ensures MakePathRelative(r, P(srcAB), P(dstAB) + "#n1") == "../../A/B/dst.md#n1"
  {
    CousinFacts();
    AnchoredSpelling("../../A/B/dst.md");
    TreeLinkBoth(r, memory, srcAB, dstAB, ["..", "..", "A", "B", "dst.md"], "../../A/B/dst.md");
  }

  /** The expected links above, spelled out. */
  lemma SpellDescendant()
    ensures P(["a", "b", "c", "dst.md"]) == "a/b/c/dst.md"
  {
  }

  lemma SpellAncestor()
    ensures P(["..", "..", "..", "dst.md"]) == "../../../dst.md"
  {
  }

  lemma SpellCousin()
    ensures P(["..", "..", "A", "B", "dst.md"]) == "../../A/B/dst.md"
  {
    var segs := ["..", "..", "A", "B", "dst.md"];
    assert segs[1..] == ["..", "A", "B", "dst.md"];
    SpellCousinTail();
    assert P(segs) == ".." + "/" + "../A/B/dst.md";
  }

  lemma SpellCousinTail()
    ensures P(["..", "A", "B", "dst.md"]) == "../A/B/dst.md"
  {
  }

  lemma SpellOutside()
    ensures P(["", "tmp", "dst.md"]) == "/tmp/dst.md"
  {
  }

  /** A link into the same file: "#n1", or the file name for an empty anchor. */
  lemma LinkSameFile(r: Repository)
    ensures MakePathRelative(r, P(srcAB), P(srcAB) + "#n1") == "#n1"
    ensures MakePathRelative(r, P(srcAB), P(srcAB) + "#") == "src.md"
  {
    CleanAB();
    SegmentsOf(srcAB);
    AnchorN1(P(srcAB));
    SameFileLink(r, P(srcAB), "n1");
  }

  /** Out of the repository: "/tmp/dst.md" stays as it is, and so does "/". */
  lemma LinkOutside(r: Repository)
    requires r.mode == REPOSITORY && root <= Segments(r.dir) <= memory
    ensures MakePathRelative(r, P(srcAB), P(dstTmp)) == P(dstTmp)
    ensures MakePathRelative(r, P(srcAB), "/") == "/"
  {
    CleanAB();
    CleanOutside();
    OutsideCase(r, srcAB, dstTmp, "");
    assert P(slash) == "/";
    OutsideCase(r, srcAB, slash, "");
  }

  /** An empty source and target give an empty link. */
  lemma LinkEmpty(r: Repository)
    ensures MakePathRelative(r, "", "") == ""
  {
    SplitNoSeparator("", '/');
  }

  // ---------------------------------------------------------------------------
  // Links in FILE mode: the repository is /tmp/mf-relativize/memory/first.md
  // ---------------------------------------------------------------------------

  const firstMd := memory + ["first.md"]
  const singleFile := Repository(P(memory), "first.md", MINDFORGER, FILE)

  lemma CleanFirst()
    ensures PathSegments(firstMd)
  {
  }

  /** Into the same file: "#n1", and "first.md" for an empty anchor. */
  lemma FileLinkSameFile()
    ensures MakePathRelative(singleFile, P(firstMd), P(firstMd) + "#n1") == "#n1"
    ensures MakePathRelative(singleFile, P(firstMd), P(firstMd) + "#") == "first.md"
  {
    CleanFirst();
    SegmentsOf(firstMd);
    AnchorN1(P(firstMd));
    SameFileLink(singleFile, P(firstMd), "n1");
  }

  /** The same, with the paths given as bare file names. */
  lemma FileLinkBareName()
    ensures MakePathRelative(singleFile, "first.md", "first.md#n1") == "#n1"
  {
    BareSpelling();
    SameFileLink(singleFile, "first.md", "n1");
  }

  lemma BareSpelling()
    ensures "first.md#n1" == "first.md" + "#" + "n1" && '#' !in "first.md"
  {
  }

  /** To a file in the same directory: "dst.md" and "dst.md#n1". */
  lemma FileLinkSameDirectory()
    ensures MakePathRelative(singleFile, P(firstMd), P(dstTop)) == "dst.md"
    ensures MakePathRelative(singleFile, P(firstMd), P(dstTop) + "#n1") == "dst.md#n1"
  {
    FileLinkSameDirectoryPlain();
    FileLinkSameDirectoryAnchored();
  }

  lemma FileLinkSameDirectoryPlain()
    ensures MakePathRelative(singleFile, P(firstMd), P(dstTop)) == "dst.md"
  {
    CleanFirst();
    CleanTop();
    assert firstMd[4][0] != dstTop[4][0];
    FileLinkCase(singleFile, firstMd, dstTop, "");
  }

  lemma FileLinkSameDirectoryAnchored()
    ensures MakePathRelative(singleFile, P(firstMd), P(dstTop) + "#n1") == "dst.md#n1"
  {
    CleanFirst();
    CleanTop();
    assert firstMd[4][0] != dstTop[4][0];
    AnchoredSpelling("dst.md");
    AnchorN1(P(dstTop));
    FileLinkCase(singleFile, firstMd, dstTop, "n1");
  }

  /** To a file anywhere else: the target as given, anchor included. */
  lemma FileLinkElsewhere()
    ensures MakePathRelative(singleFile, P(firstMd), P(dstDeep)) == P(dstDeep)
    ensures MakePathRelative(singleFile, P(firstMd), P(dstDeep) + "#n1") == P(dstDeep) + "#n1"
  {
    CleanFirst();
    CleanDeep();
    assert firstMd[..4] != dstDeep[..7];
    assert MakePathRelative(singleFile, P(firstMd), P(dstDeep)) == P(dstDeep) by {
      FileLinkCase(singleFile, firstMd, dstDeep, "");
    }
    assert MakePathRelative(singleFile, P(firstMd), P(dstDeep) + "#n1") == P(dstDeep) + "#n1" by {
      AnchorN1(P(dstDeep));
      FileLinkCase(singleFile, firstMd, dstDeep, "n1");
    }
  }

  // ---------------------------------------------------------------------------
  // Classification, indexing and format resolution
  // ---------------------------------------------------------------------------

  /** A file opens as a FILE-mode repository in its directory, provisionally MINDFORGER. */
  lemma FileRepositoryOf(dir: string, name: string)
    requires '/' !in name
    ensures ForPath(dir + "/" + name, RegularFile) == Some(Repository(dir, name, MINDFORGER, FILE))
  {
    var path := dir + "/" + name;
    assert path == dir + ['/'] + name;
    SplitAround(dir, name, '/');
    SplitNoSeparator(name, '/');
    JoinSplit(dir, '/');
  }

  /**
   * The repository type detection under the checkout `home`: the basic
   * repository is a MINDFORGER tree, its memory directory a MARKDOWN tree,
   * and each of its two documents a provisionally MINDFORGER single file.
   */
  lemma RepositoryTypeDetection(home: string)
    ensures var dir := home + "/lib/test/resources/basic-repository";
            ForPath(dir, MindForgerLayout) == Some(Repository(dir, "", MINDFORGER, REPOSITORY))
    ensures var dir := home + "/lib/test/resources/basic-repository/memory";
            ForPath(dir, PlainDirectory) == Some(Repository(dir, "", MARKDOWN, REPOSITORY))
    ensures var dir := home + "/lib/test/resources/basic-repository/memory";
            && ForPath(dir + "/flat-metadata.md", RegularFile) == Some(Repository(dir, "flat-metadata.md", MINDFORGER, FILE))
            && ForPath(dir + "/no-metadata.md", RegularFile) == Some(Repository(dir, "no-metadata.md", MINDFORGER, FILE))
  {
    var dir := home + "/lib/test/resources/basic-repository/memory";
    assert dir + "/flat-metadata.md" == dir + "/" + "flat-metadata.md";
    assert dir + "/no-metadata.md" == dir + "/" + "no-metadata.md";
    FileRepositoryOf(dir, "flat-metadata.md");
    FileRepositoryOf(dir, "no-metadata.md");
  }

  /** A MINDFORGER tree with two documents under memory/ indexes 2 outlines, 2 Markdown files and no stencils. */
  lemma IndexMindForgerTree(dir: string)
    ensures var ix := IndexFiles(Repository(dir, "", MINDFORGER, REPOSITORY), ["memory/first.md", "memory/second.md"]);
            |ix.outlines| == 2 && |ix.markdowns| == 2 && |ix.noteStencils| == 0 && |ix.outlineStencils| == 0
  {
    var files := ["memory/first.md", "memory/second.md"];
    assert StartsWith(files[0], MemoryDir) && IsMarkdownFile(files[0]);
    assert StartsWith(files[1], MemoryDir) && IsMarkdownFile(files[1]);
    DistinctPrefixes(files[0], MemoryDir, NoteStencilDir, 0);
    DistinctPrefixes(files[1], MemoryDir, NoteStencilDir, 0);
    DistinctPrefixes(files[0], MemoryDir, OutlineStencilDir, 0);
    DistinctPrefixes(files[1], MemoryDir, OutlineStencilDir, 0);
  }

  /** A MARKDOWN tree with two documents indexes 2 outlines, 2 Markdown files and no stencils. */
  lemma IndexMarkdownTree(dir: string)
    ensures var ix := IndexFiles(Repository(dir, "", MARKDOWN, REPOSITORY), ["first.md", "second.md"]);
            |ix.outlines| == 2 && |ix.markdowns| == 2 && |ix.noteStencils| == 0 && |ix.outlineStencils| == 0
  {
    var files := ["first.md", "second.md"];
    assert StartsWith(files[0], "") && IsMarkdownFile(files[0]);
    assert StartsWith(files[1], "") && IsMarkdownFile(files[1]);
  }

  /** A single file indexes 1 outline, 1 Markdown file and no stencils, whatever is next to it. */
  lemma IndexSingleFile(dir: string, file: string, t: RepositoryType, files: seq<string>)
    ensures var ix := IndexFiles(Repository(dir, file, t, FILE), files);
            |ix.outlines| == 1 && |ix.markdowns| == 1 && |ix.noteStencils| == 0 && |ix.outlineStencils| == 0
  {
  }

  /**
   * Format after loading: a MINDFORGER tree's documents are MINDFORGER even
   * without metadata, a plain directory's are MARKDOWN, and a single file is
   * MINDFORGER with metadata and MARKDOWN without, the repository following.
   */
  lemma FormatAfterLoad(dir: string, file: string, t: RepositoryType)
    ensures ResolveFormat(Repository(dir, "", MINDFORGER, REPOSITORY), false) == Outlines.MINDFORGER
    ensures ResolveFormat(Repository(dir, "", MARKDOWN, REPOSITORY), false) == Outlines.MARKDOWN
    ensures ResolveFormat(Repository(dir, file, t, FILE), true) == Outlines.MINDFORGER
    ensures AfterLoad(Repository(dir, file, t, FILE), true).rtype == MINDFORGER
    ensures ResolveFormat(Repository(dir, file, t, FILE), false) == Outlines.MARKDOWN
    ensures AfterLoad(Repository(dir, file, t, FILE), false).rtype == MARKDOWN
  {
  }
}
