# MindForger outline engine, in Dafny

A model of the core of MindForger, a Markdown-based personal knowledge
manager, with proofs about it. MindForger keeps *outlines* (Markdown
documents) in a *repository*.

- **Notes.** An outline's first heading is its title. Every later heading
  starts a *note*. A heading of level L gives a note of depth L−1, so
  `# 1` has depth 0 and `### 333` has depth 2. A heading may carry a
  `<!-- Metadata: ... -->` block.
- **Outline edits.** An outline is a flat sequence of notes. A note's
  *subtree* is the note plus the maximal run of strictly deeper notes that
  follows it. The edits work on subtrees:
  - promote and demote;
  - move up and move down over the neighbouring sibling;
  - move to first and move to last;
  - clone, which puts fresh copies right after the subtree;
  - insert a new note at an offset;
  - forget, which removes a note with its subtree;
  - refactor, which moves a subtree to the front of another outline.

  The moves and depth changes report a `Patch` (`NO`, `CHANGE` or `MOVE`,
  with a start index and `count` = last affected index − start).
- **Anchors.** A note name is mangled to a link anchor: ASCII letters are
  lower-cased, each space becomes `-`, and punctuation is dropped.
- **Links.** `makePathRelative` turns a link target into a link relative to
  the source file:
  - into the same file, it becomes `#anchor`;
  - inside the repository, it climbs with `..` and descends;
  - outside the repository, it is left unchanged;
  - in single-file mode, only same-directory targets are made relative.
- **Repository.** A path is classified as a MINDFORGER or MARKDOWN
  repository, or a single FILE. The repository's files are indexed. After
  load, a document's format follows from the repository and from whether
  any heading carries metadata. On save, MINDFORGER writes metadata and
  MARKDOWN never does. An unmodified MARKDOWN document saves back byte for
  byte.

The behaviour is the one pinned by the repository's unit tests
`lib/test/src/mind/note_test.cpp` and
`lib/test/src/indexer/repository_indexer_test.cpp`. Three facts the tests
show, which the model follows:

- A note's depth is its heading level − 1. The level-1 headings `# 1`,
  `# 2`, `# 3` give notes of depth 0 (`note_test.cpp`, lines 148-184), and
  the subtree `# 3`, `## 33`, `### 333` has depths 0, 1, 2 (its copies are
  checked at lines 642-648).
- Refactor puts the subtree in front of the target outline's notes. After
  refactoring `3`, the target reads `3, 33, 333, A` (`note_test.cpp`, lines
  769-789).
- A MindForger repository keeps its outline stencils in
  `stencils/notebooks/`, its note stencils in `stencils/notes/` and its
  documents in `memory/`.

Modules:

- `Wrappers`: `Option` and `Result`.
- `Sequences`: `Swap`, `Splice` and `Cut` of sequence ranges.
- `Strings`: split and join on a separator, trimming, and search.
- `Outlines`: notes, patches, subtrees, and every outline edit with its
  inverse.
- `Mangling`: anchors from note names.
- `Paths`: anchors on links, segments, and relative paths with their
  resolution.
- `Repositories`: classification, indexing, format resolution and
  `MakePathRelative`.
- `Markdown`: headings, sections, loading and saving an outline.
- `OutlineScenarios`, `RepositoryScenarios` and `MarkdownScenarios`: the
  test fixtures, each restated as a lemma about the general model.

## Model

| member | source | states |
|---|---|---|
| Outlines.SubtreeEndScan | lib/test/src/mind/note_test.cpp:286-335 | The scan for the end of a note's subtree finds the last note of the maximal run of strictly deeper notes that follows it. |
| Outlines.SubtreeEnd | lib/test/src/mind/note_test.cpp:286-335 | The end of a note's subtree lies within the outline at or after the note; every note after the note up to the end is deeper than it, and the note after the end (if any) is not. |
| Outlines.SubtreeEndIs | lib/test/src/mind/note_test.cpp:286-335 | A subtree end is unique: any index that meets the definition is the computed end. |
| Outlines.LastAtMostSpec | lib/test/src/mind/note_test.cpp:436-482 | The search upward for a note of depth at most d returns the nearest such note, and every note between is deeper; no answer means all notes above are deeper. |
| Outlines.PrevSibling | lib/test/src/mind/note_test.cpp:436-482 | A note found as the sibling above lies before the note at the same depth with only deeper notes between; when none is found, no earlier note is such a sibling. |
| Outlines.PrevSiblingSpec | lib/test/src/mind/note_test.cpp:436-482 | The sibling above a note is j exactly when j has the same depth and every note between is deeper. |
| Outlines.SiblingAboveSubtree | lib/test/src/mind/note_test.cpp:354-370 | The subtree of the sibling above ends right before the note, so the two subtrees are adjacent. |
| Outlines.Demote | lib/test/src/mind/note_test.cpp:186-210 | Demote adds one to the depth of the note and of every note of its subtree, changes nothing else in any note, and reports CHANGE from the note to the end of its subtree. |
| Outlines.Promote | lib/test/src/mind/note_test.cpp:212-225 | Promote subtracts one from the depth of the note and its subtree and reports CHANGE over that span; a top-level note is left alone and NO is reported. |
| Outlines.DemoteKeepsSubtree | lib/test/src/mind/note_test.cpp:186-210 | After a demote the note's subtree still ends at the same index. |
| Outlines.PromoteUndoesDemote | lib/test/src/mind/note_test.cpp:186-225 | Promote after demote restores the notes and reports the same patch. |
| Outlines.DemoteUndoesPromote | lib/test/src/mind/note_test.cpp:212-225 | Demote after promote restores the notes when the next note after the subtree is shallower than the note. |
| Outlines.DemoteAfterPromoteSwallowsSibling | lib/test/src/mind/note_test.cpp:200-225 | Without that condition, demote does not undo promote: a promoted note can take its former sibling into its subtree. |
| Outlines.MoveUp | lib/test/src/mind/note_test.cpp:227-254 | Moving up reports MOVE exactly when there is a sibling above, from that sibling's index to the end of the note's subtree; otherwise the notes are unchanged and NO is reported. |
| Outlines.MoveUpSpec | lib/test/src/mind/note_test.cpp:354-370 | Moving up swaps the note's subtree with the sibling's subtree above it; the notes before and after are unchanged, and the notes are a permutation of the original. |
| Outlines.MoveDown | lib/test/src/mind/note_test.cpp:256-283 | Moving down reports MOVE exactly when the note after the subtree has the same depth, from the note to the end of that sibling's subtree; otherwise NO and the notes are unchanged. |
| Outlines.MoveDownSpec | lib/test/src/mind/note_test.cpp:372-420 | Moving down swaps the note's subtree with the following sibling's subtree; the rest is unchanged, and the notes are a permutation of the original. |
| Outlines.SubtreeEndMoved | lib/test/src/mind/note_test.cpp:354-420 | A block of notes moved elsewhere with the same depths keeps its subtree shape when the note after it is no deeper than its head. |
| Outlines.SwappedSubtrees | lib/test/src/mind/note_test.cpp:354-420 | After two adjacent sibling subtrees are swapped, each is again a subtree at its new place. |
| Outlines.PrevSiblingOfFollower | lib/test/src/mind/note_test.cpp:372-388 | A same-depth note right after a subtree has the subtree's head as its sibling above. |
| Outlines.MoveDownAfterMoveUp | lib/test/src/mind/note_test.cpp:354-388 | Moving the former sibling down after a move up restores the notes and reports the same patch. |
| Outlines.MoveDownUndoesMoveUp | lib/test/src/mind/note_test.cpp:354-388 | For every note with a sibling above, moving up and then moving that sibling's old index down is the identity, with equal patches. |
| Outlines.MoveUpAfterMoveDown | lib/test/src/mind/note_test.cpp:372-388 | Moving the note up from where a move down left it restores the notes, with the same patch. |
| Outlines.LandingAfterMoveDown | lib/test/src/mind/note_test.cpp:372-404 | After a move down, the note's new index lies after its old one and inside the outline. |
| Outlines.MoveUpUndoesMoveDown | lib/test/src/mind/note_test.cpp:354-388 | For every note with a sibling below, moving down and then up again from its landing index is the identity, with equal patches. |
| Outlines.MoveToFirst | lib/test/src/mind/note_test.cpp:484-530 | Moving to first is a no-op reporting NO exactly for the first note; otherwise it reports MOVE from 0 to the subtree's original last index. |
| Outlines.MoveToFirstSpec | lib/test/src/mind/note_test.cpp:484-530 | Moving to first puts the subtree in front and keeps every other note in its relative order; the notes are a permutation of the original. |
| Outlines.MoveToLast | lib/test/src/mind/note_test.cpp:532-578 | Moving to last is a no-op reporting NO exactly when the subtree already ends the outline; otherwise it reports MOVE from the note to the last index. |
| Outlines.MoveToLastSpec | lib/test/src/mind/note_test.cpp:532-578 | Moving to last puts the subtree at the end and keeps every other note in its relative order; the notes are a permutation of the original. |
| Outlines.MoveToFirstUndoesMoveToLast | lib/test/src/mind/note_test.cpp:484-578 | Moving a top-level first subtree to last and then back to first restores the outline. |
| Outlines.Fresh | lib/test/src/mind/note_test.cpp:592-595 | A copy keeps name, depth and body, has one read and revision one, and no heading text of its own. |
| Outlines.FreshCopies | lib/test/src/mind/note_test.cpp:580-678 | Copies of a subtree keep their depths one by one and each is a fresh copy. |
| Outlines.Clone | lib/test/src/mind/note_test.cpp:580-678 | Cloning grows the outline by exactly the size of the note's subtree. |
| Outlines.CloneSpec | lib/test/src/mind/note_test.cpp:580-678 | Cloning keeps everything up to the end of the subtree, then inserts fresh copies of the subtree, then the rest unchanged. |
| Outlines.Insert | lib/test/src/mind/note_test.cpp:81-112 | A new note at offset k lands at index k; the notes before stay and the notes from k on shift by one. |
| Outlines.NewNote | lib/test/src/mind/note_test.cpp:81-99 | A newly authored note has the given name and depth, an empty body, no heading text, and has never been read or revised (both counters 0). |
| Outlines.Forget | lib/test/src/mind/note_test.cpp:114-131 | Forgetting shrinks the outline by exactly the size of the note's subtree. |
| Outlines.ForgetSpec | lib/test/src/mind/note_test.cpp:114-131 | Forgetting removes precisely the note's subtree, keeps the rest in order, and the removed notes and the rest together are the original notes. |
| Outlines.ForgetUndoesClone | lib/test/src/mind/note_test.cpp:580-678 | Forgetting the copy right after the original subtree undoes a clone. |
| Outlines.ForgetUndoesInsert | lib/test/src/mind/note_test.cpp:81-131 | Forgetting a note just inserted undoes the insert when the note after it is no deeper. |
| Outlines.NoteRefactor | lib/test/src/mind/note_test.cpp:769-789 | Refactor fails for an unknown outline or note index; otherwise the source loses the subtree, the target gets it in front, and every other outline is unchanged. |
| Outlines.RefactorKeepsNotes | lib/test/src/mind/note_test.cpp:769-789 | Across two outlines, refactor loses and creates no note: the combined notes are the same multiset with the same total count. |
| Outlines.SubtreeThenRest | lib/test/src/mind/note_test.cpp:484-530 | The subtree followed by the outline without it is exactly moving the note to first. |
| Outlines.RefactorIntoSelfIsMoveToFirst | lib/test/src/mind/note_test.cpp:769-789 | Refactoring a note into its own outline moves its subtree to the front. |
| Sequences.SwapSpec | lib/test/src/mind/note_test.cpp:354-370 | Swapping adjacent ranges puts the second range first and the first after it, keeps everything outside, and is a permutation. |
| Sequences.SwapInverse | lib/test/src/mind/note_test.cpp:354-388 | Swapping back at the new boundary restores the sequence. |
| Sequences.SpliceSpec | lib/test/src/mind/note_test.cpp:580-678 | Splicing a block in keeps what is before and after and adds exactly the block's elements. |
| Sequences.CutSpec | lib/test/src/mind/note_test.cpp:114-131 | Cutting a range keeps what is before and after; the cut range and the rest together make up the original elements. |
| Sequences.CutSplice | lib/test/src/mind/note_test.cpp:580-678 | Cutting out a block just spliced in restores the sequence. |
| OutlineScenarios.FlatDemoteLeaf | lib/test/src/mind/note_test.cpp:186-198 | Demoting leaf "3" gives depth 1 and reports CHANGE 2, 0. |
| OutlineScenarios.FlatDemoteWithChild | lib/test/src/mind/note_test.cpp:200-210 | Demoting "2" takes its child "3" along to depth 2. |
| OutlineScenarios.FlatPromoteWithChild | lib/test/src/mind/note_test.cpp:212-214 | Promoting "2" brings "3" up with it. |
| OutlineScenarios.FlatPromoteLeaf | lib/test/src/mind/note_test.cpp:215-225 | Promoting "3" restores the flat outline and reports CHANGE 2, 0. |
| OutlineScenarios.FlatUpSecond | lib/test/src/mind/note_test.cpp:227-236 | Moving "2" up gives 2, 1, 3 and reports MOVE 0, 1. |
| OutlineScenarios.FlatUpThird | lib/test/src/mind/note_test.cpp:238-245 | Moving the third note up reports MOVE 1, 1. |
| OutlineScenarios.FlatUpAgain | lib/test/src/mind/note_test.cpp:247-254 | Moving the second note up reports MOVE 0, 1. |
| OutlineScenarios.FlatDownFirst | lib/test/src/mind/note_test.cpp:256-265 | Moving the first note down reports MOVE 0, 1. |
| OutlineScenarios.FlatDownSecond | lib/test/src/mind/note_test.cpp:267-274 | Moving the second note down reports MOVE 1, 1. |
| OutlineScenarios.FlatDownAgain | lib/test/src/mind/note_test.cpp:276-283 | Moving the first note down restores 1, 2, 3 and reports MOVE 0, 1. |
| OutlineScenarios.DeepUpFour | lib/test/src/mind/note_test.cpp:354-370 | Moving "4" with "44" up over "3", "33", "333" reports MOVE 2, 4. |
| OutlineScenarios.DeepDownFour | lib/test/src/mind/note_test.cpp:372-388 | Moving "4" back down restores the outline and reports MOVE 2, 4. |
| OutlineScenarios.DeepDownBelowFive | lib/test/src/mind/note_test.cpp:390-404 | Moving "4" down below "5" reports MOVE 5, 2. |
| OutlineScenarios.DeepDownBelowSix | lib/test/src/mind/note_test.cpp:406-420 | Moving "4" down below "6" reports MOVE 6, 2. |
| OutlineScenarios.DeepDownAtEnd | lib/test/src/mind/note_test.cpp:422-434 | Moving the last subtree down changes nothing and reports NO. |
| OutlineScenarios.DeepUpThree | lib/test/src/mind/note_test.cpp:436-452 | Moving "3" with its subtree up over "2" reports MOVE 1, 3. |
| OutlineScenarios.DeepUpThreeToTop | lib/test/src/mind/note_test.cpp:454-468 | Moving "3" up over "1" reports MOVE 0, 3. |
| OutlineScenarios.DeepUpAtTop | lib/test/src/mind/note_test.cpp:470-482 | Moving the first note up changes nothing and reports NO. |
| OutlineScenarios.DeepFirstTwo | lib/test/src/mind/note_test.cpp:484-500 | Moving "2" to first reports MOVE 0, 4. |
| OutlineScenarios.DeepFirstFour | lib/test/src/mind/note_test.cpp:502-516 | Moving "4" with "44" to first reports MOVE 0, 8. |
| OutlineScenarios.DeepFirstAtTop | lib/test/src/mind/note_test.cpp:518-530 | Moving the first note to first changes nothing and reports NO. |
| OutlineScenarios.DeepLastOne | lib/test/src/mind/note_test.cpp:532-548 | Moving "1" to last reports MOVE 6, 2. |
| OutlineScenarios.DeepLastThree | lib/test/src/mind/note_test.cpp:550-564 | Moving "3" with its subtree to last reports MOVE 3, 5. |
| OutlineScenarios.DeepLastAtEnd | lib/test/src/mind/note_test.cpp:566-578 | Moving the subtree that already ends the outline to last changes nothing and reports NO. |
| OutlineScenarios.DeepCloneLeaf | lib/test/src/mind/note_test.cpp:580-598 | Cloning "5" puts a copy right after it, with depth 0, one read and revision one. |
| OutlineScenarios.DeepCloneWithChild | lib/test/src/mind/note_test.cpp:599-621 | Cloning "4" copies "44" along, right after the original subtree. |
| OutlineScenarios.DeepCloneAtEnd | lib/test/src/mind/note_test.cpp:622-650 | Cloning "3" copies its three-level subtree to the end, at depths 0, 1, 2. |
| OutlineScenarios.DeepCloneOfClone | lib/test/src/mind/note_test.cpp:651-678 | Cloning the copied "33" copies it with its child, again fresh. |
| OutlineScenarios.StencilInsertions | lib/test/src/mind/note_test.cpp:80-112 | Inserting at offsets 0 and 2 and then demoting the deep note gives the four notes in the tested order. |
| OutlineScenarios.StencilForgets | lib/test/src/mind/note_test.cpp:114-131 | Forgetting notes 3, 1 and 0 leaves four, three, two and then no notes; the deep note goes with its parent. |
| OutlineScenarios.RefactorThree | lib/test/src/mind/note_test.cpp:769-789 | Refactoring "3" leaves the source 1, 2, 4, 44, 5, 6 and makes the target start 3, 33, 333, A, twelve notes in all. |
| Mangling.Mangle | lib/test/src/mind/note_test.cpp:838-844 | The anchor of a name is no longer than the name and holds only lower-case ASCII letters, digits and hyphens. |
| Mangling.MangleIsAnchor | lib/test/src/mind/note_test.cpp:838-844 | A mangled name is no longer than the name and is made of anchor characters only; it is empty exactly when the name has no kept character. |
| Mangling.MangleAppend | lib/test/src/mind/note_test.cpp:838-844 | Mangling works character by character: the mangled concatenation is the concatenation of the mangled parts. |
| Mangling.MangleAnchorUnchanged | lib/test/src/mind/note_test.cpp:838-844 | A name that is already an anchor is unchanged. |
| Mangling.MangleIdempotent | lib/test/src/mind/note_test.cpp:838-844 | Mangling twice is mangling once. |
| Mangling.MangleKeepsSpaceRuns | lib/test/src/mind/note_test.cpp:842 | A run of n spaces becomes n hyphens: runs are neither collapsed nor trimmed. |
| Mangling.MangleFixtureSpace | lib/test/src/mind/note_test.cpp:839 | "Section with space" mangles to "section-with-space". |
| Mangling.MangleFixtureNumber | lib/test/src/mind/note_test.cpp:840 | "Section with 123 number" mangles to "section-with-123-number". |
| Mangling.MangleFixtureQuestion | lib/test/src/mind/note_test.cpp:841 | "Question?" mangles to "question". |
| Mangling.MangleFixtureSpaceRun | lib/test/src/mind/note_test.cpp:842 | "Leading    within and trailing spaces" mangles to "leading----within-and-trailing-spaces". |
| Mangling.MangleFixturePunctuationOnly | lib/test/src/mind/note_test.cpp:843-844 | "?" and "@$%^&*(" mangle to the empty string. |
| Paths.CutAnchor | lib/test/src/indexer/repository_indexer_test.cpp:482-529 | Cutting at the first '#' gives a '#'-free path; with a '#' the target is path, '#', anchor; without, the anchor is empty. |
| Paths.WithAnchor | lib/test/src/indexer/repository_indexer_test.cpp:524-529 | An empty anchor adds nothing; otherwise the link is the path, '#' and the anchor. |
| Paths.CutAnchorOf | lib/test/src/indexer/repository_indexer_test.cpp:482-519 | Cutting path + "#" + anchor recovers the path and the anchor. |
| Paths.CutWithAnchor | lib/test/src/indexer/repository_indexer_test.cpp:482-519 | Putting an anchor on a '#'-free path and cutting it off again are inverse. |
| Paths.DirnameBasename | lib/test/src/indexer/repository_indexer_test.cpp:61-72 | A path with a '/' is its directory, a '/' and its file name. |
| Paths.NoDirectory | lib/test/src/indexer/repository_indexer_test.cpp:642-646 | A path without '/' is a bare file name in the empty directory. |
| Paths.CommonPrefix | lib/test/src/indexer/repository_indexer_test.cpp:510-519 | The computed length is the longest common prefix: the lists agree up to it and differ right after it, unless one ends there. |
| Paths.ClimbUps | lib/test/src/indexer/repository_indexer_test.cpp:500-509 | n ".." steps from a directory at least n deep go up n levels, and the rest descends. |
| Paths.Relative | lib/test/src/indexer/repository_indexer_test.cpp:481-519 | Following the relative path, segment by segment, from the source directory lands exactly on the target's segments, when these are normalised and contain no '/'. |
| Paths.Resolve | lib/test/src/indexer/repository_indexer_test.cpp:648-656 | A bare file name (no '/', not "..") resolves to that file in the source file's directory. |
| Paths.RelativeResolves | lib/test/src/indexer/repository_indexer_test.cpp:481-519 | A relative link computed for a normalised target resolves back to that target from the source file. |
| Paths.ResolveSibling | lib/test/src/indexer/repository_indexer_test.cpp:648-656 | A bare file name resolves, from a file in the same directory, to that file. |
| Repositories.ForPath | lib/test/src/indexer/repository_indexer_test.cpp:34-88 | Only a missing path fails; a file gives FILE mode in its directory with its file name, a directory a REPOSITORY at that path, and only a plain directory is MARKDOWN. |
| Repositories.FileRepositoryLocatesFile | lib/test/src/indexer/repository_indexer_test.cpp:60-72 | A FILE repository's directory, '/' and file name spell the path it was opened with. |
| Repositories.IndexFiles | lib/test/src/indexer/repository_indexer_test.cpp:131-141 | A FILE repository indexes its one file and no stencils. A MINDFORGER tree lists as outlines exactly the given Markdown files under `memory/`, and as note and outline stencils exactly those under `stencils/notes/` and `stencils/notebooks/`. A MARKDOWN tree lists exactly the given Markdown files and no stencils. |
| Repositories.IndexPartitions | lib/test/src/indexer/repository_indexer_test.cpp:131-141 | In a MINDFORGER tree, documents, note stencils and outline stencils are disjoint. |
| Repositories.ResolveFormat | lib/test/src/indexer/repository_indexer_test.cpp:320-412 | Metadata forces MINDFORGER, a MINDFORGER tree is always MINDFORGER, and the format is MARKDOWN exactly when there is no metadata and the repository is a MARKDOWN tree or a single file. |
| Repositories.AfterLoad | lib/test/src/indexer/repository_indexer_test.cpp:316-401 | Loading keeps directory, file and mode; a tree keeps its type; a single file becomes MINDFORGER exactly when its document resolves to MINDFORGER. |
| Repositories.AfterLoadStable | lib/test/src/indexer/repository_indexer_test.cpp:316-331 | Loading again changes neither the repository nor the resolved format. |
| Repositories.MakePathRelative | lib/test/src/indexer/repository_indexer_test.cpp:481-668 | A link into the source file is "#anchor", or the file name without an anchor. A link to another file keeps the target's anchor. Its path is, in FILE mode, the file name for a target in the source's directory and the target path otherwise; in a tree, the relative path for a target inside the repository and the target path outside it. |
| Repositories.SameFileLink | lib/test/src/indexer/repository_indexer_test.cpp:521-529 | A link into the source file is "#anchor", or the file name when the anchor is empty or absent. |
| Repositories.TreeLinkResolves | lib/test/src/indexer/repository_indexer_test.cpp:481-519 | In a tree, a link to another file inside the repository keeps the anchor, and its path resolves back to the target from the source. |
| Repositories.RelativeFree | lib/test/src/indexer/repository_indexer_test.cpp:486-519 | A relative path between '#'-free segments has no '#', so the anchor is found again. |
| Repositories.FileModeLinks | lib/test/src/indexer/repository_indexer_test.cpp:647-668 | In FILE mode a link to another directory is the target unchanged, anchor included; one in the same directory is its file name with the anchor, and that name resolves to the target. |
| Repositories.OutsideLinkUnchanged | lib/test/src/indexer/repository_indexer_test.cpp:531-541 | A target outside the repository keeps its path and anchor; a target without '#' is returned exactly as given. |
| RepositoryScenarios.LinkSameDirectory | lib/test/src/indexer/repository_indexer_test.cpp:481-489 | In both test repositories, a sibling file links as "dst.md" and "dst.md#n1". |
| RepositoryScenarios.LinkDescendant | lib/test/src/indexer/repository_indexer_test.cpp:491-499 | A file below links as "a/b/c/dst.md", with and without "#n1". |
| RepositoryScenarios.LinkAncestor | lib/test/src/indexer/repository_indexer_test.cpp:501-509 | A file three levels up links as "../../../dst.md", with and without "#n1". |
| RepositoryScenarios.LinkCousin | lib/test/src/indexer/repository_indexer_test.cpp:511-519 | A file in a cousin directory links as "../../A/B/dst.md", with and without "#n1". |
| RepositoryScenarios.LinkSameFile | lib/test/src/indexer/repository_indexer_test.cpp:521-529 | A link into the same file is "#n1", and "src.md" with an empty anchor. |
| RepositoryScenarios.LinkOutside | lib/test/src/indexer/repository_indexer_test.cpp:531-541 | "/tmp/dst.md" and "/" are outside the repository and stay as they are. |
| RepositoryScenarios.LinkEmpty | lib/test/src/indexer/repository_indexer_test.cpp:542-545 | An empty source and target give an empty link. |
| RepositoryScenarios.FileLinkSameFile | lib/test/src/indexer/repository_indexer_test.cpp:634-641 | In FILE mode, a link into the file is "#n1", and "first.md" with an empty anchor. |
| RepositoryScenarios.FileLinkBareName | lib/test/src/indexer/repository_indexer_test.cpp:642-646 | Given as bare file names, "first.md#n1" from "first.md" is "#n1". |
| RepositoryScenarios.FileLinkSameDirectory | lib/test/src/indexer/repository_indexer_test.cpp:648-656 | In FILE mode, a file in the same directory links as "dst.md" and "dst.md#n1". |
| RepositoryScenarios.FileLinkElsewhere | lib/test/src/indexer/repository_indexer_test.cpp:658-668 | In FILE mode, a file in a subdirectory keeps its absolute path, anchor included. |
| RepositoryScenarios.FileRepositoryOf | lib/test/src/indexer/repository_indexer_test.cpp:60-87 | A file opens as a provisionally MINDFORGER FILE repository in its directory. |
| RepositoryScenarios.RepositoryTypeDetection | lib/test/src/indexer/repository_indexer_test.cpp:34-88 | The basic repository is a MINDFORGER tree, its memory directory a MARKDOWN tree, and both of its documents open as MINDFORGER files. |
| RepositoryScenarios.IndexMindForgerTree | lib/test/src/indexer/repository_indexer_test.cpp:131-141 | Two documents under memory/ index as 2 outlines, 2 Markdown files and no stencils. |
| RepositoryScenarios.IndexMarkdownTree | lib/test/src/indexer/repository_indexer_test.cpp:223-233 | Two documents in a plain directory index as 2, 2, 0, 0. |
| RepositoryScenarios.IndexSingleFile | lib/test/src/indexer/repository_indexer_test.cpp:305-308 | A single file indexes as 1, 1, 0, 0, whatever lies next to it. |
| RepositoryScenarios.FormatAfterLoad | lib/test/src/indexer/repository_indexer_test.cpp:158-412 | A MINDFORGER tree loads MINDFORGER without metadata, a plain tree MARKDOWN; a single file is MINDFORGER with metadata and MARKDOWN without, and its repository type follows. |
| Markdown.Hashes | lib/test/src/mind/note_test.cpp:62 | The leading hashes of a line are counted, and the character after them is not a hash. |
| Markdown.HeadingText | lib/test/src/mind/note_test.cpp:814 | The name is the heading text after the hashes with the padding spaces on both sides removed: all of that text when there is no metadata block, and the text before the first metadata marker when there is one; metadata is reported exactly when the marker occurs. |
| Markdown.ParseHeading | lib/test/src/mind/note_test.cpp:62 | A line is a heading exactly when it starts with '#'; its level is the number of leading hashes, the character after them is not a hash, and its name is trimmed. |
| Markdown.ParseHeadingName | lib/test/src/mind/note_test.cpp:805-821 | A heading line's name is the text after its hashes without the padding spaces: all of it without a metadata block, the part before the first marker with one. |
| Markdown.PlainText | lib/test/src/mind/note_test.cpp:62 | A trimmed name without '<' after one space reads back as that name, without metadata. |
| Markdown.MetaText | lib/test/src/indexer/repository_indexer_test.cpp:283-291 | A name followed by a metadata block reads back as that name, with metadata. |
| Markdown.CanonicalHeading | lib/test/src/indexer/repository_indexer_test.cpp:263-271 | A heading written by the saver reads back with its level and name and without metadata. |
| Markdown.PaddedHeading | lib/test/src/mind/note_test.cpp:62 | Hashes, any number of spaces and a name read back as that level and name; "##Note 2" needs no space. |
| Markdown.CanonicalMetaHeading | lib/test/src/indexer/repository_indexer_test.cpp:170-177 | A heading written with a metadata block reads back with its level, its name and metadata. |
| Markdown.Chunk | lib/test/src/indexer/repository_indexer_test.cpp:96-107 | Chunking a document's lines gives heading-free lead lines and sections that put back together make exactly those lines. |
| Markdown.ChunkInverse | lib/test/src/indexer/repository_indexer_test.cpp:424-432 | Chunking the lines of a lead and sections gives back that lead and those sections. |
| Markdown.ToNote | lib/test/src/mind/note_test.cpp:148-184 | A section becomes a note with the heading's name, depth = level − 1, the section's body and its raw heading line. |
| Markdown.ToNotes | lib/test/src/mind/note_test.cpp:286-335 | Each section becomes a note, in order. |
| Markdown.ChunkHeadings | lib/test/src/indexer/repository_indexer_test.cpp:96-107 | Chunking makes one section per heading line, and the sections' headings are the document's heading lines in order. |
| Markdown.Parse | lib/test/src/mind/note_test.cpp:62-112 | A loaded outline keeps its key; its lead is the heading-free opening lines of the text; it has one note, title included, per heading line of the text. |
| Markdown.ParseFollowsHeadings | lib/test/src/mind/note_test.cpp:62-112 | The k-th note of a loaded outline, title first, takes its name from the k-th heading line of the text and its depth from that heading's level minus one. |
| Markdown.Serialize | lib/test/src/indexer/repository_indexer_test.cpp:424-432 | When an outline has a line to save and none holds a line break, cutting the saved text at line breaks gives exactly the saved lines. |
| Markdown.MarkdownKeepsHeadings | lib/test/src/indexer/repository_indexer_test.cpp:424-432 | Sections without metadata are saved in MARKDOWN with exactly the same headings and bodies. |
| Markdown.MarkdownFidelity | lib/test/src/indexer/repository_indexer_test.cpp:424-432 | A document loaded as MARKDOWN is saved back byte for byte. |
| Markdown.MindForgerHeadingMeta | lib/test/src/indexer/repository_indexer_test.cpp:174-177 | A MINDFORGER note is saved with a metadata block, and its heading reads back as its level and name. |
| Markdown.MarkdownHeadingPlain | lib/test/src/indexer/repository_indexer_test.cpp:266-271 | A MARKDOWN note is saved without metadata, and its heading reads back as its level and name. |
| Markdown.MarkdownRenamed | lib/test/src/indexer/repository_indexer_test.cpp:266-271 | A renamed MARKDOWN note is saved with a fresh heading of its level and new name. |
| Markdown.SavedHeadingReads | lib/test/src/indexer/repository_indexer_test.cpp:170-177 | A saved heading is one line and reads back as the note's level and name, with metadata exactly in MINDFORGER. |
| Markdown.SavedMetadata | lib/test/src/indexer/repository_indexer_test.cpp:344-439 | Saved notes carry metadata exactly when the format is MINDFORGER. |
| Markdown.SaveWritesMetadata | lib/test/src/indexer/repository_indexer_test.cpp:344-439 | Saving an outline writes metadata exactly when it is MINDFORGER. |
| Markdown.SavedContent | lib/test/src/indexer/repository_indexer_test.cpp:424-432 | Each saved note loads back with the same name, depth and body. |
| Markdown.SaveLoad | lib/test/src/indexer/repository_indexer_test.cpp:424-432 | Loading a saved outline gives the same lead, the same notes by name, depth and body, and the format the saved metadata implies. |
| MarkdownScenarios.Loads | lib/test/src/indexer/repository_indexer_test.cpp:96-107 | A document of one-line headings and plain bodies loads with no lead, a title, and one note per section. |
| MarkdownScenarios.LoadsThree | lib/test/src/indexer/repository_indexer_test.cpp:96-107 | A three-section document loads as its first section's title and two notes. |
| MarkdownScenarios.GluedHeading | lib/test/src/mind/note_test.cpp:62 | "##Note 2" is a level-2 heading named "Note 2". |
| MarkdownScenarios.SpaceRunHeading | lib/test/src/mind/note_test.cpp:814-842 | "#   Leading    within and trailing spaces" reads as that name and mangles to "leading----within-and-trailing-spaces". |
| MarkdownScenarios.Retitled | lib/test/src/indexer/repository_indexer_test.cpp:266-271 | Renaming an outline changes its name and nothing else. |
| MarkdownScenarios.MindForgerTreeWritesMetadata | lib/test/src/indexer/repository_indexer_test.cpp:96-177 | The MINDFORGER tree's document has no metadata but loads as MINDFORGER "First Outline" with two notes, and saving it writes metadata. |
| MarkdownScenarios.MarkdownTreeKeepsText | lib/test/src/indexer/repository_indexer_test.cpp:190-271 | The plain tree's document loads as MARKDOWN "First Markdown" and saves back unchanged; renamed to "Dirty" it writes "# Dirty" and no metadata. |
| MarkdownScenarios.MarkdownFileKeepsText | lib/test/src/indexer/repository_indexer_test.cpp:362-439 | The single Markdown file makes the repository MARKDOWN, loads as MARKDOWN, saves back byte for byte, and writes no metadata after a rename. |
| MarkdownScenarios.MindForgerFileKeepsMetadata | lib/test/src/indexer/repository_indexer_test.cpp:283-352 | The single file with metadata makes the repository MINDFORGER, loads as MINDFORGER "First Outline", and keeps writing metadata after a rename. |
| MarkdownScenarios.GluedNoteLoads | lib/test/src/mind/note_test.cpp:62-112 | "Test Outline" loads with notes "Note 1" and "Note 2", both at depth 1. |

## Left out

- File I/O, filesystem probing and the git checkout's home directory are not modelled. A path's kind is a parameter, and so are the files under a repository and the checkout directory. The test's `setMode`/`setFile` calls appear as a FILE-mode `Repository` value.
- The learn/think/remember orchestration is not modelled. `think()` runs as a background future, and concurrency has no counterpart here.
- Ontology, tags, note types, stencil content, timestamps, importance, urgency and progress are not modelled. They are collaborators whose implementation is not shown.
- Debug printing (`dumpOutline`, `print`) is not modelled.
- Outlines.Demote: the optional patch argument is not modelled. A call without a patch leaves the caller's earlier patch in place, so those scenarios compare the notes only.
- Outlines.Promote: for a NO patch, start is the note's index and count is 0. The tests pin only the diff.
- Outlines.MoveToFirst: for a NO patch, start is the note's index and count is 0. The tests pin only the diff.
- Outlines.MoveToLast: for a NO patch, start is the note's index and count is 0. The tests pin only the diff.
- Outlines.MoveUp: for a NO patch, start is the note's index and count is 0. The tests pin only the diff.
- Outlines.MoveDown: for a NO patch, start is the note's index and count is 0. The tests pin only the diff.
- Outlines.Fresh: a copy's read count and revision are set to 1. The tests pin this for clones; timestamps are not modelled.
- Outlines.NoteRefactor: only the note sequences of the two outlines change. Re-keying notes and marking outlines dirty are not modelled.
- Mangling.Mangle: letters outside ASCII are dropped like punctuation, so "Café" mangles to "caf". The tests use ASCII names only.
- Mangling.Mangle: GitHub's `-1` suffix for punctuation-only names is not modelled. It is noted beside the test fixture, and the assertions expect "".
- Paths.CutAnchor: an empty anchor (`x#`) is treated like no anchor, so the link is `x`. This is what the same-file tests show.
- Repositories.ForPath: a repository's read-only flag is not modelled. It depends on filesystem permissions, and every test repository is writable.
- Repositories.IndexFiles: the Markdown file list is the outline list. The tests show equal counts.
- Markdown.Parse: metadata values are not parsed, so a loaded note starts with read count 0 and revision 0. Only the presence of a metadata block counts.
- Markdown.MetadataBlock: the written block holds only reads and revision. The other fields are timestamps and ontology, which are not modelled.
- Markdown.ParseHeading: the heading level is not capped at 6. Code fences are not recognised, so a `#` line inside a fence is a heading.
- Markdown.Chunk: lines before the first heading are kept as the outline's lead and saved back unchanged.
- MarkdownScenarios.MindForgerFileKeepsMetadata: the metadata fields after the marker are parameters without line breaks, not the test's literal values.
