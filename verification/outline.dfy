/**
 * The outline edit engine. An outline keeps its notes in one flat sequence in
 * document order; the tree is implicit in the depths. The subtree of a note
 * is the note together with the maximal run of strictly deeper notes that
 * follows it, and every structural edit moves, copies or removes whole
 * subtrees. Edits that a view has to redraw report a Patch.
 */
module Outlines {
  import opened Wrappers
  import opened Sequences

  /**
   * A note: its name (the trimmed heading text), its depth (heading level - 1),
   * its read and revision counters, its body lines, and the raw heading line
   * it was loaded from (None for a note created in memory).
   */
  datatype Note = Note(name: string, depth: nat, readCount: nat, revision: nat, body: seq<string>, heading: Option<string>)

  /** What an edit changed: nothing, depths only, or the order of notes. */
  datatype Diff = NO | CHANGE | MOVE

  /** The affected index range: from `start` to `start + count` inclusive (count is last - start, not a length). */
  datatype Patch = Patch(diff: Diff, start: nat, count: nat)

  /** The notes after an edit and the patch describing it. */
  datatype Edit = Edit(notes: seq<Note>, patch: Patch)

  /** The dialect an outline is stored in. */
  datatype Format = MINDFORGER | MARKDOWN

  /**
   * An outline: its key (the file path), its format, the lines before its
   * first heading, its title (the first heading, with the outline's own
   * text as its body; None for a document without headings) and its notes.
   */
  datatype Outline = Outline(key: string, format: Format, lead: seq<string>, title: Option<Note>, notes: seq<Note>)
  {
    /** The outline's name is its title's name. */
    function Name(): string
    {
      if title.Some? then title.value.name else ""
    }
  }

  /** A patch that reports nothing changed; the start is the index of the note the edit was asked for. */
  function NoPatch(i: nat): Patch { Patch(NO, i, 0) }

  // ---------------------------------------------------------------------------
  // Subtrees
  // ---------------------------------------------------------------------------

  /** End (exclusive) of the run of notes deeper than `d` that starts at `j`. */
  function RunEnd(s: seq<Note>, j: nat, d: nat): (e: nat)
    requires j <= |s|
    ensures j <= e <= |s|
    decreases |s| - j
  {
    if j < |s| && s[j].depth > d then RunEnd(s, j + 1, d) else j
  }

  /** The run is made of deeper notes only, and it stops at the first note that is not deeper. */
  lemma {:induction false} RunEndSpec(s: seq<Note>, j: nat, d: nat)
    requires j <= |s|
    ensures forall k :: j <= k < RunEnd(s, j, d) ==> s[k].depth > d
    ensures RunEnd(s, j, d) == |s| || s[RunEnd(s, j, d)].depth <= d
    decreases |s| - j
  {
    if j < |s| && s[j].depth > d {
      RunEndSpec(s, j + 1, d);
    }
  }

  /**
   * `e` closes the subtree of `i`: every note after the root up to `e` is
   * deeper than the root, and the note after `e` (if any) is not.
   */
  predicate IsSubtreeEnd(s: seq<Note>, i: nat, e: nat)
    requires i <= e < |s|
  {
    && (forall k :: i < k <= e ==> s[k].depth > s[i].depth)
    && (e + 1 == |s| || s[e + 1].depth <= s[i].depth)
  }

  /** Index of the last note of the subtree rooted at `i`. */
  function SubtreeEnd(s: seq<Note>, i: nat): (e: nat)
    requires i < |s|
    ensures i <= e < |s|
    ensures IsSubtreeEnd(s, i, e)
  {
    RunEndSpec(s, i + 1, s[i].depth);
    RunEnd(s, i + 1, s[i].depth) - 1
  }

  /** SubtreeEnd does close the subtree. */
  lemma SubtreeEndSpec(s: seq<Note>, i: nat)
    requires i < |s|
    ensures IsSubtreeEnd(s, i, SubtreeEnd(s, i))
  {
    RunEndSpec(s, i + 1, s[i].depth);
  }

  /** Only one index closes the subtree. */
  lemma SubtreeEndIs(s: seq<Note>, i: nat, q: nat)
    requires i <= q < |s| && IsSubtreeEnd(s, i, q)
    ensures SubtreeEnd(s, i) == q
  {
    SubtreeEndSpec(s, i);
  }

  /** The subtree end found by stepping forward from the root while the next note is deeper. */
  method SubtreeEndScan(s: seq<Note>, i: nat) returns (e: nat)
    requires i < |s|
    ensures i <= e < |s| && IsSubtreeEnd(s, i, e)
    ensures e == SubtreeEnd(s, i)
  {
    e := i;
    while e + 1 < |s| && s[e + 1].depth > s[i].depth
      invariant i <= e < |s|
      invariant forall k :: i < k <= e ==> s[k].depth > s[i].depth
      decreases |s| - e
    {
      e := e + 1;
    }
    SubtreeEndIs(s, i, e);
  }

  /** The subtree rooted at `i`. */
  function Subtree(s: seq<Note>, i: nat): (t: seq<Note>)
    requires i < |s|
    ensures |t| == SubtreeEnd(s, i) + 1 - i && t[0] == s[i]
  {
    s[i..SubtreeEnd(s, i) + 1]
  }

  /** The last index before `i` whose depth is at most `d`, if any. */
  function LastAtMost(s: seq<Note>, i: nat, d: nat): (r: Option<nat>)
    requires i <= |s|
    ensures r.Some? ==> r.value < i && s[r.value].depth <= d
    decreases i
  {
    if i == 0 then None
    else if s[i - 1].depth <= d then Some(i - 1)
    else LastAtMost(s, i - 1, d)
  }

  /** Everything between the index found and `i` is deeper than `d`; when none is found, everything before `i` is. */
  lemma {:induction false} LastAtMostSpec(s: seq<Note>, i: nat, d: nat)
    requires i <= |s|
    ensures LastAtMost(s, i, d).Some? ==> forall k :: LastAtMost(s, i, d).value < k < i ==> s[k].depth > d
    ensures LastAtMost(s, i, d).None? ==> forall k :: 0 <= k < i ==> s[k].depth > d
    decreases i
  {
    if i > 0 && s[i - 1].depth > d {
      LastAtMostSpec(s, i - 1, d);
    }
  }

  /**
   * The sibling right above `i`: the nearest earlier note at the same depth
   * with only deeper notes in between. A shallower note in between (the
   * parent) means there is none.
   */
  function PrevSibling(s: seq<Note>, i: nat): (r: Option<nat>)
    requires i < |s|
    ensures r.Some? ==> r.value < i && SiblingAbove(s, r.value, i)
    ensures r.None? ==> forall j :: 0 <= j < i ==> !SiblingAbove(s, j, i)
  {
    LastAtMostSpec(s, i, s[i].depth);
    match LastAtMost(s, i, s[i].depth)
    case Some(j) => if s[j].depth == s[i].depth then Some(j) else None
    case None => None
  }

  /** `j` is an earlier note at the depth of `i` with only deeper notes between them. */
  predicate SiblingAbove(s: seq<Note>, j: nat, i: nat)
    requires j < i < |s|
  {
    s[j].depth == s[i].depth && forall k :: j < k < i ==> s[k].depth > s[i].depth
  }

  /** PrevSibling finds exactly the sibling above, when there is one. */
  lemma PrevSiblingSpec(s: seq<Note>, i: nat, j: nat)
    requires j < i < |s|
    ensures PrevSibling(s, i) == Some(j) <==> SiblingAbove(s, j, i)
  {
    LastAtMostSpec(s, i, s[i].depth);
  }

  /** The subtree of the sibling above runs right up to the note. */
  lemma SiblingAboveSubtree(s: seq<Note>, j: nat, i: nat)
    requires j < i < |s| && SiblingAbove(s, j, i)
    ensures SubtreeEnd(s, j) + 1 == i
  {
    SubtreeEndIs(s, j, i - 1);
  }

  // ---------------------------------------------------------------------------
  // Promote and demote
  // ---------------------------------------------------------------------------

  /**
   * Demote: the note and its whole subtree go one level deeper; no other
   * note changes. The patch covers the subtree.
   */
  function Demote(s: seq<Note>, i: nat): (r: Edit)
    requires i < |s|
    ensures |r.notes| == |s|
    ensures r.patch == Patch(CHANGE, i, SubtreeEnd(s, i) - i)
    ensures forall k :: 0 <= k < |s| ==> r.notes[k] == s[k].(depth := r.notes[k].depth)
    ensures forall k :: 0 <= k < |s| ==>
              r.notes[k].depth == if i <= k <= SubtreeEnd(s, i) then s[k].depth + 1 else s[k].depth
  {
    var e := SubtreeEnd(s, i);
    var t := seq(|s|, k requires 0 <= k < |s| => if i <= k <= e then s[k].(depth := s[k].depth + 1) else s[k]);
    Edit(t, Patch(CHANGE, i, e - i))
  }

  /**
   * Promote: the note and its whole subtree go one level up; no other note
   * changes. A top-level note cannot be promoted and nothing happens.
   */
  function Promote(s: seq<Note>, i: nat): (r: Edit)
    requires i < |s|
    ensures |r.notes| == |s|
    ensures s[i].depth == 0 <==> r.patch.diff == NO
    ensures s[i].depth == 0 ==> r.notes == s && r.patch == NoPatch(i)
    ensures s[i].depth > 0 ==> r.patch == Patch(CHANGE, i, SubtreeEnd(s, i) - i)
    ensures forall k :: 0 <= k < |s| ==> r.notes[k] == s[k].(depth := r.notes[k].depth)
    ensures s[i].depth > 0 ==> forall k :: 0 <= k < |s| ==>
              r.notes[k].depth == if i <= k <= SubtreeEnd(s, i) then s[k].depth - 1 else s[k].depth
  {
    if s[i].depth == 0 then Edit(s, NoPatch(i))
    else
      var e := SubtreeEnd(s, i);
      SubtreeEndSpec(s, i);
      var t := seq(|s|, k requires 0 <= k < |s| =>
                 if i <= k <= e && s[k].depth > 0 then s[k].(depth := s[k].depth - 1) else s[k]);
      Edit(t, Patch(CHANGE, i, e - i))
  }

  /** Demoting keeps the subtree's extent: the note after it is still no deeper than the root. */
  lemma DemoteKeepsSubtree(s: seq<Note>, i: nat)
    requires i < |s|
    ensures SubtreeEnd(Demote(s, i).notes, i) == SubtreeEnd(s, i)
  {
    SubtreeEndSpec(s, i);
    SubtreeEndIs(Demote(s, i).notes, i, SubtreeEnd(s, i));
  }

  /** Promote undoes Demote, with the same patch. */
  lemma PromoteUndoesDemote(s: seq<Note>, i: nat)
    requires i < |s|
    ensures Promote(Demote(s, i).notes, i).notes == s
    ensures Promote(Demote(s, i).notes, i).patch == Demote(s, i).patch
  {
    var t := Demote(s, i).notes;
    DemoteKeepsSubtree(s, i);
    var r := Promote(t, i).notes;
    assert forall k :: 0 <= k < |s| ==> r[k] == s[k];
  }

  /**
   * Demote undoes Promote only when the note after the subtree is shallower
   * than the note (or there is none); a following sibling would otherwise be
   * swallowed into the demoted subtree.
   */
  lemma DemoteUndoesPromote(s: seq<Note>, i: nat)
    requires i < |s| && s[i].depth > 0
    requires SubtreeEnd(s, i) + 1 == |s| || s[SubtreeEnd(s, i) + 1].depth < s[i].depth
    ensures Demote(Promote(s, i).notes, i).notes == s
    ensures Demote(Promote(s, i).notes, i).patch == Promote(s, i).patch
  {
    var e := SubtreeEnd(s, i);
    var t := Promote(s, i).notes;
    SubtreeEndSpec(s, i);
    SubtreeEndIs(t, i, e);
    var r := Demote(t, i).notes;
    assert forall k :: 0 <= k < |s| ==> r[k] == s[k];
  }

  /** The swallowing case: "2" (depth 1) followed by its sibling "3" (depth 1). */
  lemma DemoteAfterPromoteSwallowsSibling()
    ensures var s := [Note("2", 1, 0, 0, [], None), Note("3", 1, 0, 0, [], None)];
            Demote(Promote(s, 0).notes, 0).notes != s
  {
    var s := [Note("2", 1, 0, 0, [], None), Note("3", 1, 0, 0, [], None)];
    SubtreeEndIs(s, 0, 0);
    var t := Promote(s, 0).notes;
    assert t[0].depth == 0 && t[1].depth == 1;
    SubtreeEndIs(t, 0, 1);
    assert Demote(t, 0).notes[1].depth == 2;
  }

  // ---------------------------------------------------------------------------
  // Moving subtrees
  // ---------------------------------------------------------------------------

  /**
   * Move up: swap the subtree of `i` with the subtree of its previous
   * sibling. Without such a sibling (first note, or first child) nothing
   * happens. The patch runs from the sibling to the end of the subtree.
   */
  function MoveUp(s: seq<Note>, i: nat): (r: Edit)
    requires i < |s|
    ensures |r.notes| == |s|
    ensures r.patch.diff == MOVE <==> PrevSibling(s, i).Some?
    ensures r.patch.diff != MOVE ==> r.notes == s && r.patch == NoPatch(i)
    ensures r.patch.diff == MOVE ==>
              r.patch == Patch(MOVE, PrevSibling(s, i).value, SubtreeEnd(s, i) - PrevSibling(s, i).value)
  {
    match PrevSibling(s, i)
    case None => Edit(s, NoPatch(i))
    case Some(j) =>
      var e := SubtreeEnd(s, i);
      Edit(Swap(s, j, i, e + 1), Patch(MOVE, j, e - j))
  }

  /** With a previous sibling j whose subtree ends before `i`, move up is the swap of the two subtrees. */
  lemma MoveUpAt(s: seq<Note>, j: nat, i: nat, c: nat)
    requires j < i < c <= |s| && PrevSibling(s, i) == Some(j) && SubtreeEnd(s, i) + 1 == c
    ensures MoveUp(s, i).notes == Swap(s, j, i, c)
    ensures MoveUp(s, i).patch == Patch(MOVE, j, c - 1 - j)
  {
  }

  /**
   * After a move up the outline reads: what came before the sibling, the
   * note's subtree, the sibling's subtree, the rest; no note is lost or
   * duplicated.
   */
  lemma MoveUpSpec(s: seq<Note>, i: nat)
    requires i < |s| && PrevSibling(s, i).Some?
    ensures var j := PrevSibling(s, i).value;
            MoveUp(s, i).notes == s[..j] + Subtree(s, i) + Subtree(s, j) + s[SubtreeEnd(s, i) + 1..]
    ensures multiset(MoveUp(s, i).notes) == multiset(s)
  {
    var j := PrevSibling(s, i).value;
    var c := SubtreeEnd(s, i) + 1;
    var m := j + (c - i);
    assert SubtreeEnd(s, j) + 1 == i by {
      PrevSiblingSpec(s, i, j);
      SiblingAboveSubtree(s, j, i);
    }
    MoveUpAt(s, j, i, c);
    SwapSpec(s, j, i, c, m);
  }

  /**
   * Move down: swap the subtree of `i` with the subtree of the next sibling,
   * which must start right after it. If the subtree ends the outline, or the
   * note after it is shallower, nothing happens.
   */
  function MoveDown(s: seq<Note>, i: nat): (r: Edit)
    requires i < |s|
    ensures |r.notes| == |s|
    ensures r.patch.diff == MOVE <==> SubtreeEnd(s, i) + 1 < |s| && s[SubtreeEnd(s, i) + 1].depth == s[i].depth
    ensures r.patch.diff != MOVE ==> r.notes == s && r.patch == NoPatch(i)
    ensures r.patch.diff == MOVE ==> r.patch == Patch(MOVE, i, SubtreeEnd(s, SubtreeEnd(s, i) + 1) - i)
  {
    var e := SubtreeEnd(s, i);
    if e + 1 < |s| && s[e + 1].depth == s[i].depth then
      var f := SubtreeEnd(s, e + 1);
      Edit(Swap(s, i, e + 1, f + 1), Patch(MOVE, i, f - i))
    else Edit(s, NoPatch(i))
  }

  /** With a next sibling at n whose subtree ends before c, move down is the swap of the two subtrees. */
  lemma MoveDownAt(s: seq<Note>, i: nat, n: nat, c: nat)
    requires i < n < c <= |s| && SubtreeEnd(s, i) + 1 == n && s[n].depth == s[i].depth && SubtreeEnd(s, n) + 1 == c
    ensures MoveDown(s, i).notes == Swap(s, i, n, c)
    ensures MoveDown(s, i).patch == Patch(MOVE, i, c - 1 - i)
  {
  }

  /**
   * After a move down the outline reads: what came before the note, the next
   * sibling's subtree, the note's subtree, the rest; no note is lost or
   * duplicated.
   */
  lemma MoveDownSpec(s: seq<Note>, i: nat)
    requires i < |s| && SubtreeEnd(s, i) + 1 < |s| && s[SubtreeEnd(s, i) + 1].depth == s[i].depth
    ensures var n := SubtreeEnd(s, i) + 1;
            MoveDown(s, i).notes == s[..i] + Subtree(s, n) + Subtree(s, i) + s[SubtreeEnd(s, n) + 1..]
    ensures multiset(MoveDown(s, i).notes) == multiset(s)
  {
    var n := SubtreeEnd(s, i) + 1;
    var c := SubtreeEnd(s, n) + 1;
    var m := i + (c - n);
    MoveDownAt(s, i, n, c);
    SwapSpec(s, i, n, c, m);
  }

  /** The depths of a run of notes, in order. */
  function Depths(ns: seq<Note>): (d: seq<nat>)
    ensures |d| == |ns| && forall k :: 0 <= k < |ns| ==> d[k] == ns[k].depth
  {
    seq(|ns|, k requires 0 <= k < |ns| => ns[k].depth)
  }

  /**
   * A run with the depths of a subtree, placed where the note after it is no
   * deeper than its first note, is a subtree there too.
   */
  lemma SubtreeEndMoved(s: seq<Note>, p: nat, pc: nat, t: seq<Note>, q: nat, qc: nat)
    requires p < pc <= |s| && q < qc <= |t| && pc - p == qc - q
    requires Depths(t[q..qc]) == Depths(s[p..pc]) && SubtreeEnd(s, p) + 1 == pc
    requires qc == |t| || t[qc].depth <= t[q].depth
    ensures SubtreeEnd(t, q) + 1 == qc
  {
    SubtreeEndSpec(s, p);
    assert t[q].depth == s[p].depth by {
      assert Depths(t[q..qc])[0] == Depths(s[p..pc])[0];
    }
    forall k | q < k < qc
      ensures t[k].depth > t[q].depth
    {
      assert Depths(t[q..qc])[k - q] == Depths(s[p..pc])[k - q];
      assert s[p..pc][k - q] == s[p + (k - q)];
    }
    SubtreeEndIs(t, q, qc - 1);
  }

  /**
   * When s[a..b] and s[b..c] are the subtrees of two siblings, each is still
   * a subtree after the swap, the second one now at a and the first at m.
   */
  lemma SwappedSubtrees(s: seq<Note>, a: nat, b: nat, c: nat, m: nat)
    requires a < b < c <= |s| && m == a + (c - b)
    requires s[a].depth == s[b].depth && SubtreeEnd(s, a) + 1 == b && SubtreeEnd(s, b) + 1 == c
    ensures var t := Swap(s, a, b, c);
            && t[a] == s[b] && t[m] == s[a]
            && SubtreeEnd(t, a) + 1 == m && SubtreeEnd(t, m) + 1 == c
  {
    var t := Swap(s, a, b, c);
    SwapSpec(s, a, b, c, m);
    assert t[m] == t[m..c][0] == s[a..b][0];
    assert t[a] == t[a..m][0] == s[b..c][0];
    SubtreeEndMoved(s, b, c, t, a, m);
    if c < |t| {
      SubtreeEndSpec(s, b);
      assert t[c] == t[c..][0] == s[c..][0];
    }
    SubtreeEndMoved(s, a, b, t, m, c);
  }

  /** A note right after the subtree of an equally deep note has that note as its previous sibling. */
  lemma PrevSiblingOfFollower(t: seq<Note>, i: nat, m: nat)
    requires i < m < |t|
    requires SubtreeEnd(t, i) + 1 == m && t[m].depth == t[i].depth
    ensures PrevSibling(t, m) == Some(i)
  {
    SubtreeEndSpec(t, i);
    PrevSiblingSpec(t, m, i);
  }

  /** After a move up to t, moving the sibling (now at m) down swaps the two subtrees back. */
  lemma MoveDownAfterMoveUp(s: seq<Note>, j: nat, i: nat, c: nat, m: nat, t: seq<Note>)
    requires j < i < c <= |s| && PrevSibling(s, i) == Some(j) && SubtreeEnd(s, i) + 1 == c
    requires m == j + (c - i) && t == Swap(s, j, i, c)
    ensures MoveDown(t, j).notes == s && MoveDown(t, j).patch == Patch(MOVE, j, c - 1 - j)
  {
    assert SubtreeEnd(t, j) + 1 == m && t[m].depth == t[j].depth && SubtreeEnd(t, m) + 1 == c by {
      PrevSiblingSpec(s, i, j);
      SiblingAboveSubtree(s, j, i);
      SwappedSubtrees(s, j, i, c, m);
    }
    MoveDownAt(t, j, m, c);
    SwapInverse(s, j, i, c, m);
  }

  /** Moving a note up and then its previous sibling down restores the outline; both report the same patch. */
  lemma MoveDownUndoesMoveUp(s: seq<Note>, i: nat)
    requires i < |s| && PrevSibling(s, i).Some?
    ensures var j := PrevSibling(s, i).value;
            && j < |MoveUp(s, i).notes|
            && MoveDown(MoveUp(s, i).notes, j).notes == s
            && MoveDown(MoveUp(s, i).notes, j).patch == MoveUp(s, i).patch
  {
    var j := PrevSibling(s, i).value;
    var c := SubtreeEnd(s, i) + 1;
    var m := j + (c - i);
    var t := MoveUp(s, i).notes;
    MoveUpAt(s, j, i, c);
    MoveDownAfterMoveUp(s, j, i, c, m, t);
  }

  /** After a move down to t, moving the note up from its new index m swaps the two subtrees back. */
  lemma MoveUpAfterMoveDown(s: seq<Note>, i: nat, n: nat, c: nat, m: nat, t: seq<Note>)
    requires i < n < c <= |s| && SubtreeEnd(s, i) + 1 == n && s[n].depth == s[i].depth && SubtreeEnd(s, n) + 1 == c
    requires m == i + (c - n) && t == Swap(s, i, n, c)
    ensures m < |t| && MoveUp(t, m).notes == s && MoveUp(t, m).patch == Patch(MOVE, i, c - 1 - i)
  {
    assert PrevSibling(t, m) == Some(i) && SubtreeEnd(t, m) + 1 == c by {
      SwappedSubtrees(s, i, n, c, m);
      PrevSiblingOfFollower(t, i, m);
    }
    MoveUpAt(t, i, m, c);
    SwapInverse(s, i, n, c, m);
  }

  /**
   * Where a note that moves down lands: its own index plus the length of
   * the next sibling's subtree, which now comes first.
   */
  function LandingAfterMoveDown(s: seq<Note>, i: nat): (m: nat)
    requires i < |s| && SubtreeEnd(s, i) + 1 < |s| && s[SubtreeEnd(s, i) + 1].depth == s[i].depth
    ensures i < m < |s|
  {
    var n := SubtreeEnd(s, i) + 1;
    i + (SubtreeEnd(s, n) + 1 - n)
  }

  /** Moving a note down and then the same note up (from its new place) restores the outline; both report the same patch. */
  lemma MoveUpUndoesMoveDown(s: seq<Note>, i: nat)
    requires i < |s| && SubtreeEnd(s, i) + 1 < |s| && s[SubtreeEnd(s, i) + 1].depth == s[i].depth
    ensures MoveUp(MoveDown(s, i).notes, LandingAfterMoveDown(s, i)).notes == s
    ensures MoveUp(MoveDown(s, i).notes, LandingAfterMoveDown(s, i)).patch == MoveDown(s, i).patch
  {
    var n := SubtreeEnd(s, i) + 1;
    var c := SubtreeEnd(s, n) + 1;
    var m := LandingAfterMoveDown(s, i);
    assert m == i + (c - n);
    var t := MoveDown(s, i).notes;
    assert t == Swap(s, i, n, c) && MoveDown(s, i).patch == Patch(MOVE, i, c - 1 - i) by {
      MoveDownAt(s, i, n, c);
    }
    MoveUpAfterMoveDown(s, i, n, c, m, t);
  }

  /**
   * Move to first: the subtree goes to the front. The patch runs from 0 to
   * the subtree's old last index. A subtree that already starts the outline
   * stays and nothing is reported.
   */
  function MoveToFirst(s: seq<Note>, i: nat): (r: Edit)
    requires i < |s|
    ensures |r.notes| == |s|
    ensures i == 0 <==> r.patch.diff == NO
    ensures i == 0 ==> r.notes == s && r.patch == NoPatch(i)
    ensures i > 0 ==> r.patch == Patch(MOVE, 0, SubtreeEnd(s, i))
  {
    if i == 0 then Edit(s, NoPatch(i))
    else
      var e := SubtreeEnd(s, i);
      Edit(Swap(s, 0, i, e + 1), Patch(MOVE, 0, e))
  }

  /**
   * After a move to first the outline reads: the subtree, what came before
   * it, what came after it; no note is lost or duplicated.
   */
  lemma MoveToFirstSpec(s: seq<Note>, i: nat)
    requires i < |s|
    ensures MoveToFirst(s, i).notes == Subtree(s, i) + s[..i] + s[SubtreeEnd(s, i) + 1..]
    ensures multiset(MoveToFirst(s, i).notes) == multiset(s)
  {
    var c := SubtreeEnd(s, i) + 1;
    if i == 0 {
      assert s[..0] == [];
      assert s == s[0..c] + s[c..];
    } else {
      var m := c - i;
      var t := Swap(s, 0, i, c);
      assert MoveToFirst(s, i).notes == t;
      assert t == Subtree(s, i) + s[..i] + s[c..] by {
        assert s[..0] + s[i..c] == s[i..c];
        assert s[0..i] == s[..i];
      }
      assert multiset(t) == multiset(s) by {
        SwapSpec(s, 0, i, c, m);
      }
    }
  }

  /**
   * Move to last: the subtree goes to the end. The patch runs from the
   * note's old index to the last index. A subtree that already ends the
   * outline stays and nothing is reported.
   */
  function MoveToLast(s: seq<Note>, i: nat): (r: Edit)
    requires i < |s|
    ensures |r.notes| == |s|
    ensures SubtreeEnd(s, i) == |s| - 1 <==> r.patch.diff == NO
    ensures SubtreeEnd(s, i) == |s| - 1 ==> r.notes == s && r.patch == NoPatch(i)
    ensures SubtreeEnd(s, i) < |s| - 1 ==> r.patch == Patch(MOVE, i, |s| - 1 - i)
  {
    var e := SubtreeEnd(s, i);
    if e == |s| - 1 then Edit(s, NoPatch(i))
    else Edit(Swap(s, i, e + 1, |s|), Patch(MOVE, i, |s| - 1 - i))
  }

  /**
   * After a move to last the outline reads: what came before the subtree,
   * what came after it, the subtree; no note is lost or duplicated.
   */
  lemma MoveToLastSpec(s: seq<Note>, i: nat)
    requires i < |s|
    ensures MoveToLast(s, i).notes == s[..i] + s[SubtreeEnd(s, i) + 1..] + Subtree(s, i)
    ensures multiset(MoveToLast(s, i).notes) == multiset(s)
  {
    var c := SubtreeEnd(s, i) + 1;
    var l := |s|;
    if c == l {
      assert s[c..] == [];
      assert s == s[..i] + s[i..c];
    } else {
      var m := i + (l - c);
      var t := Swap(s, i, c, l);
      assert MoveToLast(s, i).notes == t;
      assert t == s[..i] + s[c..] + Subtree(s, i) by {
        assert s[c..l] == s[c..];
        assert s[l..] == [];
        assert s[..i] + s[c..l] + s[i..c] + s[l..] == s[..i] + s[c..l] + s[i..c];
      }
      assert multiset(t) == multiset(s) by {
        SwapSpec(s, i, c, l, m);
      }
    }
  }

  /** A first top-level subtree moved to the end comes straight back with move to first. */
  lemma MoveToFirstUndoesMoveToLast(s: seq<Note>)
    requires |s| > 0 && s[0].depth == 0 && SubtreeEnd(s, 0) < |s| - 1
    ensures var n := |s| - 1 - SubtreeEnd(s, 0);
            && n < |MoveToLast(s, 0).notes|
            && MoveToFirst(MoveToLast(s, 0).notes, n).notes == s
  {
    var b := SubtreeEnd(s, 0) + 1;
    var l := |s|;
    var n := l - b;
    var t := Swap(s, 0, b, l);
    assert MoveToLast(s, 0).notes == t;
    assert SubtreeEnd(t, n) + 1 == l by {
      SwapSpec(s, 0, b, l, n);
      SubtreeEndMoved(s, 0, b, t, n, l);
    }
    assert MoveToFirst(t, n).notes == Swap(t, 0, n, l);
    SwapInverse(s, 0, b, l, n);
  }

  // ---------------------------------------------------------------------------
  // Clone, insert and forget
  // ---------------------------------------------------------------------------

  /** A note created in memory: nothing read from disk, one read and one revision. */
  function Fresh(n: Note): (r: Note)
    ensures r.name == n.name && r.depth == n.depth && r.body == n.body
    ensures r.readCount == 1 && r.revision == 1 && r.heading.None?
  {
    n.(readCount := 1, revision := 1, heading := None)
  }

  /** Fresh copies of a run of notes, in order. */
  function FreshCopies(ns: seq<Note>): (r: seq<Note>)
    ensures |r| == |ns| && Depths(r) == Depths(ns)
    ensures forall k :: 0 <= k < |ns| ==> r[k] == Fresh(ns[k])
  {
    seq(|ns|, k requires 0 <= k < |ns| => Fresh(ns[k]))
  }

  /**
   * Clone: a fresh copy of the note and its subtree is inserted right after
   * the original subtree.
   */
  function Clone(s: seq<Note>, i: nat): (r: seq<Note>)
    requires i < |s|
    ensures |r| == |s| + (SubtreeEnd(s, i) + 1 - i)
  {
    Splice(s, SubtreeEnd(s, i) + 1, FreshCopies(Subtree(s, i)))
  }

  /**
   * The clone keeps everything up to the end of the original subtree, then
   * holds fresh copies of the subtree's notes (same names, depths and
   * bodies, one read and one revision each), then the rest of the outline.
   */
  lemma CloneSpec(s: seq<Note>, i: nat)
    requires i < |s|
    ensures var p := SubtreeEnd(s, i) + 1;
            var q := p + (p - i);
            var r := Clone(s, i);
            && r[..p] == s[..p]
            && r[p..q] == FreshCopies(Subtree(s, i))
            && r[q..] == s[p..]
  {
    var p := SubtreeEnd(s, i) + 1;
    var copy := FreshCopies(Subtree(s, i));
    var q := p + |copy|;
    SpliceSpec(s, p, copy, q);
  }

  /**
   * Insert a new note at `k`: it lands at index k, the notes before it stay
   * and the notes from k on shift one place.
   */
  function Insert(s: seq<Note>, k: nat, n: Note): (r: seq<Note>)
    requires k <= |s|
    ensures |r| == |s| + 1 && r[k] == n
    ensures r[..k] == s[..k] && r[k + 1..] == s[k..]
  {
    var t := Splice(s, k, [n]);
    SpliceSpec(s, k, [n], k + 1);
    assert t[k] == t[k..k + 1][0];
    t
  }

  /** A freshly authored note: a name and a depth, no body, never read and never revised. */
  function NewNote(name: string, depth: nat): (n: Note)
    ensures n.name == name && n.depth == depth && n.body == [] && n.heading.None?
    ensures n.readCount == 0 && n.revision == 0
  {
    Note(name, depth, 0, 0, [], None)
  }

  /** Forget: the note and its whole subtree disappear. */
  function Forget(s: seq<Note>, i: nat): (r: seq<Note>)
    requires i < |s|
    ensures |r| == |s| - (SubtreeEnd(s, i) + 1 - i)
  {
    Cut(s, i, SubtreeEnd(s, i) + 1)
  }

  /** After a forget the rest keeps its order, and exactly the subtree's notes are gone. */
  lemma ForgetSpec(s: seq<Note>, i: nat)
    requires i < |s|
    ensures var r := Forget(s, i);
            && r[..i] == s[..i] && r[i..] == s[SubtreeEnd(s, i) + 1..]
            && multiset(r) + multiset(Subtree(s, i)) == multiset(s)
  {
    CutSpec(s, i, SubtreeEnd(s, i) + 1);
  }

  /** Forgetting the clone removes exactly the copy. */
  lemma ForgetUndoesClone(s: seq<Note>, i: nat)
    requires i < |s|
    ensures SubtreeEnd(s, i) + 1 < |Clone(s, i)|
    ensures Forget(Clone(s, i), SubtreeEnd(s, i) + 1) == s
  {
    var p := SubtreeEnd(s, i) + 1;
    var copy := FreshCopies(Subtree(s, i));
    var q := p + |copy|;
    var c := Splice(s, p, copy);
    assert Clone(s, i) == c;
    assert SubtreeEnd(c, p) + 1 == q by {
      SpliceSpec(s, p, copy, q);
      assert Depths(c[p..q]) == Depths(s[i..p]);
      if q < |c| {
        SubtreeEndSpec(s, i);
        assert c[q] == c[q..][0] == s[p];
        assert c[p] == c[p..q][0] == Fresh(s[i]);
      }
      SubtreeEndMoved(s, i, p, c, p, q);
    }
    assert Forget(c, p) == Cut(c, p, q);
    CutSplice(s, p, copy, q);
  }

  /** Forgetting a note just inserted restores the outline, provided the note did not adopt the notes after it. */
  lemma ForgetUndoesInsert(s: seq<Note>, k: nat, n: Note)
    requires k <= |s|
    requires k == |s| || s[k].depth <= n.depth
    ensures Forget(Insert(s, k, n), k) == s
  {
    var t := Insert(s, k, n);
    var q := k + 1;
    assert t[q..] == s[k..];
    if k < |s| {
      assert t[q] == s[k];
    }
    SubtreeEndIs(t, k, k);
    assert Forget(t, k) == Cut(Splice(s, k, [n]), k, q);
    CutSplice(s, k, [n], q);
  }

  // ---------------------------------------------------------------------------
  // Memory: outlines by key
  // ---------------------------------------------------------------------------

  datatype MemoryError = UnknownOutline(key: string) | NoSuchNote(index: nat)

  /**
   * Refactor: the subtree of note `i` of outline `source` leaves it and is
   * put in front of the notes of outline `target`.
   */
  function NoteRefactor(memory: map<string, Outline>, source: string, i: nat, target: string)
    : (r: Result<map<string, Outline>, MemoryError>)
    ensures source !in memory ==> r == Failure(UnknownOutline(source))
    ensures source in memory && target !in memory ==> r == Failure(UnknownOutline(target))
    ensures source in memory && target in memory && i >= |memory[source].notes| ==> r == Failure(NoSuchNote(i))
    ensures r.Success? ==>
              && source in memory && target in memory && i < |memory[source].notes|
              && r.value.Keys == memory.Keys
              && (forall key :: key in memory && key != source && key != target ==> r.value[key] == memory[key])
    ensures r.Success? && source != target ==>
              var s := memory[source].notes;
              && r.value[source] == memory[source].(notes := Forget(s, i))
              && r.value[target] == memory[target].(notes := Subtree(s, i) + memory[target].notes)
  {
    if source !in memory then Failure(UnknownOutline(source))
    else if target !in memory then Failure(UnknownOutline(target))
    else if i >= |memory[source].notes| then Failure(NoSuchNote(i))
    else
      var s := memory[source].notes;
      var moved := Subtree(s, i);
      var left := memory[source].(notes := Forget(s, i));
      if source == target then Success(memory[source := left.(notes := moved + left.notes)])
      else Success(memory[source := left][target := memory[target].(notes := moved + memory[target].notes)])
  }

  /** Refactoring between two outlines moves notes without losing or duplicating any. */
  lemma RefactorKeepsNotes(memory: map<string, Outline>, source: string, i: nat, target: string)
    requires NoteRefactor(memory, source, i, target).Success? && source != target
    ensures var m := NoteRefactor(memory, source, i, target).value;
            && multiset(m[source].notes) + multiset(m[target].notes)
               == multiset(memory[source].notes) + multiset(memory[target].notes)
            && |m[source].notes| + |m[target].notes| == |memory[source].notes| + |memory[target].notes|
  {
    var m := NoteRefactor(memory, source, i, target).value;
    var s := memory[source].notes;
    ForgetSpec(s, i);
    assert multiset(m[target].notes) == multiset(Subtree(s, i)) + multiset(memory[target].notes);
    assert |multiset(m[source].notes)| + |multiset(m[target].notes)|
        == |multiset(memory[source].notes)| + |multiset(memory[target].notes)|;
  }

  /** Putting a subtree in front of what is left after forgetting it is move to first. */
  lemma SubtreeThenRest(s: seq<Note>, i: nat)
    requires i < |s|
    ensures Subtree(s, i) + Forget(s, i) == MoveToFirst(s, i).notes
  {
    var c := SubtreeEnd(s, i) + 1;
    var sub := Subtree(s, i);
    MoveToFirstSpec(s, i);
    assert Forget(s, i) == s[..i] + s[c..];
    assert sub + (s[..i] + s[c..]) == sub + s[..i] + s[c..];
  }

  /** Refactoring a note into its own outline is move to first. */
  lemma RefactorIntoSelfIsMoveToFirst(memory: map<string, Outline>, source: string, i: nat)
    requires source in memory && i < |memory[source].notes|
    ensures NoteRefactor(memory, source, i, source).Success?
    ensures NoteRefactor(memory, source, i, source).value[source].notes == MoveToFirst(memory[source].notes, i).notes
  {
    var s := memory[source].notes;
    assert NoteRefactor(memory, source, i, source).value[source].notes == Subtree(s, i) + Forget(s, i);
    SubtreeThenRest(s, i);
  }
}
