/**
 * The edit engine on the concrete outlines of the note test suite: each
 * lemma is one step of a scenario, from the outline before the call to the
 * outline and patch after it.
 */
module OutlineScenarios {
  import opened Wrappers
  import opened Outlines

  /** A note as loaded from a heading: no reads, no revisions, no body kept here. */
  function Loaded(name: string, depth: nat): (n: Note)
    ensures n.name == name && n.depth == depth
  {
    Note(name, depth, 0, 0, [], None)
  }

  const n1 := Loaded("1", 0)
  const n2 := Loaded("2", 0)
  const n3 := Loaded("3", 0)
  const n33 := Loaded("33", 1)
  const n333 := Loaded("333", 2)
  const n4 := Loaded("4", 0)
  const n44 := Loaded("44", 1)
  const n5 := Loaded("5", 0)
  const n6 := Loaded("6", 0)

  /** The copy a clone makes of a loaded note. */
  const f4 := Fresh(n4)
  const f44 := Fresh(n44)
  const f3 := Fresh(n3)
  const f33 := Fresh(n33)
  const f333 := Fresh(n333)
  const f5 := Fresh(n5)

  // ---------------------------------------------------------------------------
  // Three top-level notes: demote, promote, up, down
  // ---------------------------------------------------------------------------

  /** Demoting the leaf "3" reports a change of that one note. */
  lemma FlatDemoteLeaf()
    ensures Demote([n1, n2, n3], 2) == Edit([n1, n2, n3.(depth := 1)], Patch(CHANGE, 2, 0))
  {
    SubtreeEndIs([n1, n2, n3], 2, 2);
  }

  /**
   * Demoting "2" takes its new child "3" along. Called without a patch, the
   * caller keeps the earlier report, so only the notes are observed.
   */
  lemma FlatDemoteWithChild()
    ensures Demote([n1, n2, n3.(depth := 1)], 1).notes == [n1, n2.(depth := 1), n3.(depth := 2)]
  {
    SubtreeEndIs([n1, n2, n3.(depth := 1)], 1, 2);
  }

  /** Promoting "2" brings "3" along one level up. */
  lemma FlatPromoteWithChild()
    ensures Promote([n1, n2.(depth := 1), n3.(depth := 2)], 1)
            == Edit([n1, n2, n3.(depth := 1)], Patch(CHANGE, 1, 1))
  {
    SubtreeEndIs([n1, n2.(depth := 1), n3.(depth := 2)], 1, 2);
  }

  /** Promoting "3" restores the flat outline and reports that one note. */
  lemma FlatPromoteLeaf()
    ensures Promote([n1, n2, n3.(depth := 1)], 2) == Edit([n1, n2, n3], Patch(CHANGE, 2, 0))
  {
    SubtreeEndIs([n1, n2, n3.(depth := 1)], 2, 2);
  }

  /** Moving "2" up over "1". */
  lemma FlatUpSecond()
    ensures MoveUp([n1, n2, n3], 1) == Edit([n2, n1, n3], Patch(MOVE, 0, 1))
  {
    var s := [n1, n2, n3];
    PrevSiblingSpec(s, 1, 0);
    SubtreeEndIs(s, 1, 1);
    MoveUpAt(s, 0, 1, 2);
  }

  /** Moving "3" up over "1". */
  lemma FlatUpThird()
    ensures MoveUp([n2, n1, n3], 2) == Edit([n2, n3, n1], Patch(MOVE, 1, 1))
  {
    var s := [n2, n1, n3];
    PrevSiblingSpec(s, 2, 1);
    SubtreeEndIs(s, 2, 2);
    MoveUpAt(s, 1, 2, 3);
  }

  /** Moving "3" up over "2". */
  lemma FlatUpAgain()
    ensures MoveUp([n2, n3, n1], 1) == Edit([n3, n2, n1], Patch(MOVE, 0, 1))
  {
    var s := [n2, n3, n1];
    PrevSiblingSpec(s, 1, 0);
    SubtreeEndIs(s, 1, 1);
    MoveUpAt(s, 0, 1, 2);
  }

  /** Moving "3" down below "2". */
  lemma FlatDownFirst()
    ensures MoveDown([n3, n2, n1], 0) == Edit([n2, n3, n1], Patch(MOVE, 0, 1))
  {
    var s := [n3, n2, n1];
    SubtreeEndIs(s, 0, 0);
    SubtreeEndIs(s, 1, 1);
    MoveDownAt(s, 0, 1, 2);
  }

  /** Moving "3" down below "1". */
  lemma FlatDownSecond()
    ensures MoveDown([n2, n3, n1], 1) == Edit([n2, n1, n3], Patch(MOVE, 1, 1))
  {
    var s := [n2, n3, n1];
    SubtreeEndIs(s, 1, 1);
    SubtreeEndIs(s, 2, 2);
    MoveDownAt(s, 1, 2, 3);
  }

  /** Moving "2" down below "1" restores the starting order. */
  lemma FlatDownAgain()
    ensures MoveDown([n2, n1, n3], 0) == Edit([n1, n2, n3], Patch(MOVE, 0, 1))
  {
    var s := [n2, n1, n3];
    SubtreeEndIs(s, 0, 0);
    SubtreeEndIs(s, 1, 1);
    MoveDownAt(s, 0, 1, 2);
  }

  // ---------------------------------------------------------------------------
  // Nine notes three levels deep: up, down, first, last, clone
  // ---------------------------------------------------------------------------

  /** Moving "4" (with "44") up over "3" (with "33" and "333"). */
  lemma DeepUpFour()
    ensures MoveUp([n1, n2, n3, n33, n333, n4, n44, n5, n6], 5)
            == Edit([n1, n2, n4, n44, n3, n33, n333, n5, n6], Patch(MOVE, 2, 4))
  {
    var s := [n1, n2, n3, n33, n333, n4, n44, n5, n6];
    PrevSiblingSpec(s, 5, 2);
    SubtreeEndIs(s, 5, 6);
    MoveUpAt(s, 2, 5, 7);
  }

  /** Moving "4" back down below "3" restores the outline with the same patch. */
  lemma DeepDownFour()
    ensures MoveDown([n1, n2, n4, n44, n3, n33, n333, n5, n6], 2)
            == Edit([n1, n2, n3, n33, n333, n4, n44, n5, n6], Patch(MOVE, 2, 4))
  {
    var s := [n1, n2, n4, n44, n3, n33, n333, n5, n6];
    SubtreeEndIs(s, 2, 3);
    SubtreeEndIs(s, 4, 6);
    MoveDownAt(s, 2, 4, 7);
  }

  /** Moving "4" down below "5". */
  lemma DeepDownBelowFive()
    ensures MoveDown([n1, n2, n3, n33, n333, n4, n44, n5, n6], 5)
            == Edit([n1, n2, n3, n33, n333, n5, n4, n44, n6], Patch(MOVE, 5, 2))
  {
    var s := [n1, n2, n3, n33, n333, n4, n44, n5, n6];
    SubtreeEndIs(s, 5, 6);
    SubtreeEndIs(s, 7, 7);
    MoveDownAt(s, 5, 7, 8);
  }

  /** Moving "4" down below "6". */
  lemma DeepDownBelowSix()
    ensures MoveDown([n1, n2, n3, n33, n333, n5, n4, n44, n6], 6)
            == Edit([n1, n2, n3, n33, n333, n5, n6, n4, n44], Patch(MOVE, 6, 2))
  {
    var s := [n1, n2, n3, n33, n333, n5, n4, n44, n6];
    SubtreeEndIs(s, 6, 7);
    SubtreeEndIs(s, 8, 8);
    MoveDownAt(s, 6, 8, 9);
  }

  /** "4" with "44" ends the outline: moving it down changes nothing. */
  lemma DeepDownAtEnd()
    ensures MoveDown([n1, n2, n3, n33, n333, n5, n6, n4, n44], 7).notes == [n1, n2, n3, n33, n333, n5, n6, n4, n44]
    ensures MoveDown([n1, n2, n3, n33, n333, n5, n6, n4, n44], 7).patch.diff == NO
  {
    SubtreeEndIs([n1, n2, n3, n33, n333, n5, n6, n4, n44], 7, 8);
  }

  /** Moving "3" (with its subtree) up over "2". */
  lemma DeepUpThree()
    ensures MoveUp([n1, n2, n3, n33, n333, n5, n6, n4, n44], 2)
            == Edit([n1, n3, n33, n333, n2, n5, n6, n4, n44], Patch(MOVE, 1, 3))
  {
    var s := [n1, n2, n3, n33, n333, n5, n6, n4, n44];
    PrevSiblingSpec(s, 2, 1);
    SubtreeEndIs(s, 2, 4);
    MoveUpAt(s, 1, 2, 5);
  }

  /** Moving "3" up over "1" makes it the first note. */
  lemma DeepUpThreeToTop()
    ensures MoveUp([n1, n3, n33, n333, n2, n5, n6, n4, n44], 1)
            == Edit([n3, n33, n333, n1, n2, n5, n6, n4, n44], Patch(MOVE, 0, 3))
  {
    var s := [n1, n3, n33, n333, n2, n5, n6, n4, n44];
    PrevSiblingSpec(s, 1, 0);
    SubtreeEndIs(s, 1, 3);
    MoveUpAt(s, 0, 1, 4);
  }

  /** The first note has no sibling above: moving it up changes nothing. */
  lemma DeepUpAtTop()
    ensures MoveUp([n3, n33, n333, n1, n2, n5, n6, n4, n44], 0).notes == [n3, n33, n333, n1, n2, n5, n6, n4, n44]
    ensures MoveUp([n3, n33, n333, n1, n2, n5, n6, n4, n44], 0).patch.diff == NO
  {
  }

  /** Moving "2" to the front. */
  lemma DeepFirstTwo()
    ensures MoveToFirst([n3, n33, n333, n1, n2, n5, n6, n4, n44], 4)
            == Edit([n2, n3, n33, n333, n1, n5, n6, n4, n44], Patch(MOVE, 0, 4))
  {
    SubtreeEndIs([n3, n33, n333, n1, n2, n5, n6, n4, n44], 4, 4);
  }

  /** Moving "4" with "44" to the front; the patch reaches the old last index of the subtree. */
  lemma DeepFirstFour()
    ensures MoveToFirst([n2, n3, n33, n333, n1, n5, n6, n4, n44], 7)
            == Edit([n4, n44, n2, n3, n33, n333, n1, n5, n6], Patch(MOVE, 0, 8))
  {
    SubtreeEndIs([n2, n3, n33, n333, n1, n5, n6, n4, n44], 7, 8);
  }

  /** The first note is already first: nothing changes. */
  lemma DeepFirstAtTop()
    ensures MoveToFirst([n4, n44, n2, n3, n33, n333, n1, n5, n6], 0).notes == [n4, n44, n2, n3, n33, n333, n1, n5, n6]
    ensures MoveToFirst([n4, n44, n2, n3, n33, n333, n1, n5, n6], 0).patch.diff == NO
  {
  }

  /** Moving "1" to the end; the patch runs from its old index to the last one. */
  lemma DeepLastOne()
    ensures MoveToLast([n4, n44, n2, n3, n33, n333, n1, n5, n6], 6)
            == Edit([n4, n44, n2, n3, n33, n333, n5, n6, n1], Patch(MOVE, 6, 2))
  {
    SubtreeEndIs([n4, n44, n2, n3, n33, n333, n1, n5, n6], 6, 6);
  }

  /** Moving "3" with its subtree to the end. */
  lemma DeepLastThree()
    ensures MoveToLast([n4, n44, n2, n3, n33, n333, n5, n6, n1], 3)
            == Edit([n4, n44, n2, n5, n6, n1, n3, n33, n333], Patch(MOVE, 3, 5))
  {
    SubtreeEndIs([n4, n44, n2, n3, n33, n333, n5, n6, n1], 3, 5);
  }

  /** "3" with its subtree already ends the outline: nothing changes. */
  lemma DeepLastAtEnd()
    ensures MoveToLast([n4, n44, n2, n5, n6, n1, n3, n33, n333], 6).notes == [n4, n44, n2, n5, n6, n1, n3, n33, n333]
    ensures MoveToLast([n4, n44, n2, n5, n6, n1, n3, n33, n333], 6).patch.diff == NO
  {
    SubtreeEndIs([n4, n44, n2, n5, n6, n1, n3, n33, n333], 6, 8);
  }

  /** Cloning the leaf "5": the copy follows it, at depth 0 with one read and one revision. */
  lemma DeepCloneLeaf()
    ensures Clone([n4, n44, n2, n5, n6, n1, n3, n33, n333], 3)
            == [n4, n44, n2, n5, f5, n6, n1, n3, n33, n333]
    ensures f5.depth == 0 && f5.readCount == 1 && f5.revision == 1
  {
    var s := [n4, n44, n2, n5, n6, n1, n3, n33, n333];
    SubtreeEndIs(s, 3, 3);
    assert FreshCopies(s[3..4]) == [f5];
  }

  /** Cloning "4" copies "44" along, right after the original subtree. */
  lemma DeepCloneWithChild()
    ensures Clone([n4, n44, n2, n5, f5, n6, n1, n3, n33, n333], 0)
            == [n4, n44, f4, f44, n2, n5, f5, n6, n1, n3, n33, n333]
    ensures f4.depth == 0 && f44.depth == 1 && f4.readCount == f44.readCount == 1 && f4.revision == f44.revision == 1
  {
    var s := [n4, n44, n2, n5, f5, n6, n1, n3, n33, n333];
    SubtreeEndIs(s, 0, 1);
    assert FreshCopies(s[0..2]) == [f4, f44];
  }

  /** Cloning "3" at the end copies its whole three-level subtree to the end. */
  lemma DeepCloneAtEnd()
    ensures Clone([n4, n44, f4, f44, n2, n5, f5, n6, n1, n3, n33, n333], 9)
            == [n4, n44, f4, f44, n2, n5, f5, n6, n1, n3, n33, n333, f3, f33, f333]
    ensures f3.depth == 0 && f33.depth == 1 && f333.depth == 2
    ensures f3.readCount == f33.readCount == f333.readCount == 1 && f3.revision == f33.revision == f333.revision == 1
  {
    var s := [n4, n44, f4, f44, n2, n5, f5, n6, n1, n3, n33, n333];
    SubtreeEndIs(s, 9, 11);
    assert FreshCopies(s[9..12]) == [f3, f33, f333];
  }

  /** Cloning the copied "33": a clone of a clone is again a fresh note, at the same depths. */
  lemma DeepCloneOfClone()
    ensures Clone([n4, n44, f4, f44, n2, n5, f5, n6, n1, n3, n33, n333, f3, f33, f333], 13)
            == [n4, n44, f4, f44, n2, n5, f5, n6, n1, n3, n33, n333, f3, f33, f333, f33, f333]
  {
    var s := [n4, n44, f4, f44, n2, n5, f5, n6, n1, n3, n33, n333, f3, f33, f333];
    SubtreeEndIs(s, 13, 14);
    assert FreshCopies(s[13..15]) == [f33, f333];
  }

  // ---------------------------------------------------------------------------
  // New notes at an offset, then forgetting them
  // ---------------------------------------------------------------------------

  const note1 := Loaded("Note 1", 1)
  const note2 := Loaded("Note 2", 1)
  const stencilNote := NewNote("!!! STENCIL Note !!!", 0)
  const deepNote := NewNote("!!! DEEP Note !!!", 0)

  /**
   * A new top-level note at offset 0, then a new note at offset 2 that is
   * then demoted on its own (the note's demote, not the outline's: only its
   * depth changes), giving four notes in the order the test reads them.
   */
  lemma StencilInsertions()
    ensures var s := Insert(Insert([note1, note2], 0, stencilNote), 2, deepNote);
            s == [stencilNote, note1, deepNote, note2]
            && s[2 := s[2].(depth := 1)] == [stencilNote, note1, deepNote.(depth := 1), note2]
  {
    var t := Insert([note1, note2], 0, stencilNote);
    assert t == [stencilNote, note1, note2] by {
      assert t[1..] == [note1, note2];
    }
    var u := Insert(t, 2, deepNote);
    assert u == [stencilNote, note1, deepNote, note2] by {
      assert u[..2] == [stencilNote, note1];
      assert u[3..] == [note2];
    }
  }

  /**
   * Forgetting "Note 2", then "Note 1" (whose neighbour sits at the same
   * depth, so goes alone), then the first note (which takes the deep note
   * along): four notes, three, two, none.
   */
  lemma StencilForgets()
    ensures var s := [stencilNote, note1, deepNote.(depth := 1), note2];
            && Forget(s, 3) == [stencilNote, note1, deepNote.(depth := 1)]
            && Forget(Forget(s, 3), 1) == [stencilNote, deepNote.(depth := 1)]
            && Forget(Forget(Forget(s, 3), 1), 0) == []
  {
    var deep := deepNote.(depth := 1);
    var s := [stencilNote, note1, deep, note2];
    SubtreeEndIs(s, 3, 3);
    var t := [stencilNote, note1, deep];
    assert Forget(s, 3) == t;
    SubtreeEndIs(t, 1, 1);
    var u := [stencilNote, deep];
    assert Forget(t, 1) == u;
    SubtreeEndIs(u, 0, 1);
  }

  // ---------------------------------------------------------------------------
  // Refactoring a subtree into another outline
  // ---------------------------------------------------------------------------

  const sourceKey := "/tmp/mf-unit-repository-refactor/memory/source.md"
  const targetKey := "/tmp/mf-unit-repository-refactor/memory/target.md"

  const nA := Loaded("A", 0)
  const nB := Loaded("B", 0)
  const nC := Loaded("C", 0)
  const nCC := Loaded("CC", 1)
  const nCCC := Loaded("CCC", 2)
  const nD := Loaded("D", 0)
  const nDD := Loaded("DD", 1)
  const nE := Loaded("E", 0)
  const nF := Loaded("F", 0)

  const sourceOutline := Outline(sourceKey, MINDFORGER, [], Some(Loaded("Source Test Outline", 0).(body := ["Outline text."])),
                                 [n1, n2, n3, n33, n333, n4, n44, n5, n6])
  const targetOutline := Outline(targetKey, MINDFORGER, [], Some(Loaded("Target Test Outline", 0).(body := ["Outline text."])),
                                 [nA, nB, nC, nCC, nCCC, nD, nDD, nE, nF])

  /**
   * Refactoring "3" (with "33" and "333") from the source outline into the
   * target: the source keeps six notes, "1", "2", "4", ...; the target grows
   * to twelve and starts with "3", "33", "333", then "A".
   */
  lemma RefactorThree()
    ensures var memory := map[sourceKey := sourceOutline, targetKey := targetOutline];
            var r := NoteRefactor(memory, sourceKey, 2, targetKey);
            && |sourceOutline.notes| + |targetOutline.notes| == 18
            && r.Success?
            && r.value[sourceKey].notes == [n1, n2, n4, n44, n5, n6]
            && r.value[targetKey].notes == [n3, n33, n333, nA, nB, nC, nCC, nCCC, nD, nDD, nE, nF]
  {
    assert sourceKey[40] != targetKey[40];
    var memory := map[sourceKey := sourceOutline, targetKey := targetOutline];
    var s := sourceOutline.notes;
    assert Subtree(s, 2) == [n3, n33, n333] && Forget(s, 2) == [n1, n2, n4, n44, n5, n6] by {
      SubtreeEndIs(s, 2, 4);
    }
  }
}
