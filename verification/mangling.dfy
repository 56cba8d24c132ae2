/**
 * Note name mangling: the anchor under which a note is linked, derived from
 * its heading text (Note::getMangledName).
 */
module Mangling {

  predicate IsUpper(c: char) { 'A' <= c <= 'Z' }

  /** Characters that may appear in an anchor: lower-case letters, digits and hyphens. */
  predicate AnchorChar(c: char) { 'a' <= c <= 'z' || '0' <= c <= '9' || c == '-' }

  /** Characters that survive mangling (possibly rewritten); everything else is punctuation and is dropped. */
  predicate Kept(c: char) { IsUpper(c) || AnchorChar(c) || c == ' ' }

  /** What one character of the name contributes to the anchor. */
  function MangleChar(c: char): string
  {
    if 'A' <= c <= 'Z' then [(c as int + 32) as char]
    else if 'a' <= c <= 'z' || '0' <= c <= '9' || c == '-' then [c]
    else if c == ' ' then "-"
    else ""
  }

  /**
   * Lower-cases the name, turns every space into a hyphen (runs of spaces are
   * not collapsed, leading and trailing ones are not trimmed) and drops all
   * punctuation.
   */
  function Mangle(name: string): (anchor: string)
    ensures |anchor| <= |name|
    ensures forall k :: 0 <= k < |anchor| ==> AnchorChar(anchor[k])
  {
    if |name| == 0 then ""
    else
      var rest := Mangle(name[1..]);
      MangleCharSpec(name[0]);
      MangleChar(name[0]) + rest
  }

  /**
   * One character: an upper-case letter becomes its lower-case form, anchor
   * characters stay, a space becomes a hyphen and anything else disappears.
   */
  lemma MangleCharSpec(c: char)
    ensures |MangleChar(c)| == 1 <==> Kept(c)
    ensures |MangleChar(c)| <= 1
    ensures IsUpper(c) ==> MangleChar(c) == [(c as int - 'A' as int + 'a' as int) as char]
    ensures AnchorChar(c) ==> MangleChar(c) == [c]
    ensures c == ' ' ==> MangleChar(c) == "-"
    ensures |MangleChar(c)| == 1 ==> AnchorChar(MangleChar(c)[0])
  {
  }

  /**
   * The result is a valid anchor no longer than the name, and it is empty
   * exactly when the name has no letter, digit, space or hyphen.
   */
  lemma {:induction false} MangleIsAnchor(name: string)
    ensures |Mangle(name)| <= |name|
    ensures forall k :: 0 <= k < |Mangle(name)| ==> AnchorChar(Mangle(name)[k])
    ensures Mangle(name) == "" <==> forall k :: 0 <= k < |name| ==> !Kept(name[k])
  {
    if |name| > 0 {
      MangleIsAnchor(name[1..]);
      MangleCharSpec(name[0]);
      assert forall k :: 1 <= k < |name| ==> name[k] == name[1..][k - 1];
    }
  }

  /** Mangling works character by character, so it distributes over concatenation. */
  lemma {:induction false} MangleAppend(a: string, b: string)
    ensures Mangle(a + b) == Mangle(a) + Mangle(b)
  {
    if |a| > 0 {
      assert (a + b)[1..] == a[1..] + b;
      MangleAppend(a[1..], b);
    } else {
      assert a + b == b;
    }
  }

  /** An anchor is a fixed point: mangling it again changes nothing. */
  lemma {:induction false} MangleAnchorUnchanged(anchor: string)
    requires forall k :: 0 <= k < |anchor| ==> AnchorChar(anchor[k])
    ensures Mangle(anchor) == anchor
  {
    if |anchor| > 0 {
      MangleAnchorUnchanged(anchor[1..]);
      assert [anchor[0]] + anchor[1..] == anchor;
    }
  }

  /** Mangling is idempotent. */
  lemma MangleIdempotent(name: string)
    ensures Mangle(Mangle(name)) == Mangle(name)
  {
    MangleIsAnchor(name);
    MangleAnchorUnchanged(Mangle(name));
  }

  function SpaceRun(n: nat): string { if n == 0 then "" else " " + SpaceRun(n - 1) }

  function HyphenRun(n: nat): string { if n == 0 then "" else "-" + HyphenRun(n - 1) }

  /** A run of n spaces becomes a run of n hyphens: runs are neither collapsed nor trimmed. */
  lemma {:induction false} MangleKeepsSpaceRuns(n: nat)
    ensures Mangle(SpaceRun(n)) == HyphenRun(n)
  {
    if n > 0 {
      assert SpaceRun(n)[1..] == SpaceRun(n - 1);
      MangleKeepsSpaceRuns(n - 1);
    }
  }

  // Pieces of the fixture names of at most four characters are evaluated
  // directly; longer pieces are glued together with MangleAppend.

  lemma MangleSect() ensures Mangle("Sect") == "sect" {}
  lemma MangleIonSpace() ensures Mangle("ion ") == "ion-" {}
  lemma MangleWithWord() ensures Mangle("with") == "with" {}
  lemma MangleSpace123() ensures Mangle(" 123") == "-123" {}
  lemma MangleSpaceNum() ensures Mangle(" num") == "-num" {}
  lemma MangleBer() ensures Mangle("ber") == "ber" {}
  lemma MangleSpaceWord() ensures Mangle(" ") == "-" {}
  lemma MangleSpac() ensures Mangle("spac") == "spac" {}
  lemma MangleE() ensures Mangle("e") == "e" {}
  lemma MangleLead() ensures Mangle("Lead") == "lead" {}
  lemma MangleIngSpace() ensures Mangle("ing ") == "ing-" {}
  lemma MangleThreeSpaces() ensures Mangle("   ") == "---" {}
  lemma MangleInSpace() ensures Mangle("in ") == "in-" {}
  lemma MangleAndSpace() ensures Mangle("and ") == "and-" {}
  lemma MangleTrai() ensures Mangle("trai") == "trai" {}
  lemma MangleLing() ensures Mangle("ling") == "ling" {}
  lemma MangleSpaceSpa() ensures Mangle(" spa") == "-spa" {}
  lemma MangleCes() ensures Mangle("ces") == "ces" {}
  lemma MangleQues() ensures Mangle("Ques") == "ques" {}
  lemma MangleTion() ensures Mangle("tion") == "tion" {}

  lemma MangleSection()
    ensures Mangle("Sect" + "ion ") == "section-"
  {
    MangleSect(); MangleIonSpace(); MangleAppend("Sect", "ion ");
  }

  lemma MangleWith123()
    ensures Mangle("with" + " 123") == "with-123"
  {
    MangleWithWord(); MangleSpace123(); MangleAppend("with", " 123");
  }

  lemma MangleNumber()
    ensures Mangle(" num" + "ber") == "-number"
  {
    MangleSpaceNum(); MangleBer(); MangleAppend(" num", "ber");
  }

  lemma MangleWithSpace()
    ensures Mangle("with" + " ") == "with-"
  {
    MangleWithWord(); MangleSpaceWord(); MangleAppend("with", " ");
  }

  lemma MangleSpaceWordE()
    ensures Mangle("spac" + "e") == "space"
  {
    MangleSpac(); MangleE(); MangleAppend("spac", "e");
  }

  lemma MangleLeading()
    ensures Mangle("Lead" + "ing ") == "leading-"
  {
    MangleLead(); MangleIngSpace(); MangleAppend("Lead", "ing ");
  }

  lemma MangleWithin()
    ensures Mangle("with" + "in ") == "within-"
  {
    MangleWithWord(); MangleInSpace(); MangleAppend("with", "in ");
  }

  lemma MangleTrailing()
    ensures Mangle("trai" + "ling") == "trailing"
  {
    MangleTrai(); MangleLing(); MangleAppend("trai", "ling");
  }

  lemma MangleSpaces()
    ensures Mangle(" spa" + "ces") == "-spaces"
  {
    MangleSpaceSpa(); MangleCes(); MangleAppend(" spa", "ces");
  }

  /** "Section with 123 number", glued from its pieces. */
  lemma MangleFixtureNumberPieces()
    ensures Mangle(("Sect" + "ion ") + ("with" + " 123") + (" num" + "ber")) == "section-with-123-number"
  {
    MangleSection(); MangleWith123(); MangleNumber();
    MangleAppend("Sect" + "ion ", "with" + " 123");
    MangleAppend(("Sect" + "ion ") + ("with" + " 123"), " num" + "ber");
  }

  /** "Section with space", glued from its pieces. */
  lemma MangleFixtureSpacePieces()
    ensures Mangle(("Sect" + "ion ") + ("with" + " ") + ("spac" + "e")) == "section-with-space"
  {
    MangleSection(); MangleWithSpace(); MangleSpaceWordE();
    MangleAppend("Sect" + "ion ", "with" + " ");
    MangleAppend(("Sect" + "ion ") + ("with" + " "), "spac" + "e");
  }

  /** "Question?", glued from its pieces. */
  lemma MangleFixtureQuestionPieces()
    ensures Mangle("Ques" + "tion" + "?") == "question"
  {
    MangleQues(); MangleTion();
    MangleIsAnchor("?");
    MangleAppend("Ques", "tion");
    MangleAppend("Ques" + "tion", "?");
  }

  /** A name made only of punctuation mangles to the empty anchor ("?" and "@$%^&*("). */
  lemma MangleFixturePunctuationOnly()
    ensures Mangle("?") == ""
    ensures Mangle("@$%^&*(") == ""
  {
    MangleIsAnchor("?");
    MangleIsAnchor("@$%^&*(");
  }

  /** The first half of the space-run fixture: one space, then three more. */
  lemma MangleLeadingWithin()
    ensures Mangle(("Lead" + "ing ") + "   " + ("with" + "in ")) == "leading----within-"
  {
    MangleLeading(); MangleThreeSpaces(); MangleWithin();
    MangleAppend("Lead" + "ing ", "   ");
    MangleAppend(("Lead" + "ing ") + "   ", "with" + "in ");
  }

  /** The second half of the space-run fixture. */
  lemma MangleAndTrailingSpaces()
    ensures Mangle("and " + ("trai" + "ling") + (" spa" + "ces")) == "and-trailing-spaces"
  {
    MangleAndSpace(); MangleTrailing(); MangleSpaces();
    MangleAppend("and ", "trai" + "ling");
    MangleAppend("and " + ("trai" + "ling"), " spa" + "ces");
  }

  /** "Leading    within and trailing spaces", glued from its pieces. */
  lemma MangleFixtureSpaceRunPieces()
    ensures Mangle((("Lead" + "ing ") + "   " + ("with" + "in ")) + ("and " + ("trai" + "ling") + (" spa" + "ces")))
         == "leading----within-and-trailing-spaces"
  {
    MangleLeadingWithin();
    MangleAndTrailingSpaces();
    MangleAppend(("Lead" + "ing ") + "   " + ("with" + "in "), "and " + ("trai" + "ling") + (" spa" + "ces"));
  }

  /** Spaces become hyphens and digits stay: "Section with 123 number" mangles to "section-with-123-number". */
  lemma MangleFixtureNumber()
    ensures Mangle("Section with 123 number") == "section-with-123-number"
  {
    assert "Section with 123 number" == ("Sect" + "ion ") + ("with" + " 123") + (" num" + "ber");
    MangleFixtureNumberPieces();
  }

  /** Each space becomes a hyphen: "Section with space" mangles to "section-with-space". */
  lemma MangleFixtureSpace()
    ensures Mangle("Section with space") == "section-with-space"
  {
    assert "Section with space" == ("Sect" + "ion ") + ("with" + " ") + ("spac" + "e");
    MangleFixtureSpacePieces();
  }

  /** Punctuation is dropped: "Question?" mangles to "question". */
  lemma MangleFixtureQuestion()
    ensures Mangle("Question?") == "question"
  {
    assert "Question?" == "Ques" + "tion" + "?";
    MangleFixtureQuestionPieces();
  }

  /** Four inner spaces give four hyphens: "Leading    within and trailing spaces" mangles to "leading----within-and-trailing-spaces". */
  lemma MangleFixtureSpaceRun()
    ensures Mangle("Leading    within and trailing spaces") == "leading----within-and-trailing-spaces"
  {
    assert "Leading    within and trailing spaces" == (("Lead" + "ing ") + "   " + ("with" + "in ")) + ("and " + ("trai" + "ling") + (" spa" + "ces"));
    MangleFixtureSpaceRunPieces();
  }
}
