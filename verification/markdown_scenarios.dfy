/**
 * The Markdown codec on the documents of the repository's own fixtures:
 * how their headings read, which format they load with in each kind of
 * repository, and what saving them writes.
 */
module MarkdownScenarios {
  import opened Wrappers
  import opened Strings
  import opened Outlines
  import opened Markdown
  import Mangling
  import Repositories

  /** A section that is one heading line followed by single body lines that are not headings. */
  predicate Clean(sec: Section)
  {
    IsHeadingLine(sec.heading) && '\n' !in sec.heading && Plain(sec.body) && OneLine(sec.body)
  }

  /** The text of a document made of sections, without lead lines. */
  function Document(secs: seq<Section>): string
  {
    Join(SectionLines(secs), '\n')
  }

  /**
   * A document without lead lines loads as its first section for the title
   * and the others for the notes, in order.
   */
  lemma Loads(key: string, secs: seq<Section>, repo: Repositories.Repository)
    requires |secs| > 0 && forall k :: 0 <= k < |secs| ==> Clean(secs[k])
    ensures Sectioned(secs)
    ensures var o := Parse(key, Document(secs), repo);
            && o.format == Repositories.ResolveFormat(repo, AnyMetadata(secs))
            && o.lead == [] && o.title.Some?
            && AllNotes(o) == ToNotes(secs)
  {
    var lines := SectionLines(secs);
    assert Split(Document(secs), '\n') == lines by {
      SectionLinesOneLine(secs);
      assert lines[0] == secs[0].heading;
      SplitJoin(lines, '\n');
    }
    assert Chunk(lines) == ([], secs) by {
      ChunkInverse([], secs);
      assert [] + lines == lines;
    }
    ParseSpec(key, Document(secs), repo);
  }

  /** The name a clean section's heading gives its note. */
  function NameOf(sec: Section): string
    requires IsHeadingLine(sec.heading)
  {
    ParseHeading(sec.heading).value.name
  }

  /** A document of a title and two notes, each a clean section, loads as those three notes. */
  lemma LoadsThree(key: string, a: Section, b: Section, c: Section, repo: Repositories.Repository)
    requires Clean(a) && Clean(b) && Clean(c)
    ensures Sectioned([a, b, c])
    ensures var o := Parse(key, Document([a, b, c]), repo);
            && o.format == Repositories.ResolveFormat(repo, AnyMetadata([a, b, c]))
            && o.lead == [] && o.title == Some(ToNote(a)) && o.notes == [ToNote(b), ToNote(c)]
  {
    var secs := [a, b, c];
    assert forall k :: 0 <= k < |secs| ==> Clean(secs[k]);
    Loads(key, secs, repo);
    var o := Parse(key, Document(secs), repo);
    assert AllNotes(o) == [ToNote(a), ToNote(b), ToNote(c)] by {
      ToNotesThree(a, b, c);
    }
    TitleAndNotes(o, ToNote(a), [ToNote(b), ToNote(c)]);
  }

  /** An outline of three clean sections with savable names can be saved and read back. */
  lemma SavableThree(o: Outline, a: Section, b: Section, c: Section)
    requires Clean(a) && Clean(b) && Clean(c)
    requires SavableName(NameOf(a)) && SavableName(NameOf(b)) && SavableName(NameOf(c))
    requires o.lead == [] && o.title == Some(ToNote(a)) && o.notes == [ToNote(b), ToNote(c)]
    ensures Savable(o)
  {
    SavableSection(a);
    SavableSection(b);
    SavableSection(c);
    SavableOf(o, ToNote(a), ToNote(b), ToNote(c));
  }

  lemma ToNotesThree(a: Section, b: Section, c: Section)
    requires Clean(a) && Clean(b) && Clean(c)
    ensures Sectioned([a, b, c])
    ensures ToNotes([a, b, c]) == [ToNote(a), ToNote(b), ToNote(c)]
  {
    var ns := ToNotes([a, b, c]);
    assert ns[0] == ToNote(a) && ns[1] == ToNote(b) && ns[2] == ToNote(c);
  }

  /** The title and the notes of an outline with a title, read off its list of all notes. */
  lemma TitleAndNotes(o: Outline, first: Note, rest: seq<Note>)
    requires o.title.Some? && AllNotes(o) == [first] + rest
    ensures o.title == Some(first) && o.notes == rest
  {
    assert AllNotes(o)[1..] == o.notes;
  }

  /** Three sections carry metadata when one of them does. */
  lemma AnyMetadataThree(a: Section, b: Section, c: Section)
    requires Clean(a) && Clean(b) && Clean(c)
    ensures Sectioned([a, b, c])
    ensures AnyMetadata([a, b, c])
        <==> ParseHeading(a.heading).value.meta || ParseHeading(b.heading).value.meta || ParseHeading(c.heading).value.meta
  {
    var secs := [a, b, c];
    assert secs[0] == a && secs[1] == b && secs[2] == c;
    if AnyMetadata(secs) {
      var k :| 0 <= k < |secs| && ParseHeading(secs[k].heading).value.meta;
      assert k == 0 || k == 1 || k == 2;
    }
    if ParseHeading(a.heading).value.meta {
      assert ParseHeading(secs[0].heading).value.meta;
    } else if ParseHeading(b.heading).value.meta {
      assert ParseHeading(secs[1].heading).value.meta;
    } else if ParseHeading(c.heading).value.meta {
      assert ParseHeading(secs[2].heading).value.meta;
    }
  }

  /** An outline without lead lines whose three notes are savable is savable. */
  lemma SavableOf(o: Outline, x: Note, y: Note, z: Note)
    requires o.lead == [] && o.title == Some(x) && o.notes == [y, z]
    requires SavableNote(x) && SavableNote(y) && SavableNote(z)
    ensures Savable(o)
  {
    assert AllNotes(o) == [x, y, z];
  }

  /** A clean section with a savable name loads as a savable note. */
  lemma SavableSection(sec: Section)
    requires Clean(sec) && SavableName(NameOf(sec))
    ensures SavableNote(ToNote(sec))
  {
  }

  // ---------------------------------------------------------------------------
  // Headings
  // ---------------------------------------------------------------------------

  /** "##Note 2": no space after the hashes, still a level-2 heading named "Note 2". */
  lemma GluedHeading()
    ensures ParseHeading("##Note 2") == Some(Heading(2, "Note 2", false))
  {
    assert "##Note 2" == Repeat('#', 2) + Repeat(' ', 0) + "Note 2";
    PaddedHeading(2, 0, "Note 2");
  }

  /** The name of the space-run fixture heading. */
  const spaceRun := (("Lead" + "ing ") + "   " + ("with" + "in ")) + ("and " + ("trai" + "ling") + (" spa" + "ces"))

  lemma SpaceRunSpelling()
    ensures spaceRun == "Leading    within and trailing spaces"
  {
  }

  /**
   * "#   Leading    within and trailing spaces": the spaces after the hashes
   * are dropped, the ones inside the name are kept, and each of them turns
   * into a hyphen in the note's anchor.
   */
  lemma SpaceRunHeading()
    ensures ParseHeading("#   " + spaceRun) == Some(Heading(1, spaceRun, false))
    ensures Mangling.Mangle(spaceRun) == "leading----within-and-trailing-spaces"
  {
    assert Trimmed(spaceRun) && '<' !in spaceRun;
    assert "#   " + spaceRun == Repeat('#', 1) + Repeat(' ', 3) + spaceRun;
    PaddedHeading(1, 3, spaceRun);
    Mangling.MangleFixtureSpaceRunPieces();
  }

  // ---------------------------------------------------------------------------
  // Headings the fixture documents share
  // ---------------------------------------------------------------------------

  lemma HeadingNote1()
    ensures ParseHeading("## Note 1") == Some(Heading(2, "Note 1", false))
  {
    assert "## Note 1" == Repeat('#', 2) + Repeat(' ', 1) + "Note 1";
    PaddedHeading(2, 1, "Note 1");
  }

  lemma HeadingNote2()
    ensures ParseHeading("## Note 2") == Some(Heading(2, "Note 2", false))
  {
    assert "## Note 2" == Repeat('#', 2) + Repeat(' ', 1) + "Note 2";
    PaddedHeading(2, 1, "Note 2");
  }

  lemma HeadingFirstOutline()
    ensures ParseHeading("# First Outline") == Some(Heading(1, "First Outline", false))
  {
    assert "# First Outline" == Repeat('#', 1) + Repeat(' ', 1) + "First Outline";
    PaddedHeading(1, 1, "First Outline");
  }

  // ---------------------------------------------------------------------------
  // A MINDFORGER tree: a document without metadata gets it once saved
  // ---------------------------------------------------------------------------

  const note1 := Section("## Note 1", ["Note 1 text.", ""])
  const note2 := Section("## Note 2", ["Note 2 text.", ""])
  const firstOutline := Section("# First Outline", ["", "First outline text.", ""])

  lemma Note1Clean()
    ensures Clean(note1)
  {
  }

  lemma Note1Reads()
    ensures ToNote(note1) == Note("Note 1", 1, 0, 0, note1.body, Some(note1.heading))
  {
    HeadingNote1();
  }

  lemma Note2Clean()
    ensures Clean(note2)
  {
  }

  lemma Note2Reads()
    ensures ToNote(note2) == Note("Note 2", 1, 0, 0, note2.body, Some(note2.heading))
  {
    HeadingNote2();
  }

  lemma FirstOutlineClean()
    ensures Clean(firstOutline)
  {
  }

  lemma FirstOutlineReads()
    ensures ToNote(firstOutline) == Note("First Outline", 0, 0, 0, firstOutline.body, Some(firstOutline.heading))
  {
    HeadingFirstOutline();
  }

  lemma FixtureNamesSavable()
    ensures SavableName("First Outline") && SavableName("First Markdown")
    ensures SavableName("Note 1") && SavableName("Note 2") && SavableName("Dirty")
  {
  }

  /** The first document of the MINDFORGER tree: a title and two notes, no metadata. */
  const mfFirst := [firstOutline, note1, note2]

  /**
   * In a MINDFORGER tree a document without metadata loads as MINDFORGER,
   * and saving it writes metadata.
   */
  lemma MindForgerTreeWritesMetadata(key: string, repo: Repositories.Repository)
    requires repo.rtype == Repositories.MINDFORGER && repo.mode == Repositories.REPOSITORY
    ensures Sectioned(mfFirst) && !AnyMetadata(mfFirst)
    ensures var o := Parse(key, Document(mfFirst), repo);
            && o.format == MINDFORGER && o.Name() == "First Outline" && |o.notes| == 2
            && Sectioned(ToSections(o.format, AllNotes(o))) && AnyMetadata(ToSections(o.format, AllNotes(o)))
  {
    FirstOutlineClean();
    Note1Clean();
    Note2Clean();
    HeadingFirstOutline();
    HeadingNote1();
    HeadingNote2();
    AnyMetadataThree(firstOutline, note1, note2);
    LoadsThree(key, firstOutline, note1, note2, repo);
    var o := Parse(key, Document(mfFirst), repo);
    FixtureNamesSavable();
    SavableThree(o, firstOutline, note1, note2);
    SaveWritesMetadata(o);
  }

  /** The outline with its title renamed. */
  function Retitled(o: Outline, name: string): (r: Outline)
    requires o.title.Some?
    ensures r.Name() == name && r.lead == o.lead && r.notes == o.notes && r.format == o.format
  {
    o.(title := Some(o.title.value.(name := name)))
  }

  /** Renaming the title to a savable name keeps an outline savable. */
  lemma RetitledSavable(o: Outline, name: string)
    requires Savable(o) && o.title.Some? && SavableName(name)
    ensures Savable(Retitled(o, name))
  {
    var r := Retitled(o, name);
    assert forall k :: 1 <= k < |AllNotes(r)| ==> AllNotes(r)[k] == AllNotes(o)[k];
    assert SavableNote(AllNotes(o)[0]);
  }

  // ---------------------------------------------------------------------------
  // A MARKDOWN tree: documents stay as they are, renamed or not
  // ---------------------------------------------------------------------------

  const firstMarkdown := Section("# First Markdown", ["", "First outline text.", ""])

  lemma FirstMarkdownClean()
    ensures Clean(firstMarkdown)
  {
  }

  lemma HeadingFirstMarkdown()
    ensures ParseHeading("# First Markdown") == Some(Heading(1, "First Markdown", false))
  {
    assert "# First Markdown" == Repeat('#', 1) + Repeat(' ', 1) + "First Markdown";
    PaddedHeading(1, 1, "First Markdown");
  }

  /** The first document of the MARKDOWN tree. */
  const mdFirst := [firstMarkdown, note1, note2]

  /**
   * In a MARKDOWN tree a document loads as MARKDOWN and is written back
   * byte for byte; renamed, its title is written the canonical way and no
   * heading gets metadata.
   */
  lemma MarkdownTreeKeepsText(key: string, repo: Repositories.Repository)
    requires repo.rtype == Repositories.MARKDOWN && repo.mode == Repositories.REPOSITORY
    ensures var o := Parse(key, Document(mdFirst), repo);
            && o.format == MARKDOWN && o.Name() == "First Markdown"
            && Serialize(o) == Document(mdFirst)
            && var saved := ToSections(o.format, AllNotes(Retitled(o, "Dirty")));
               Sectioned(saved) && !AnyMetadata(saved) && saved[0].heading == "# Dirty"
  {
    FirstMarkdownClean();
    Note1Clean();
    Note2Clean();
    HeadingFirstMarkdown();
    HeadingNote1();
    HeadingNote2();
    AnyMetadataThree(firstMarkdown, note1, note2);
    LoadsThree(key, firstMarkdown, note1, note2, repo);
    var o := Parse(key, Document(mdFirst), repo);
    MarkdownFidelity(key, Document(mdFirst), repo);
    FixtureNamesSavable();
    SavableThree(o, firstMarkdown, note1, note2);
    RetitledSavable(o, "Dirty");
    SaveWritesMetadata(Retitled(o, "Dirty"));
    var title := Retitled(o, "Dirty").title.value;
    assert |"First Markdown"| != |"Dirty"|;
    MarkdownRenamed(title, "First Markdown");
    DirtyLine();
  }

  lemma DirtyLine()
    ensures HeadingLine(1, "Dirty") == "# Dirty"
  {
  }

  // ---------------------------------------------------------------------------
  // One MARKDOWN file: written back byte for byte
  // ---------------------------------------------------------------------------

  const firstMdFile := Section("# First Markdown", ["", "First MD text.", ""])
  const note1Spaced := Section("## Note 1", ["", "Note 1 text.", ""])

  lemma FirstMdFileClean()
    ensures Clean(firstMdFile)
  {
  }

  lemma Note1SpacedClean()
    ensures Clean(note1Spaced)
  {
  }

  /** The MARKDOWN file: a title and two notes, the first with an empty line after its heading. */
  const mdFile := [firstMdFile, note1Spaced, note2]

  /**
   * A repository of one file without metadata loads it as MARKDOWN and then
   * reports the MARKDOWN type; the file is written back byte for byte, and
   * renamed, no heading gets metadata.
   */
  lemma MarkdownFileKeepsText(key: string, repo: Repositories.Repository)
    requires repo.mode == Repositories.FILE
    ensures Sectioned(mdFile) && !AnyMetadata(mdFile)
    ensures Repositories.AfterLoad(repo, false).rtype == Repositories.MARKDOWN
    ensures var o := Parse(key, Document(mdFile), repo);
            && o.format == MARKDOWN && o.Name() == "First Markdown"
            && Serialize(o) == Document(mdFile)
            && var saved := ToSections(o.format, AllNotes(Retitled(o, "Dirty")));
               Sectioned(saved) && !AnyMetadata(saved)
  {
    FirstMdFileClean();
    Note1SpacedClean();
    Note2Clean();
    HeadingFirstMarkdown();
    HeadingNote1();
    HeadingNote2();
    AnyMetadataThree(firstMdFile, note1Spaced, note2);
    LoadsThree(key, firstMdFile, note1Spaced, note2, repo);
    var o := Parse(key, Document(mdFile), repo);
    MarkdownFidelity(key, Document(mdFile), repo);
    FixtureNamesSavable();
    SavableThree(o, firstMdFile, note1Spaced, note2);
    RetitledSavable(o, "Dirty");
    SaveWritesMetadata(Retitled(o, "Dirty"));
  }

  // ---------------------------------------------------------------------------
  // One MINDFORGER file: metadata read and written
  // ---------------------------------------------------------------------------

  /** A canonical heading followed by a metadata block with any fields reads with metadata. */
  lemma MetaHeadingOf(level: nat, name: string, fields: string)
    requires level >= 1 && Trimmed(name) && '<' !in name
    ensures ParseHeading(HeadingLine(level, name) + " " + (MetadataMarker + fields)) == Some(Heading(level, name, true))
  {
    var block := MetadataMarker + fields;
    assert block[..|MetadataMarker|] == MetadataMarker;
    CanonicalMetaHeading(level, name, block);
  }

  /**
   * The headings of the MINDFORGER file, given the fields of their metadata
   * blocks (type, created, reads, read, revision, modified, importance,
   * urgency, progress in the fixture): whatever the fields say, they are not
   * part of the name.
   */
  function FirstOutlineMeta(fields: string): Section
  {
    Section("# First Outline" + " " + (MetadataMarker + fields), ["", "First outline text.", ""])
  }

  function Note1Meta(fields: string): Section
  {
    Section("## Note 1" + " " + (MetadataMarker + fields), ["", "Note 1 text.", ""])
  }

  function Note2Meta(fields: string): Section
  {
    Section("## Note 2" + " " + (MetadataMarker + fields), ["Note 2 text.", ""])
  }

  lemma FirstOutlineMetaReads(fields: string)
    ensures ParseHeading(FirstOutlineMeta(fields).heading) == Some(Heading(1, "First Outline", true))
  {
    assert HeadingLine(1, "First Outline") == "# First Outline";
    MetaHeadingOf(1, "First Outline", fields);
  }

  lemma Note1MetaReads(fields: string)
    ensures ParseHeading(Note1Meta(fields).heading) == Some(Heading(2, "Note 1", true))
  {
    assert HeadingLine(2, "Note 1") == "## Note 1";
    MetaHeadingOf(2, "Note 1", fields);
  }

  lemma Note2MetaReads(fields: string)
    ensures ParseHeading(Note2Meta(fields).heading) == Some(Heading(2, "Note 2", true))
  {
    assert HeadingLine(2, "Note 2") == "## Note 2";
    MetaHeadingOf(2, "Note 2", fields);
  }

  lemma FirstOutlineMetaClean(fields: string)
    requires '\n' !in fields
    ensures Clean(FirstOutlineMeta(fields))
  {
  }

  lemma Note1MetaClean(fields: string)
    requires '\n' !in fields
    ensures Clean(Note1Meta(fields))
  {
  }

  lemma Note2MetaClean(fields: string)
    requires '\n' !in fields
    ensures Clean(Note2Meta(fields))
  {
  }

  /** The MINDFORGER file: every heading carries a metadata block. */
  function MfFile(f1: string, f2: string, f3: string): seq<Section>
  {
    [FirstOutlineMeta(f1), Note1Meta(f2), Note2Meta(f3)]
  }

  /**
   * A repository of one file with metadata, on one line each, loads it as
   * MINDFORGER and then reports the MINDFORGER type; renamed and saved, it
   * keeps metadata.
   */
  lemma MindForgerFileKeepsMetadata(key: string, repo: Repositories.Repository, f1: string, f2: string, f3: string)
    requires repo.mode == Repositories.FILE
    requires '\n' !in f1 && '\n' !in f2 && '\n' !in f3
    ensures Sectioned(MfFile(f1, f2, f3)) && AnyMetadata(MfFile(f1, f2, f3))
    ensures Repositories.AfterLoad(repo, true).rtype == Repositories.MINDFORGER
    ensures var o := Parse(key, Document(MfFile(f1, f2, f3)), repo);
            && o.format == MINDFORGER && o.Name() == "First Outline"
            && var saved := ToSections(o.format, AllNotes(Retitled(o, "Dirty")));
               Sectioned(saved) && AnyMetadata(saved)
  {
    var a, b, c := FirstOutlineMeta(f1), Note1Meta(f2), Note2Meta(f3);
    FirstOutlineMetaClean(f1);
    Note1MetaClean(f2);
    Note2MetaClean(f3);
    FirstOutlineMetaReads(f1);
    Note1MetaReads(f2);
    Note2MetaReads(f3);
    AnyMetadataThree(a, b, c);
    LoadsThree(key, a, b, c, repo);
    var o := Parse(key, Document(MfFile(f1, f2, f3)), repo);
    FixtureNamesSavable();
    SavableThree(o, a, b, c);
    RetitledSavable(o, "Dirty");
    SaveWritesMetadata(Retitled(o, "Dirty"));
  }

  // ---------------------------------------------------------------------------
  // The outline of the note tests: "##Note 2" is the second note
  // ---------------------------------------------------------------------------

  const testTitle := Section("# Test Outline", ["", "Outline text.", ""])
  const gluedNote2 := Section("##Note 2", ["Note 2 text.", ""])

  lemma TestTitleClean()
    ensures Clean(testTitle)
  {
  }

  lemma TestTitleReads()
    ensures ParseHeading(testTitle.heading) == Some(Heading(1, "Test Outline", false))
  {
    assert "# Test Outline" == Repeat('#', 1) + Repeat(' ', 1) + "Test Outline";
    PaddedHeading(1, 1, "Test Outline");
  }

  lemma GluedNote2Clean()
    ensures Clean(gluedNote2)
  {
  }

  const testOutline := [testTitle, note1, gluedNote2]

  /**
   * The outline "Test Outline" loads with two notes, "Note 1" and "Note 2",
   * both at depth 1: the glued heading is a note like the spaced one.
   */
  lemma GluedNoteLoads(key: string, repo: Repositories.Repository)
    ensures var o := Parse(key, Document(testOutline), repo);
            && o.Name() == "Test Outline" && |o.notes| == 2
            && o.notes[0].name == "Note 1" && o.notes[0].depth == 1
            && o.notes[1].name == "Note 2" && o.notes[1].depth == 1
  {
    TestTitleClean();
    TestTitleReads();
    Note1Clean();
    GluedNote2Clean();
    HeadingNote1();
    GluedHeading();
    LoadsThree(key, testTitle, note1, gluedNote2, repo);
  }
}
