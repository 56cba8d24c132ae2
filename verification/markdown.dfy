/**
 * The Markdown document codec, at the level of lines and headings. A line
 * starting with '#' is a heading whatever follows the hashes ("##Note 2" is
 * one); its level is the number of leading hashes and its name the text
 * after them, trimmed, up to a "<!-- Metadata:" block if there is one. The
 * first heading is the outline's title, every later heading a note of depth
 * level - 1, and the lines up to the next heading are its body.
 *
 * Saving writes each heading again. A MINDFORGER outline gets canonical
 * headings with a metadata block; a MARKDOWN outline never gets one, and a
 * heading still saying what it said when loaded is written back verbatim,
 * so that an unmodified MARKDOWN document is saved byte for byte.
 */
module Markdown {
  import opened Wrappers
  import opened Strings
  import opened Outlines
  import Repositories

  /** Where a heading's metadata block starts. */
  const MetadataMarker := "<!-- Metadata:"

  /** A parsed heading line: its level (the number of leading hashes), its name and whether it carries metadata. */
  datatype Heading = Heading(level: nat, name: string, meta: bool)

  /** A heading line with the body lines that follow it up to the next heading. */
  datatype Section = Section(heading: string, body: seq<string>)

  predicate IsHeadingLine(line: string)
  {
    |line| > 0 && line[0] == '#'
  }

  // ---------------------------------------------------------------------------
  // Headings
  // ---------------------------------------------------------------------------

  /** The number of leading hashes. */
  function Hashes(line: string): (n: nat)
    ensures n <= |line| && line[..n] == Repeat('#', n)
    ensures n == |line| || line[n] != '#'
  {
    if |line| > 0 && line[0] == '#' then
      var n := Hashes(line[1..]);
      assert line[..n + 1] == [line[0]] + line[1..][..n];
      n + 1
    else 0
  }

  /** `s` is `name` with some spaces before and after it. */
  ghost predicate PaddedBy(s: string, name: string)
  {
    exists a: nat, b: nat :: s == Repeat(' ', a) + name + Repeat(' ', b)
  }

  /**
   * The text of a heading after its hashes: the name, and whether a metadata
   * block follows it. Without a block the whole text is the name padded by
   * spaces; with one, the text before the first marker is.
   */
  function HeadingText(rest: string): (r: (string, bool))
    ensures r.1 <==> IndexOf(rest, MetadataMarker).Some?
    ensures Trimmed(r.0)
    ensures !r.1 ==> PaddedBy(rest, r.0)
    ensures r.1 ==> exists i: nat ::
              && i <= |rest| && PaddedBy(rest[..i], r.0) && StartsWith(rest[i..], MetadataMarker)
              && forall k :: 0 <= k < i ==> !OccursAt(rest, MetadataMarker, k)
  {
    match IndexOf(rest, MetadataMarker)
    case Some(i) =>
      var name := Trim(rest[..i]);
      assert StartsWith(rest[i..], MetadataMarker) by {
        assert rest[i..][..|MetadataMarker|] == rest[i..i + |MetadataMarker|];
      }
      (name, true)
    case None => (Trim(rest), false)
  }

  /** The heading a line holds, if it is a heading line. */
  function ParseHeading(line: string): (h: Option<Heading>)
    ensures h.Some? <==> IsHeadingLine(line)
    ensures h.Some? ==> h.value.level >= 1 && Trimmed(h.value.name)
    ensures h.Some? ==> h.value.level <= |line| && line[..h.value.level] == Repeat('#', h.value.level)
                        && (h.value.level == |line| || line[h.value.level] != '#')
  {
    var n := Hashes(line);
    if n == 0 then None
    else
      var (name, meta) := HeadingText(line[n..]);
      Some(Heading(n, name, meta))
  }

  /**
   * The name a heading line is read as is the text after its hashes with
   * the padding spaces removed: all of that text without a metadata block,
   * the text before the first marker with one.
   */
  lemma ParseHeadingName(line: string)
    ensures ParseHeading(line).Some? ==>
              var h := ParseHeading(line).value;
              var t := line[h.level..];
              && (!h.meta ==> PaddedBy(t, h.name))
              && (h.meta ==> exists i: nat ::
                    && i <= |t| && PaddedBy(t[..i], h.name) && StartsWith(t[i..], MetadataMarker)
                    && forall k :: 0 <= k < i ==> !OccursAt(t, MetadataMarker, k))
  {
    if ParseHeading(line).Some? {
      var n := Hashes(line);
      var r := HeadingText(line[n..]);
      assert ParseHeading(line).value == Heading(n, r.0, r.1);
    }
  }

  /** A heading written the canonical way: the hashes, a space, the name. */
  function HeadingLine(level: nat, name: string): (line: string)
    requires level >= 1
    ensures IsHeadingLine(line)
  {
    Repeat('#', level) + " " + name
  }

  /** The metadata block a MINDFORGER heading is saved with. */
  function MetadataBlock(n: Note): (block: string)
    ensures StartsWith(block, MetadataMarker) && '\n' !in block
  {
    var block := MetadataMarker + " reads: " + NatToString(n.readCount) + "; revision: " + NatToString(n.revision) + "; -->";
    assert block[..|MetadataMarker|] == MetadataMarker;
    block
  }

  /** No metadata block can start inside a text without '<'. */
  lemma {:induction false} NoMarkerBefore(prefix: string, rest: string)
    requires '<' !in prefix
    ensures forall k :: 0 <= k < |prefix| ==> !OccursAt(prefix + rest, MetadataMarker, k)
  {
    forall k | 0 <= k < |prefix|
      ensures !OccursAt(prefix + rest, MetadataMarker, k)
    {
      assert MetadataMarker[0] == '<';
      assert (prefix + rest)[k] == prefix[k];
    }
  }

  /** Hashes followed by anything but a hash count as exactly that many. */
  lemma {:induction false} HashesOf(level: nat, t: string)
    requires |t| == 0 || t[0] != '#'
    ensures Hashes(Repeat('#', level) + t) == level
  {
    if level > 0 {
      var line := Repeat('#', level) + t;
      assert line[1..] == Repeat('#', level - 1) + t;
      HashesOf(level - 1, t);
    } else {
      assert Repeat('#', level) + t == t;
    }
  }

  /** The text after the hashes of a canonical heading reads as its name, without metadata. */
  lemma PlainText(name: string)
    requires Trimmed(name) && '<' !in name
    ensures HeadingText(" " + name) == (name, false)
  {
    var rest := " " + name;
    NoMarkerBefore(rest, "");
    assert rest + "" == rest;
    TrimPadded(name, 1, 0);
    assert Repeat(' ', 1) + name + Repeat(' ', 0) == rest;
  }

  /** The text after the hashes of a canonical heading with a metadata block reads as its name, with metadata. */
  lemma MetaText(name: string, block: string)
    requires Trimmed(name) && '<' !in name && StartsWith(block, MetadataMarker)
    ensures HeadingText(" " + name + " " + block) == (name, true)
  {
    var before := " " + name + " ";
    var rest := before + block;
    assert rest == " " + name + " " + block;
    NoMarkerBefore(before, block);
    assert OccursAt(rest, MetadataMarker, |before|);
    assert IndexOf(rest, MetadataMarker) == Some(|before|);
    assert rest[..|before|] == Repeat(' ', 1) + name + Repeat(' ', 1);
    TrimPadded(name, 1, 1);
  }

  /** The canonical heading of a trimmed name without '<' parses back to that level and name, without metadata. */
  lemma CanonicalHeading(level: nat, name: string)
    requires level >= 1 && Trimmed(name) && '<' !in name
    ensures ParseHeading(HeadingLine(level, name)) == Some(Heading(level, name, false))
  {
    var line := HeadingLine(level, name);
    var rest := " " + name;
    assert line == Repeat('#', level) + rest;
    HashesOf(level, rest);
    assert line[level..] == rest;
    PlainText(name);
  }

  /** Spaces before a trimmed name without '<' are dropped, and there is no metadata. */
  lemma PaddedText(pad: nat, name: string)
    requires Trimmed(name) && '<' !in name
    ensures HeadingText(Repeat(' ', pad) + name) == (name, false)
  {
    var rest := Repeat(' ', pad) + name;
    assert '<' !in rest by {
      RepeatWithout(' ', pad, '<');
    }
    NoMarkerBefore(rest, "");
    assert rest + "" == rest;
    TrimPadded(name, pad, 0);
    assert Repeat(' ', pad) + name + Repeat(' ', 0) == rest;
  }

  /**
   * Any number of spaces may stand between the hashes and the name, none
   * included ("##Note 2" is a level-2 heading named "Note 2"); they are not
   * part of the name.
   */
  lemma PaddedHeading(level: nat, pad: nat, name: string)
    requires level >= 1 && Trimmed(name) && '<' !in name
    requires pad > 0 || |name| == 0 || name[0] != '#'
    ensures ParseHeading(Repeat('#', level) + Repeat(' ', pad) + name) == Some(Heading(level, name, false))
  {
    var rest := Repeat(' ', pad) + name;
    var line := Repeat('#', level) + rest;
    assert line == Repeat('#', level) + Repeat(' ', pad) + name;
    HashesOf(level, rest);
    assert line[level..] == rest;
    PaddedText(pad, name);
  }

  /** The canonical heading followed by a metadata block parses back to that level and name, with metadata. */
  lemma CanonicalMetaHeading(level: nat, name: string, block: string)
    requires level >= 1 && Trimmed(name) && '<' !in name && StartsWith(block, MetadataMarker)
    ensures ParseHeading(HeadingLine(level, name) + " " + block) == Some(Heading(level, name, true))
  {
    var line := HeadingLine(level, name) + " " + block;
    var rest := " " + name + " " + block;
    assert line == Repeat('#', level) + rest;
    HashesOf(level, rest);
    assert line[level..] == rest;
    MetaText(name, block);
  }

  // ---------------------------------------------------------------------------
  // Sections
  // ---------------------------------------------------------------------------

  /** None of the lines is a heading. */
  predicate Plain(lines: seq<string>)
  {
    forall k :: 0 <= k < |lines| ==> !IsHeadingLine(lines[k])
  }

  /** Every section starts with a heading line and has none in its body. */
  predicate Sectioned(secs: seq<Section>)
  {
    forall k :: 0 <= k < |secs| ==> IsHeadingLine(secs[k].heading) && Plain(secs[k].body)
  }

  /** The lines of the sections, in order. */
  function SectionLines(secs: seq<Section>): (lines: seq<string>)
  {
    if |secs| == 0 then [] else [secs[0].heading] + secs[0].body + SectionLines(secs[1..])
  }

  /**
   * Cuts lines at every heading line: the lines before the first heading,
   * then one section per heading.
   */
  function Chunk(lines: seq<string>): (r: (seq<string>, seq<Section>))
    ensures r.0 + SectionLines(r.1) == lines
    ensures Plain(r.0) && Sectioned(r.1)
  {
    if |lines| == 0 then ([], [])
    else
      var (lead, secs) := Chunk(lines[1..]);
      assert lines == [lines[0]] + lines[1..];
      if IsHeadingLine(lines[0]) then ([], [Section(lines[0], lead)] + secs)
      else ([lines[0]] + lead, secs)
  }

  /** Lines before a chunked text that has no lead become its lead. */
  lemma {:induction false} ChunkLead(lead: seq<string>, rest: seq<string>)
    requires Plain(lead) && Chunk(rest).0 == []
    ensures Chunk(lead + rest) == (lead, Chunk(rest).1)
  {
    if |lead| > 0 {
      var lines := lead + rest;
      assert lines[0] == lead[0] && !IsHeadingLine(lead[0]);
      assert lines[1..] == lead[1..] + rest;
      assert Plain(lead[1..]) by {
        assert forall k :: 0 <= k < |lead| - 1 ==> lead[1..][k] == lead[k + 1];
      }
      ChunkLead(lead[1..], rest);
      assert Chunk(lines) == ([lead[0]] + lead[1..], Chunk(rest).1);
      assert [lead[0]] + lead[1..] == lead;
    } else {
      assert lead + rest == rest;
    }
  }

  /** Chunking the lines of well-formed sections gives back the sections. */
  lemma {:induction false} ChunkSections(secs: seq<Section>)
    requires Sectioned(secs)
    ensures Chunk(SectionLines(secs)) == ([], secs)
  {
    if |secs| > 0 {
      var first, others := secs[0], secs[1..];
      var tail := SectionLines(others);
      var lines := SectionLines(secs);
      assert lines == [first.heading] + (first.body + tail);
      assert Chunk(first.body + tail) == (first.body, others) by {
        assert Sectioned(others);
        ChunkSections(others);
        ChunkLead(first.body, tail);
      }
      assert lines[1..] == first.body + tail;
      assert [first] + others == secs;
    }
  }

  /** Chunking is undone by writing the lead and the sections out, and the other way round. */
  lemma ChunkInverse(lead: seq<string>, secs: seq<Section>)
    requires Plain(lead) && Sectioned(secs)
    ensures Chunk(lead + SectionLines(secs)) == (lead, secs)
  {
    ChunkSections(secs);
    ChunkLead(lead, SectionLines(secs));
  }

  // ---------------------------------------------------------------------------
  // Loading
  // ---------------------------------------------------------------------------

  /** A section as a note: name and level from its heading, depth level - 1, counters not yet read. */
  function ToNote(sec: Section): (n: Note)
    requires IsHeadingLine(sec.heading)
    ensures var h := ParseHeading(sec.heading).value;
            n.name == h.name && n.depth + 1 == h.level && n.body == sec.body && n.heading == Some(sec.heading)
  {
    var h := ParseHeading(sec.heading).value;
    Note(h.name, h.level - 1, 0, 0, sec.body, Some(sec.heading))
  }

  function ToNotes(secs: seq<Section>): (ns: seq<Note>)
    requires Sectioned(secs)
    ensures |ns| == |secs| && forall k :: 0 <= k < |secs| ==> ns[k] == ToNote(secs[k])
  {
    if |secs| == 0 then [] else [ToNote(secs[0])] + ToNotes(secs[1..])
  }

  /** Some section's heading carries metadata. */
  predicate AnyMetadata(secs: seq<Section>)
    requires Sectioned(secs)
  {
    exists k :: 0 <= k < |secs| && ParseHeading(secs[k].heading).value.meta
  }

  /** The title followed by the notes. */
  function AllNotes(o: Outline): (ns: seq<Note>)
    ensures |ns| == |o.notes| + (if o.title.Some? then 1 else 0)
  {
    (if o.title.Some? then [o.title.value] else []) + o.notes
  }

  /** The heading lines among the lines, in order. */
  function HeadingLines(lines: seq<string>): (hs: seq<string>)
  {
    if |lines| == 0 then []
    else (if IsHeadingLine(lines[0]) then [lines[0]] else []) + HeadingLines(lines[1..])
  }

  /** The heading lines of the sections, in order. */
  function Headings(secs: seq<Section>): (hs: seq<string>)
    ensures |hs| == |secs| && forall k :: 0 <= k < |secs| ==> hs[k] == secs[k].heading
  {
    seq(|secs|, k requires 0 <= k < |secs| => secs[k].heading)
  }

  /** Chunking makes one section per heading line, in the order of the lines. */
  lemma {:induction false} ChunkHeadings(lines: seq<string>)
    ensures Headings(Chunk(lines).1) == HeadingLines(lines)
  {
    if |lines| > 0 {
      ChunkHeadings(lines[1..]);
      var (lead, secs) := Chunk(lines[1..]);
      if IsHeadingLine(lines[0]) {
        assert Headings([Section(lines[0], lead)] + secs) == [lines[0]] + Headings(secs);
      }
    }
  }

  /**
   * Loads the text of the document `key` in repository `repo`: lines are
   * cut at '\n', the first section is the title and the rest are notes, and
   * the format is resolved from the repository and the metadata found.
   * The lines before the first heading are kept as the lead, and there is
   * one note (title included) per heading line.
   */
  function Parse(key: string, text: string, repo: Repositories.Repository): (o: Outline)
    ensures o.key == key
    ensures Plain(o.lead) && o.lead <= Split(text, '\n')
    ensures |AllNotes(o)| == |HeadingLines(Split(text, '\n'))|
  {
    ChunkHeadings(Split(text, '\n'));
    var (lead, secs) := Chunk(Split(text, '\n'));
    assert lead <= Split(text, '\n') by {
      assert Split(text, '\n')[..|lead|] == (lead + SectionLines(secs))[..|lead|];
    }
    var format := Repositories.ResolveFormat(repo, AnyMetadata(secs));
    var all := ToNotes(secs);
    if |all| == 0 then Outline(key, format, lead, None, [])
    else Outline(key, format, lead, Some(all[0]), all[1..])
  }

  /** What a loaded outline is made of: the lead and the notes of the chunked lines, and the format. */
  lemma ParseSpec(key: string, text: string, repo: Repositories.Repository)
    ensures var (lead, secs) := Chunk(Split(text, '\n'));
            var o := Parse(key, text, repo);
            && o.lead == lead
            && AllNotes(o) == ToNotes(secs)
            && o.format == Repositories.ResolveFormat(repo, AnyMetadata(secs))
  {
    var (lead, secs) := Chunk(Split(text, '\n'));
    var all := ToNotes(secs);
    if |all| > 0 {
      assert [all[0]] + all[1..] == all;
    }
  }

  /**
   * Each note of a loaded outline, title first, comes from the heading line
   * at the same position among the text's heading lines: its name is that
   * heading's name and its depth is the heading's level minus one.
   */
  lemma ParseFollowsHeadings(key: string, text: string, repo: Repositories.Repository)
    ensures var hs := HeadingLines(Split(text, '\n'));
            var ns := AllNotes(Parse(key, text, repo));
            && |ns| == |hs|
            && forall k :: 0 <= k < |hs| ==>
                 && ParseHeading(hs[k]).Some?
                 && ns[k].name == ParseHeading(hs[k]).value.name
                 && ns[k].depth + 1 == ParseHeading(hs[k]).value.level
  {
    var (lead, secs) := Chunk(Split(text, '\n'));
    ChunkHeadings(Split(text, '\n'));
    ParseSpec(key, text, repo);
  }

  // ---------------------------------------------------------------------------
  // Saving
  // ---------------------------------------------------------------------------

  /**
   * The heading line a note is saved with. MINDFORGER: canonical, followed
   * by a metadata block. MARKDOWN: the heading it was loaded from while that
   * still reads as this note's level and name without metadata, otherwise
   * canonical.
   */
  function SavedHeading(format: Format, n: Note): (line: string)
    ensures IsHeadingLine(line)
  {
    var level := n.depth + 1;
    match format
    case MINDFORGER => HeadingLine(level, n.name) + " " + MetadataBlock(n)
    case MARKDOWN =>
      if n.heading.Some? && ParseHeading(n.heading.value) == Some(Heading(level, n.name, false)) then n.heading.value
      else HeadingLine(level, n.name)
  }

  function ToSections(format: Format, ns: seq<Note>): (secs: seq<Section>)
    ensures |secs| == |ns|
    ensures forall k :: 0 <= k < |ns| ==> secs[k] == Section(SavedHeading(format, ns[k]), ns[k].body)
  {
    if |ns| == 0 then [] else [Section(SavedHeading(format, ns[0]), ns[0].body)] + ToSections(format, ns[1..])
  }

  /** The lines of a saved outline: the lead, then a section per note, title first. */
  function SavedLines(o: Outline): seq<string>
  {
    o.lead + SectionLines(ToSections(o.format, AllNotes(o)))
  }

  /**
   * Saves an outline: its lines joined with '\n'. When there is a line to
   * save and none holds a line break, cutting the text at '\n' gives the
   * saved lines back.
   */
  function Serialize(o: Outline): (text: string)
    ensures |SavedLines(o)| >= 1 && OneLine(SavedLines(o)) ==> Split(text, '\n') == SavedLines(o)
  {
    var lines := SavedLines(o);
    if |lines| >= 1 && OneLine(lines) then
      SplitJoin(lines, '\n');
      Join(lines, '\n')
    else
      Join(lines, '\n')
  }

  // ---------------------------------------------------------------------------
  // Properties
  // ---------------------------------------------------------------------------

  /** In MARKDOWN, a note loaded from a heading without metadata is saved with that very heading. */
  lemma MarkdownKeepsHeadings(secs: seq<Section>)
    requires Sectioned(secs) && !AnyMetadata(secs)
    ensures ToSections(MARKDOWN, ToNotes(secs)) == secs
  {
    var ns := ToNotes(secs);
    var out := ToSections(MARKDOWN, ns);
    forall k | 0 <= k < |secs|
      ensures out[k] == secs[k]
    {
      assert !ParseHeading(secs[k].heading).value.meta;
      MarkdownKeepsHeading(secs[k]);
    }
  }

  /** One section: a heading without metadata is the heading its note is saved with in MARKDOWN. */
  lemma MarkdownKeepsHeading(sec: Section)
    requires IsHeadingLine(sec.heading) && !ParseHeading(sec.heading).value.meta
    ensures SavedHeading(MARKDOWN, ToNote(sec)) == sec.heading && ToNote(sec).body == sec.body
  {
    var n := ToNote(sec);
    assert ParseHeading(sec.heading) == Some(Heading(n.depth + 1, n.name, false));
  }

  /** A document loaded as MARKDOWN and saved unmodified is written back byte for byte. */
  lemma MarkdownFidelity(key: string, text: string, repo: Repositories.Repository)
    requires Parse(key, text, repo).format == MARKDOWN
    ensures Serialize(Parse(key, text, repo)) == text
  {
    var lines := Split(text, '\n');
    var (lead, secs) := Chunk(lines);
    ParseSpec(key, text, repo);
    MarkdownKeepsHeadings(secs);
    JoinSplit(text, '\n');
  }

  /** A name that can be saved in a heading and read back unchanged: trimmed, on one line, without '<'. */
  predicate SavableName(name: string)
  {
    Trimmed(name) && '\n' !in name && '<' !in name
  }

  /** A MINDFORGER note is saved with a metadata block, and its heading reads back as its level and name. */
  lemma MindForgerHeadingMeta(n: Note)
    requires SavableName(n.name)
    ensures ParseHeading(SavedHeading(MINDFORGER, n)) == Some(Heading(n.depth + 1, n.name, true))
  {
    CanonicalMetaHeading(n.depth + 1, n.name, MetadataBlock(n));
  }

  /** A MARKDOWN note is saved without a metadata block, and its heading reads back as its level and name. */
  lemma MarkdownHeadingPlain(n: Note)
    requires SavableName(n.name)
    ensures ParseHeading(SavedHeading(MARKDOWN, n)) == Some(Heading(n.depth + 1, n.name, false))
  {
    var level := n.depth + 1;
    var line := SavedHeading(MARKDOWN, n);
    var want := Some(Heading(level, n.name, false));
    if n.heading.Some? && ParseHeading(n.heading.value) == want {
      assert line == n.heading.value;
    } else {
      assert ParseHeading(line) == want by {
        assert line == HeadingLine(level, n.name);
        CanonicalHeading(level, n.name);
      }
    }
  }

  /** A MARKDOWN note renamed since it was loaded no longer matches its heading, and is written with a canonical one. */
  lemma MarkdownRenamed(n: Note, was: string)
    requires n.heading.Some? && ParseHeading(n.heading.value) == Some(Heading(n.depth + 1, was, false)) && was != n.name
    ensures SavedHeading(MARKDOWN, n) == HeadingLine(n.depth + 1, n.name)
  {
  }

  /** No line holds a line break. */
  predicate OneLine(lines: seq<string>)
  {
    forall k :: 0 <= k < |lines| ==> '\n' !in lines[k]
  }

  /** A note that can be saved and read back: a savable name, a body of non-heading single lines, a single-line raw heading. */
  predicate SavableNote(n: Note)
  {
    && SavableName(n.name)
    && Plain(n.body) && OneLine(n.body)
    && (n.heading.Some? ==> '\n' !in n.heading.value)
  }

  /** An outline whose saved text reads back as the same outline: it has some line to save and every part is savable. */
  predicate Savable(o: Outline)
  {
    && (|o.lead| > 0 || |AllNotes(o)| > 0)
    && Plain(o.lead) && OneLine(o.lead)
    && forall k :: 0 <= k < |AllNotes(o)| ==> SavableNote(AllNotes(o)[k])
  }

  /** A savable note's saved heading is a single line that reads back as its level and name, with metadata exactly in MINDFORGER. */
  lemma SavedHeadingReads(format: Format, n: Note)
    requires SavableNote(n)
    ensures '\n' !in SavedHeading(format, n)
    ensures ParseHeading(SavedHeading(format, n)) == Some(Heading(n.depth + 1, n.name, format == MINDFORGER))
  {
    assert '\n' !in SavedHeading(format, n) by {
      SavedHeadingOneLine(format, n);
    }
    if format == MINDFORGER {
      MindForgerHeadingMeta(n);
    } else {
      MarkdownHeadingPlain(n);
    }
  }

  /** A savable note's saved heading has no line break. */
  lemma SavedHeadingOneLine(format: Format, n: Note)
    requires SavableNote(n)
    ensures '\n' !in SavedHeading(format, n)
  {
    var line := HeadingLine(n.depth + 1, n.name);
    assert '\n' !in line by {
      RepeatWithout('#', n.depth + 1, '\n');
    }
    if format == MINDFORGER {
      assert SavedHeading(format, n) == line + " " + MetadataBlock(n);
    }
  }

  /** The lines of single-line sections are single lines. */
  lemma {:induction false} SectionLinesOneLine(secs: seq<Section>)
    requires forall k :: 0 <= k < |secs| ==> '\n' !in secs[k].heading && OneLine(secs[k].body)
    ensures OneLine(SectionLines(secs))
  {
    if |secs| > 0 {
      SectionLinesOneLine(secs[1..]);
    }
  }

  /** Saved notes make well-formed sections. */
  lemma SavedSectioned(format: Format, ns: seq<Note>)
    requires forall k :: 0 <= k < |ns| ==> SavableNote(ns[k])
    ensures Sectioned(ToSections(format, ns))
  {
  }

  /** Saved notes are written on single lines. */
  lemma SavedOneLine(format: Format, ns: seq<Note>)
    requires forall k :: 0 <= k < |ns| ==> SavableNote(ns[k])
    ensures OneLine(SectionLines(ToSections(format, ns)))
  {
    var secs := ToSections(format, ns);
    forall k | 0 <= k < |ns|
      ensures '\n' !in secs[k].heading && OneLine(secs[k].body)
    {
      SavedHeadingReads(format, ns[k]);
    }
    SectionLinesOneLine(secs);
  }

  /** Saved notes, read back, have the names, depths and bodies they were saved with. */
  lemma SavedContent(format: Format, ns: seq<Note>)
    requires forall k :: 0 <= k < |ns| ==> SavableNote(ns[k])
    requires Sectioned(ToSections(format, ns))
    ensures forall k :: 0 <= k < |ns| ==> SameContent(ToNotes(ToSections(format, ns))[k], ns[k])
  {
    var secs := ToSections(format, ns);
    forall k | 0 <= k < |ns|
      ensures SameContent(ToNotes(secs)[k], ns[k])
    {
      SavedHeadingReads(format, ns[k]);
    }
  }

  /** Saved notes carry metadata exactly in MINDFORGER. */
  lemma SavedMetadata(format: Format, ns: seq<Note>)
    requires |ns| > 0 && forall k :: 0 <= k < |ns| ==> SavableNote(ns[k])
    requires Sectioned(ToSections(format, ns))
    ensures AnyMetadata(ToSections(format, ns)) <==> format == MINDFORGER
  {
    var secs := ToSections(format, ns);
    forall k | 0 <= k < |ns|
      ensures ParseHeading(secs[k].heading).value.meta == (format == MINDFORGER)
    {
      SavedHeadingReads(format, ns[k]);
    }
    assert ParseHeading(secs[0].heading).value.meta == (format == MINDFORGER);
  }

  /**
   * The save policy: a savable outline is written with a metadata block on
   * its headings exactly when it is MINDFORGER.
   */
  lemma SaveWritesMetadata(o: Outline)
    requires Savable(o) && |AllNotes(o)| > 0
    ensures Sectioned(ToSections(o.format, AllNotes(o)))
    ensures AnyMetadata(ToSections(o.format, AllNotes(o))) <==> o.format == MINDFORGER
  {
    SavedSectioned(o.format, AllNotes(o));
    SavedMetadata(o.format, AllNotes(o));
  }

  /** The saved text of a savable outline, cut at line breaks, is its saved lines. */
  lemma SavedTextLines(o: Outline)
    requires Savable(o)
    ensures Split(Serialize(o), '\n') == SavedLines(o)
  {
    var ns := AllNotes(o);
    var secs := ToSections(o.format, ns);
    var lines := SavedLines(o);
    SavedSectioned(o.format, ns);
    SavedOneLine(o.format, ns);
    assert OneLine(lines) by {
      forall k | 0 <= k < |lines|
        ensures '\n' !in lines[k]
      {
        if k >= |o.lead| {
          assert lines[k] == SectionLines(secs)[k - |o.lead|];
        }
      }
    }
    assert |lines| >= 1 by {
      if |o.lead| == 0 {
        assert SectionLines(secs)[0] == secs[0].heading;
      }
    }
  }

  /** Two notes say the same: name, depth and body. */
  predicate SameContent(a: Note, b: Note)
  {
    a.name == b.name && a.depth == b.depth && a.body == b.body
  }

  /**
   * Saving a savable outline and loading the text again gives back its lead
   * and the names, depths and bodies of its title and notes, in order; the
   * reloaded outline has metadata exactly when the saved one was MINDFORGER.
   */
  lemma SaveLoad(o: Outline, key: string, repo: Repositories.Repository)
    requires Savable(o)
    ensures var p := Parse(key, Serialize(o), repo);
            && p.lead == o.lead
            && |AllNotes(p)| == |AllNotes(o)|
            && (forall k :: 0 <= k < |AllNotes(o)| ==> SameContent(AllNotes(p)[k], AllNotes(o)[k]))
            && p.format == Repositories.ResolveFormat(repo, |AllNotes(o)| > 0 && o.format == MINDFORGER)
  {
    var ns := AllNotes(o);
    var secs := ToSections(o.format, ns);
    var lines := SavedLines(o);
    var text := Serialize(o);
    SavedSectioned(o.format, ns);
    SavedTextLines(o);
    assert Chunk(lines) == (o.lead, secs) by {
      ChunkInverse(o.lead, secs);
    }
    ParseSpec(key, text, repo);
    SavedContent(o.format, ns);
    if |ns| > 0 {
      SavedMetadata(o.format, ns);
    }
  }
}
