/** The content list `create_pdf` hands to the PDF builder, as a sequence of
    abstract blocks: title, disclaimer and timestamp, the image when it
    decodes, the results heading, one bold title and the non-blank lines of
    each section, the interaction part, and the footer. Styles, sizes of the
    image and the build itself are not part of the model. */
module Report {
  import opened Text
  import opened Sections

  /** One flowable of the content list. Spacer heights are in hundredths of
      an inch; the blocks with fixed text carry none, `TextOf` gives it. */
  datatype Block =
    | Title
    | Spacer(hundredths: nat)
    | Disclaimer
    | Timestamp(stamp: string)
    | ImageHeading
    | Image
    | ResultsHeading
    | BoldTitle(title: string)
    | Para(text: string)
    | InteractionHeading
    | MedsLine(meds: string)
    | Footer

  /** The paragraph text of a block, as the PDF builder receives it (markup
      included); the image and the spacers have none. */
  function TextOf(b: Block): string
  {
    match b
    case Title => "\U{1F48A} MediScan - Comprehensive Drug Analysis Report"
    case Disclaimer =>
      "\U{26A0}\U{FE0F} MEDICAL DISCLAIMER: This information is provided for educational purposes only and should not replace professional medical advice. "
      + "Always consult with a healthcare professional before making any medical decisions or changes to your medication regimen."
    case Timestamp(stamp) => "\U{1F4C5} Generated on: " + stamp
    case ImageHeading => "\U{1F4F8} Analyzed Image:"
    case ResultsHeading => "\U{1F52C} Drug Analysis Results:"
    case BoldTitle(title) => "<b>" + title + ":</b>"
    case Para(text) => text
    case InteractionHeading => "\U{1F48A} Drug Interaction Analysis:"
    case MedsLine(meds) => "<b>Additional Medications:</b> " + meds
    case Footer => "\U{A9} 2025 MediScan - Comprehensive Drug Analyzer | Powered by Gemini AI + Tavily"
    case Spacer(_) => ""
    case Image => ""
  }

  /** Title, disclaimer and timestamp, each followed by a quarter inch. */
  function Header(stamp: string): seq<Block>
  {
    [Title, Spacer(25), Disclaimer, Spacer(25), Timestamp(stamp), Spacer(25)]
  }

  /** The image part: present only for non-empty image data that decodes. */
  function ImageBlocks(image: seq<bv8>, decodes: bool): seq<Block>
  {
    if image != [] && decodes then [ImageHeading, Image, Spacer(25)] else []
  }

  /** One paragraph per line that is not blank, stripped and escaped. */
  function LineParas(lines: seq<string>): seq<Block>
    decreases |lines|
  {
    if lines == [] then []
    else
      var line := lines[|lines| - 1];
      LineParas(lines[..|lines| - 1]) + (if Strip(line) == [] then [] else [Para(Escape(Strip(line)))])
  }

  /** The lines of a section's content: the stripped content split at each
      newline. */
  function ContentLines(sec: Section): seq<string>
  {
    Split(Strip(sec.content), {'\n'})
  }

  /** The blocks of one section: its stripped title in bold, its lines, and
      a small spacer. */
  function SectionBlocks(sec: Section): seq<Block>
  {
    [BoldTitle(Strip(sec.title))] + LineParas(ContentLines(sec)) + [Spacer(15)]
  }

  /** The blocks of the sections, in order. */
  function SectionsBlocks(secs: seq<Section>): seq<Block>
    decreases |secs|
  {
    if secs == [] then []
    else SectionsBlocks(secs[..|secs| - 1]) + SectionBlocks(secs[|secs| - 1])
  }

  /** The analysis part: the sections the generic scan finds, if any. */
  function AnalysisBlocks(results: string): seq<Block>
  {
    if results == [] then [] else SectionsBlocks(FindSections(results))
  }

  /** The interaction part, present only when both the analysis and the
      medications are non-empty; only the analysis is escaped. */
  function InteractionBlocks(analysis: string, meds: string): seq<Block>
  {
    if analysis != [] && meds != [] then
      [InteractionHeading, MedsLine(meds), Spacer(10), Para(Escape(analysis)), Spacer(25)]
    else []
  }

  /** The whole content list. */
  function ReportContent(image: seq<bv8>, decodes: bool, results: string, analysis: string, meds: string,
                         stamp: string): seq<Block>
  {
    Header(stamp) + ImageBlocks(image, decodes) + [ResultsHeading] + AnalysisBlocks(results)
      + InteractionBlocks(analysis, meds) + [Spacer(50), Footer]
  }

  /** One more line adds its paragraph, if it is not blank, at the end. */
  lemma LineParasSnoc(lines: seq<string>, j: nat)
    requires j < |lines|
    ensures LineParas(lines[..j + 1])
      == LineParas(lines[..j]) + (if Strip(lines[j]) == [] then [] else [Para(Escape(Strip(lines[j])))])
  {
    assert lines[..j + 1][..j] == lines[..j];
  }

  /** One more section adds its blocks at the end. */
  lemma SectionsBlocksSnoc(secs: seq<Section>, i: nat)
    requires i < |secs|
    ensures SectionsBlocks(secs[..i + 1]) == SectionsBlocks(secs[..i]) + SectionBlocks(secs[i])
  {
    assert secs[..i + 1][..i] == secs[..i];
  }

  /** The per-line loop of one section. */
  method AppendSection(content: seq<Block>, sec: Section) returns (out: seq<Block>)
    ensures out == content + SectionBlocks(sec)
  {
    out := content + [BoldTitle(Strip(sec.title))];
    ghost var prefix := out;
    var paragraphs := Split(Strip(sec.content), {'\n'});
    var j := 0;
    while j < |paragraphs|
      invariant 0 <= j <= |paragraphs|
      invariant out == prefix + LineParas(paragraphs[..j])
    {
      var para := paragraphs[j];
      ghost var done := LineParas(paragraphs[..j]);
      if Strip(para) != [] {
        out := out + [Para(Escape(Strip(para)))];
        AppendAssoc(prefix, done, [Para(Escape(Strip(para)))]);
      } else {
        assert done + [] == done;
      }
      LineParasSnoc(paragraphs, j);
      j := j + 1;
    }
    assert paragraphs[..|paragraphs|] == paragraphs;
    ghost var lines := LineParas(paragraphs);
    AppendAssoc(content, [BoldTitle(Strip(sec.title))], lines);
    out := out + [Spacer(15)];
    AppendAssoc(content, [BoldTitle(Strip(sec.title))] + lines, [Spacer(15)]);
  }

  /** The interaction part of `create_pdf`. */
  method AppendInteraction(content: seq<Block>, analysis: string, meds: string) returns (out: seq<Block>)
    ensures out == content + InteractionBlocks(analysis, meds)
  {
    out := content;
    if analysis != [] && meds != [] {
      out := out + [InteractionHeading];
      out := out + [MedsLine(meds)];
      out := out + [Spacer(10)];
      out := out + [Para(Escape(analysis))];
      out := out + [Spacer(25)];
    }
  }

  /** The loop over the sections found. */
  method AppendSections(content: seq<Block>, matches: seq<Section>) returns (out: seq<Block>)
    ensures out == content + SectionsBlocks(matches)
  {
    out := content;
    var i := 0;
    while i < |matches|
      invariant 0 <= i <= |matches|
      invariant out == content + SectionsBlocks(matches[..i])
    {
      ghost var done := SectionsBlocks(matches[..i]);
      out := AppendSection(out, matches[i]);
      SectionsBlocksSnoc(matches, i);
      AppendAssoc(content, done, SectionBlocks(matches[i]));
      i := i + 1;
    }
    assert matches[..|matches|] == matches;
  }

  /** Appending is associative. */
  lemma AppendAssoc(a: seq<Block>, b: seq<Block>, c: seq<Block>)
    ensures (a + b) + c == a + (b + c)
  {
  }

  /** `create_pdf` up to the build: the content list, appended step by step.
      The timestamp and whether the image decodes are inputs. */
  method CreatePdf(image: seq<bv8>, decodes: bool, results: string, analysis: string, meds: string,
                   stamp: string) returns (content: seq<Block>)
    ensures content == ReportContent(image, decodes, results, analysis, meds, stamp)
  {
    content := [];
    content := content + [Title];
    content := content + [Spacer(25)];
    content := content + [Disclaimer];
    content := content + [Spacer(25)];
    content := content + [Timestamp(stamp)];
    content := content + [Spacer(25)];
    assert content == Header(stamp);
    if image != [] {
      if decodes {
        content := content + [ImageHeading];
        content := content + [Image];
        content := content + [Spacer(25)];
      }
    }
    assert content == Header(stamp) + ImageBlocks(image, decodes);
    content := content + [ResultsHeading];
    ghost var before := content;
    if results != [] {
      var matches := FindSections(results);
      if matches != [] {
        content := AppendSections(content, matches);
      }
    }
    assert content == before + AnalysisBlocks(results);
    content := AppendInteraction(content, analysis, meds);
    ghost var body := content;
    content := content + [Spacer(50)];
    content := content + [Footer];
    AppendAssoc(body, [Spacer(50)], [Footer]);
  }
}

/** What the content list of the PDF promises. */
module ReportFacts {
  import opened Text
  import opened Markers
  import opened Sections
  import opened Tokenize
  import opened TokenizeFacts
  import opened Report

  /** The paragraphs of some lines of text, each escaped. */
  function EscapedParas(lines: seq<string>): (r: seq<Block>)
    ensures |r| == |lines|
    ensures forall k :: 0 <= k < |lines| ==> r[k] == Para(Escape(lines[k]))
  {
    seq(|lines|, k requires 0 <= k < |lines| => Para(Escape(lines[k])))
  }

  /** The per-line loop keeps exactly the stripped, non-blank lines, in
      order, and escapes each. */
  lemma {:induction false} LineParasAreKeptLines(lines: seq<string>)
    ensures LineParas(lines) == EscapedParas(StrippedNonBlank(lines))
    decreases |lines|
  {
    if lines != [] {
      var n := |lines| - 1;
      LineParasAreKeptLines(lines[..n]);
      var kept := StrippedNonBlank(lines[..n]);
      if Strip(lines[n]) != [] {
        assert StrippedNonBlank(lines) == kept + [Strip(lines[n])];
        assert EscapedParas(kept + [Strip(lines[n])]) == EscapedParas(kept) + [Para(Escape(Strip(lines[n])))];
      } else {
        assert StrippedNonBlank(lines) == kept;
      }
    }
  }

  /** The lines a section keeps are stripped and non-empty, hold no
      newline, and are made of the characters of the section's content. */
  lemma KeptLinesShape(sec: Section, kept: seq<string>)
    requires kept == StrippedNonBlank(ContentLines(sec))
    ensures forall k :: 0 <= k < |kept| ==> kept[k] != [] && Strip(kept[k]) == kept[k]
    ensures forall k, x :: 0 <= k < |kept| && x in kept[k] ==> x in sec.content && x != '\n'
  {
    var body := Strip(sec.content);
    assert kept == StrippedNonBlank(Split(body, {'\n'}));
    KeptPiecesShape(body, {'\n'}, kept);
    forall k, x | 0 <= k < |kept| && x in kept[k]
      ensures x in sec.content && x != '\n'
    {
      KeptCharIn(body, {'\n'}, kept, k, x);
      StripChars(sec.content);
    }
  }

  lemma KeptCharIn(text: string, seps: set<char>, r: seq<string>, k: nat, x: char)
    requires r == StrippedNonBlank(Split(text, seps))
    requires k < |r| && x in r[k]
    ensures x in text && x !in seps
  {
    KeptPiecesShape(text, seps, r);
  }

  /** The blocks of a section: its stripped title in bold, then one
      paragraph per non-blank line of its stripped content, each line
      stripped and escaped, then the spacer. */
  lemma SectionParagraphs(sec: Section)
    ensures SectionBlocks(sec)
      == [BoldTitle(Strip(sec.title))] + EscapedParas(StrippedNonBlank(ContentLines(sec))) + [Spacer(15)]
  {
    LineParasAreKeptLines(ContentLines(sec));
  }

  // ------------------------------------------------------------- escaping

  /** No paragraph block holds an angle bracket. */
  predicate ParasEscaped(blocks: seq<Block>)
  {
    forall k :: 0 <= k < |blocks| && blocks[k].Para? ==> '<' !in blocks[k].text && '>' !in blocks[k].text
  }

  lemma ParasEscapedAppend(a: seq<Block>, b: seq<Block>)
    requires ParasEscaped(a) && ParasEscaped(b)
    ensures ParasEscaped(a + b)
  {
    forall k | 0 <= k < |a + b| && (a + b)[k].Para?
      ensures '<' !in (a + b)[k].text && '>' !in (a + b)[k].text
    {
      if k >= |a| {
        assert (a + b)[k] == b[k - |a|];
      }
    }
  }

  lemma {:induction false} LineParasEscaped(lines: seq<string>)
    ensures ParasEscaped(LineParas(lines))
    decreases |lines|
  {
    if lines != [] {
      var n := |lines| - 1;
      LineParasEscaped(lines[..n]);
      EscapeNoBrackets(Strip(lines[n]));
      ParasEscapedAppend(LineParas(lines[..n]),
        if Strip(lines[n]) == [] then [] else [Para(Escape(Strip(lines[n])))]);
    }
  }

  lemma {:induction false} SectionsEscaped(secs: seq<Section>)
    ensures ParasEscaped(SectionsBlocks(secs))
    decreases |secs|
  {
    if secs != [] {
      var n := |secs| - 1;
      SectionsEscaped(secs[..n]);
      var sec := secs[n];
      LineParasEscaped(ContentLines(sec));
      ParasEscapedAppend([BoldTitle(Strip(sec.title))], LineParas(ContentLines(sec)));
      ParasEscapedAppend([BoldTitle(Strip(sec.title))] + LineParas(ContentLines(sec)), [Spacer(15)]);
      ParasEscapedAppend(SectionsBlocks(secs[..n]), SectionBlocks(sec));
    }
  }

  /** The fixed blocks before the sections hold no paragraph. */
  lemma HeadEscaped(image: seq<bv8>, decodes: bool, stamp: string)
    ensures ParasEscaped(Header(stamp) + ImageBlocks(image, decodes) + [ResultsHeading])
  {
    var head := Header(stamp) + ImageBlocks(image, decodes) + [ResultsHeading];
    forall k | 0 <= k < |head|
      ensures !head[k].Para?
    {
    }
  }

  /** The interaction paragraph is escaped. */
  lemma InteractionEscaped(analysis: string, meds: string)
    ensures ParasEscaped(InteractionBlocks(analysis, meds))
  {
    EscapeNoBrackets(analysis);
  }

  /** Every paragraph of the report, section lines and interaction text
      alike, is free of angle brackets, whatever the analysis says. */
  lemma ReportParasEscaped(image: seq<bv8>, decodes: bool, results: string, analysis: string, meds: string,
                           stamp: string)
    ensures ParasEscaped(ReportContent(image, decodes, results, analysis, meds, stamp))
  {
    var head := Header(stamp) + ImageBlocks(image, decodes) + [ResultsHeading];
    var analysed := AnalysisBlocks(results);
    var interaction := InteractionBlocks(analysis, meds);
    HeadEscaped(image, decodes, stamp);
    assert ParasEscaped(analysed) by {
      SectionsEscaped(FindSections(results));
    }
    InteractionEscaped(analysis, meds);
    ParasEscapedAppend(head, analysed);
    ParasEscapedAppend(head + analysed, interaction);
    ParasEscapedAppend(head + analysed + interaction, [Spacer(50), Footer]);
  }

  // --------------------------------------------------------------- titles

  /** The titles of the bold title blocks, in order. */
  function BoldTitles(blocks: seq<Block>): seq<string>
    decreases |blocks|
  {
    if blocks == [] then []
    else
      var last := blocks[|blocks| - 1];
      BoldTitles(blocks[..|blocks| - 1]) + (if last.BoldTitle? then [last.title] else [])
  }

  lemma {:induction false} BoldTitlesAppend(a: seq<Block>, b: seq<Block>)
    ensures BoldTitles(a + b) == BoldTitles(a) + BoldTitles(b)
    decreases |b|
  {
    if b != [] {
      var n := |b| - 1;
      var last := if b[n].BoldTitle? then [b[n].title] else [];
      assert (a + b)[..|a + b| - 1] == a + b[..n];
      assert (a + b)[|a + b| - 1] == b[n];
      assert BoldTitles(a + b) == BoldTitles(a + b[..n]) + last;
      BoldTitlesAppend(a, b[..n]);
      assert BoldTitles(b) == BoldTitles(b[..n]) + last;
      assert BoldTitles(a) + BoldTitles(b[..n]) + last == BoldTitles(a) + (BoldTitles(b[..n]) + last);
    } else {
      assert a + b == a;
    }
  }

  lemma {:induction false} LineParasUntitled(lines: seq<string>)
    ensures BoldTitles(LineParas(lines)) == []
    decreases |lines|
  {
    if lines != [] {
      var n := |lines| - 1;
      LineParasUntitled(lines[..n]);
      var last := if Strip(lines[n]) == [] then [] else [Para(Escape(Strip(lines[n])))];
      BoldTitlesAppend(LineParas(lines[..n]), last);
      assert BoldTitles(last) == [] by {
        if last != [] {
          assert last[..0] == [];
        }
      }
    }
  }

  /** The stripped titles of some sections, in order. */
  function StrippedTitles(secs: seq<Section>): (r: seq<string>)
    ensures |r| == |secs|
    ensures forall k :: 0 <= k < |secs| ==> r[k] == Strip(secs[k].title)
  {
    seq(|secs|, k requires 0 <= k < |secs| => Strip(secs[k].title))
  }

  lemma StrippedTitlesSnoc(secs: seq<Section>)
    requires secs != []
    ensures StrippedTitles(secs) == StrippedTitles(secs[..|secs| - 1]) + [Strip(secs[|secs| - 1].title)]
  {
    var n := |secs| - 1;
    var r := StrippedTitles(secs[..n]) + [Strip(secs[n].title)];
    forall k | 0 <= k < |secs|
      ensures StrippedTitles(secs)[k] == r[k]
    {
      if k < n {
        assert secs[..n][k] == secs[k];
      }
    }
  }

  lemma SectionTitled(sec: Section)
    ensures BoldTitles(SectionBlocks(sec)) == [Strip(sec.title)]
  {
    var lines := LineParas(ContentLines(sec));
    LineParasUntitled(ContentLines(sec));
    BoldTitlesAppend([BoldTitle(Strip(sec.title))], lines);
    BoldTitlesAppend([BoldTitle(Strip(sec.title))] + lines, [Spacer(15)]);
    assert BoldTitles([BoldTitle(Strip(sec.title))]) == [Strip(sec.title)] by {
      assert [BoldTitle(Strip(sec.title))][..0] == [];
    }
    assert BoldTitles([Spacer(15)]) == [] by {
      assert [Spacer(15)][..0] == [];
    }
  }

  lemma {:induction false} SectionsTitled(secs: seq<Section>)
    ensures BoldTitles(SectionsBlocks(secs)) == StrippedTitles(secs)
    decreases |secs|
  {
    if secs != [] {
      var n := |secs| - 1;
      var front, last := SectionsBlocks(secs[..n]), SectionBlocks(secs[n]);
      assert SectionsBlocks(secs) == front + last;
      assert BoldTitles(front + last) == StrippedTitles(secs[..n]) + [Strip(secs[n].title)] by {
        SectionsTitled(secs[..n]);
        SectionTitled(secs[n]);
        BoldTitlesAppend(front, last);
      }
      StrippedTitlesSnoc(secs);
    }
  }

  /** The fixed blocks hold no bold title. */
  lemma FixedUntitled(image: seq<bv8>, decodes: bool, analysis: string, meds: string, stamp: string)
    ensures BoldTitles(Header(stamp) + ImageBlocks(image, decodes) + [ResultsHeading]) == []
    ensures BoldTitles(InteractionBlocks(analysis, meds)) == []
    ensures BoldTitles([Spacer(50), Footer]) == []
  {
    var head := Header(stamp) + ImageBlocks(image, decodes) + [ResultsHeading];
    NoTitleBlocks(head);
    NoTitleBlocks(InteractionBlocks(analysis, meds));
    NoTitleBlocks([Spacer(50), Footer]);
  }

  /** Blocks none of which is a bold title have no titles. */
  lemma {:induction false} NoTitleBlocks(blocks: seq<Block>)
    requires forall k :: 0 <= k < |blocks| ==> !blocks[k].BoldTitle?
    ensures BoldTitles(blocks) == []
    decreases |blocks|
  {
    if blocks != [] {
      NoTitleBlocks(blocks[..|blocks| - 1]);
    }
  }

  /** The report has one bold title per section the generic scan finds, in
      the order of the text, each the stripped label of its marker; no other
      block is a bold title. */
  lemma ReportTitles(image: seq<bv8>, decodes: bool, results: string, analysis: string, meds: string,
                     stamp: string)
    ensures BoldTitles(ReportContent(image, decodes, results, analysis, meds, stamp))
      == StrippedTitles(FindSections(results))
  {
    var head := Header(stamp) + ImageBlocks(image, decodes) + [ResultsHeading];
    var analysed := AnalysisBlocks(results);
    var interaction := InteractionBlocks(analysis, meds);
    FixedUntitled(image, decodes, analysis, meds, stamp);
    assert BoldTitles(analysed) == StrippedTitles(FindSections(results)) by {
      SectionsTitled(FindSections(results));
      if results == [] {
        assert FindSections(results) == [];
      }
    }
    BoldTitlesAppend(head, analysed);
    BoldTitlesAppend(head + analysed, interaction);
    BoldTitlesAppend(head + analysed + interaction, [Spacer(50), Footer]);
  }

  // ---------------------------------------------------------- block order

  /** Everything after the image part. */
  function Tail(results: string, analysis: string, meds: string): seq<Block>
  {
    [ResultsHeading] + AnalysisBlocks(results) + InteractionBlocks(analysis, meds) + [Spacer(50), Footer]
  }

  /** The report is the header, the image part, and the rest. */
  lemma ReportSplit(image: seq<bv8>, decodes: bool, results: string, analysis: string, meds: string,
                    stamp: string)
    ensures ReportContent(image, decodes, results, analysis, meds, stamp)
      == Header(stamp) + ImageBlocks(image, decodes) + Tail(results, analysis, meds)
  {
    var hi := Header(stamp) + ImageBlocks(image, decodes);
    var ab, ib := AnalysisBlocks(results), InteractionBlocks(analysis, meds);
    AppendAssoc(hi, [ResultsHeading], ab);
    AppendAssoc(hi, [ResultsHeading] + ab, ib);
    AppendAssoc(hi, [ResultsHeading] + ab + ib, [Spacer(50), Footer]);
  }

  /** A failed decode drops exactly the three image blocks after the
      timestamp spacer and leaves every other block in place; it is the same
      as having no image at all. */
  lemma DecodeFailureDropsOnlyImage(image: seq<bv8>, results: string, analysis: string, meds: string,
                                    stamp: string)
    requires image != []
    ensures var failed := ReportContent(image, false, results, analysis, meds, stamp);
      |failed| >= 6
      && ReportContent(image, true, results, analysis, meds, stamp)
         == failed[..6] + [ImageHeading, Image, Spacer(25)] + failed[6..]
      && failed == ReportContent([], true, results, analysis, meds, stamp)
  {
    var tail := Tail(results, analysis, meds);
    ReportSplit(image, false, results, analysis, meds, stamp);
    ReportSplit(image, true, results, analysis, meds, stamp);
    ReportSplit([], true, results, analysis, meds, stamp);
    var failed := ReportContent(image, false, results, analysis, meds, stamp);
    assert Header(stamp) + [] == Header(stamp);
    assert failed[..6] == Header(stamp);
    assert failed[6..] == tail;
  }

  /** The report opens with the title, the disclaimer and the timestamp,
      and ends with the footer. */
  lemma ReportFrame(image: seq<bv8>, decodes: bool, results: string, analysis: string, meds: string,
                    stamp: string)
    ensures var r := ReportContent(image, decodes, results, analysis, meds, stamp);
      |r| >= 9 && r[0] == Title && r[2] == Disclaimer && r[4] == Timestamp(stamp) && r[|r| - 1] == Footer
  {
    var tail := Tail(results, analysis, meds);
    ReportSplit(image, decodes, results, analysis, meds, stamp);
    assert tail[|tail| - 1] == Footer;
  }

  /** The image blocks appear exactly when there is image data and it
      decodes. */
  lemma ImageShown(image: seq<bv8>, decodes: bool, results: string, analysis: string, meds: string,
                   stamp: string)
    ensures Image in ReportContent(image, decodes, results, analysis, meds, stamp) <==> image != [] && decodes
  {
    ReportSplit(image, decodes, results, analysis, meds, stamp);
    TailHasNoImage(results, analysis, meds);
    OnlyInMiddle(Image, Header(stamp), ImageBlocks(image, decodes), Tail(results, analysis, meds));
  }

  /** Nothing after the image part is an image. */
  lemma TailHasNoImage(results: string, analysis: string, meds: string)
    ensures Image !in Tail(results, analysis, meds)
  {
    var analysed, interaction := AnalysisBlocks(results), InteractionBlocks(analysis, meds);
    assert Image !in analysed by {
      AnalysisKinds(results);
    }
    assert Image !in interaction;
    NotInFour(Image, [ResultsHeading], analysed, interaction, [Spacer(50), Footer]);
  }

  /** A block in none of four lists is not in their concatenation. */
  lemma NotInFour(x: Block, a: seq<Block>, b: seq<Block>, c: seq<Block>, d: seq<Block>)
    requires x !in a && x !in b && x !in c && x !in d
    ensures x !in a + b + c + d
  {
  }

  /** A block in neither end of a three-part list is in it exactly when it
      is in the middle part. */
  lemma OnlyInMiddle(x: Block, a: seq<Block>, b: seq<Block>, c: seq<Block>)
    requires x !in a && x !in c
    ensures x in a + b + c <==> x in b
  {
  }

  /** The interaction part appears exactly when both the analysis and the
      medication list are non-empty. */
  lemma InteractionShown(image: seq<bv8>, decodes: bool, results: string, analysis: string, meds: string,
                         stamp: string)
    ensures InteractionHeading in ReportContent(image, decodes, results, analysis, meds, stamp)
        <==> analysis != [] && meds != []
  {
    ReportSplit(image, decodes, results, analysis, meds, stamp);
    TailInteraction(results, analysis, meds);
    HeadHasNoInteraction(image, decodes, stamp);
  }

  /** The header and the image part hold no interaction heading. */
  lemma HeadHasNoInteraction(image: seq<bv8>, decodes: bool, stamp: string)
    ensures InteractionHeading !in Header(stamp) + ImageBlocks(image, decodes)
  {
  }

  /** The interaction heading after the image part comes from the
      interaction blocks alone. */
  lemma TailInteraction(results: string, analysis: string, meds: string)
    ensures InteractionHeading in Tail(results, analysis, meds) <==> analysis != [] && meds != []
  {
    AnalysisKinds(results);
    OnlyInMiddle(InteractionHeading, [ResultsHeading] + AnalysisBlocks(results), InteractionBlocks(analysis, meds),
                 [Spacer(50), Footer]);
  }

  /** The analysis part holds neither the image nor the interaction
      heading. */
  lemma AnalysisKinds(results: string)
    ensures Image !in AnalysisBlocks(results) && InteractionHeading !in AnalysisBlocks(results)
  {
    SectionsKinds(FindSections(results));
  }

  /** Only bold titles, paragraphs and spacers. */
  predicate SectionKinds(blocks: seq<Block>)
  {
    forall k :: 0 <= k < |blocks| ==> blocks[k].BoldTitle? || blocks[k].Para? || blocks[k].Spacer?
  }

  lemma {:induction false} SectionsKinds(secs: seq<Section>)
    ensures SectionKinds(SectionsBlocks(secs))
    decreases |secs|
  {
    if secs != [] {
      var n := |secs| - 1;
      SectionsKinds(secs[..n]);
      LineParasKinds(ContentLines(secs[n]));
    }
  }

  lemma {:induction false} LineParasKinds(lines: seq<string>)
    ensures forall k :: 0 <= k < |LineParas(lines)| ==> LineParas(lines)[k].Para?
    decreases |lines|
  {
    if lines != [] {
      LineParasKinds(lines[..|lines| - 1]);
    }
  }

  // ------------------------------------------------------ unescaped titles

  /** Every section the scan finds is titled by a label of `[\w\s]+`. */
  lemma {:induction false} ScanTitlesAreLabels(s: string, i: nat)
    requires i <= |s|
    ensures forall k :: 0 <= k < |Scan(s, i)| ==> IsLabel(Scan(s, i)[k].title)
    decreases |s| - i
  {
    if i < |s| {
      if MarkerAt(s, i) {
        var head, rest := SectionAt(s, i), Scan(s, SectionEnd(s, i));
        ScanTitlesAreLabels(s, SectionEnd(s, i));
        assert IsLabel(head.title) by {
          forall k | 0 <= k < |head.title|
            ensures IsLabelChar(head.title[k])
          {
            assert head.title[k] == s[i + 1 + k];
          }
        }
        assert Scan(s, i) == [head] + rest;
      } else {
        ScanTitlesAreLabels(s, i + 1);
      }
    }
  }

  /** A label holds no angle bracket, and neither does its stripped form. */
  lemma LabelHasNoBrackets(t: string)
    requires IsLabel(t)
    ensures '<' !in Strip(t) && '>' !in Strip(t)
  {
    StripChars(t);
    assert !IsLabelChar('<') && !IsLabelChar('>');
  }

  /** The bold titles are put into the markup unescaped, but they cannot
      hold an angle bracket: a section's title is a label of word and space
      characters. */
  lemma TitlesHaveNoBrackets(image: seq<bv8>, decodes: bool, results: string, analysis: string, meds: string,
                             stamp: string)
    ensures var titles := BoldTitles(ReportContent(image, decodes, results, analysis, meds, stamp));
      forall k :: 0 <= k < |titles| ==> '<' !in titles[k] && '>' !in titles[k]
  {
    var secs := FindSections(results);
    ReportTitles(image, decodes, results, analysis, meds, stamp);
    ScanTitlesAreLabels(results, 0);
    forall k | 0 <= k < |secs|
      ensures '<' !in StrippedTitles(secs)[k] && '>' !in StrippedTitles(secs)[k]
    {
      LabelHasNoBrackets(secs[k].title);
    }
  }
}
