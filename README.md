# MediScan report pipeline, modelled in Dafny

MediScan (`ml.py`) is a Streamlit page. It sends a photo of a medicine to a
language model, which answers with markdown-like text of the form
`*Composition:* … *Uses:* … *Side Effects:* …`. The page shows that text as
result cards, optionally asks for a drug-interaction analysis, and can
download a PDF report. This project models the text pipeline between the
model's answer and what is shown or written:

- **Section extraction**, in two variants.
  - The generic `re.findall` scan of `create_pdf`, with pattern
    `\*([\w\s]+):\*(.*?)(?=\*[\w\s]+:\*|$)` under DOTALL (`Sections`).
    It comes with an independent reference reading of the text as a tiling
    into marker-plus-content pieces (`Tiling`).
  - The per-label `re.search` of `main` and of the composition lookup,
    matched ignoring case (`Search`, built on `Markers`).
- **Tokenisers** (`Tokenize`).
  - `display_tablet_names` cuts at the first delimiter present among
    `\n , ; • -` and renders one chip per name.
  - The "Uses" and "Side Effects" list split first turns newlines into
    `, ` and then cuts at commas.
- **Keyword classifiers** (`Classify`): `display_safety_info` and
  `display_interaction_analysis` are if/elif chains of lower-cased substring
  tests. The model returns the tag that picks the style instead of drawing
  the HTML.
- **Result cards** (`Cards`):
  - the loop over the fixed sections list in `main`, each found label
    giving a card whose body depends on the label's kind;
  - the interaction card;
  - the composition that goes with an interaction query.
- **PDF content list** (`Report`): the ordered list of flowables
  `create_pdf` appends to, as abstract blocks (title, spacer, disclaimer,
  timestamp, image heading, image, headings, bold section titles,
  paragraphs, medications line, footer). Paragraph text is escaped by
  replacing `<` with `&lt;` and `>` with `&gt;`.

The Python string operations these rely on live in `Text`: `str.strip()`
with Python's whitespace set, ASCII `str.lower()`, `in`, `str.split`,
`str.replace` and the escaping. `Wrappers` holds `Option`.

The loops of the source are methods, each proved equal to a function:
`Tokenize.ParseTabletNames`, `Tokenize.RenderChips`,
`Tokenize.SplitListItems`, `Cards.RenderCards`, `Report.AppendSection` and
`Report.CreatePdf`. The properties the page relies on are proved about
those functions as lemmas in the `…Facts` modules.

Where the code and its design notes disagree, the model follows the code:

- The safety classifier tests "safe" / "no interaction" before the danger
  words. So "Unsafe in pregnancy" and "Avoid alcohol; otherwise safe" both
  get the Safe style (`ClassifyFacts.UnsafeIsTaggedSafe`,
  `ClassifyFacts.AvoidButSafeIsTaggedSafe`).
- Content that matches no keyword is tagged `Info`. In the source it is
  drawn in the same green `safety-safe` box as Safe content; only the icon
  differs (an information sign instead of a tick).
- Result cards come in the order of the fixed sections list, not in the
  order the labels occur in the text.
- Escaping replaces only `<` and `>`. `&` and quotes pass through unchanged,
  so an escaped `<` and a literal `&lt;` give the same paragraph text
  (`Text.EscapeAmbiguous`).
- The additional-medications line of the PDF is put into the markup
  unescaped, as the code does (`Report.TextOf` of `MedsLine`).

## Model

| member | source | states |
|---|---|---|
| Text.Contains | ml.py:630 | the definition of the substring test `word in text`; characterised by `Text.ContainsIsSlice` |
| Text.Lower | ml.py:630 | lower-casing keeps the length and maps each character on its own, changing only ASCII capitals into small letters |
| Text.LowerIdempotent | ml.py:630 | lower-casing twice is lower-casing once |
| Text.ContainsIsSlice | ml.py:630 | the substring test `word in text` holds exactly when the word occurs at some position of the text |
| Text.ContainsAppendRight | ml.py:630-635 | a word found in a text is still found after more text is appended |
| Text.ContainsAppendLeft | ml.py:630-635 | a word found in a text is still found after text is put in front |
| Text.Strip | ml.py:559-566 | the definition of `str.strip()` with Python's whitespace set; characterised by `Text.StripEnds`, `StripIsTrimmedSlice` and `StripUnique` |
| Text.StripEnds | ml.py:562-566 | `strip()` leaves no whitespace at either end, and gives the empty string exactly when the text is all whitespace |
| Text.StripIsTrimmedSlice | ml.py:562-566 | `strip()` is the slice between the leading and the trailing whitespace runs |
| Text.StripUnique | ml.py:562-566 | whitespace around a text with no whitespace at its ends is exactly what `strip()` removes |
| Text.StripIdempotent | ml.py:562-566 | stripping twice is stripping once |
| Text.StripChars | ml.py:608 | every character of a stripped text comes from the text |
| Text.Split | ml.py:562 | the definition of `str.split` at a set of separator characters (one character for `s.split(d)`, ml.py:562 and ml.py:607); characterised by `Text.SplitShape`, `JoinSplit` and `SplitJoin` |
| Text.SplitShape | ml.py:562 | `split` gives one more piece than there are separators, and no piece holds a separator |
| Text.SplitChars | ml.py:607 | every character of every piece comes from the text |
| Text.JoinSplit | ml.py:562 | joining the pieces of a split with its separator gives back the text |
| Text.SplitJoin | ml.py:607 | splitting a join of separator-free pieces gives back the pieces |
| Text.ReplaceChar | ml.py:566 | the definition of `str.replace` of one character (also ml.py:810); characterised by `Text.ReplaceCharContents` and `ReplaceAppend` |
| Text.ReplaceCharContents | ml.py:566 | after `replace(c, rep)` every character is from `rep` or is a character of the text other than `c`; a text without `c` is unchanged |
| Text.ReplaceAppend | ml.py:810 | replacing in a concatenation is replacing in each part |
| Text.Escape | ml.py:566 | the definition of the chain `.replace('<', '&lt;').replace('>', '&gt;')` (also ml.py:577); characterised by `Text.EscapeNoBrackets`, `EscapeIsCharwise` and `UnescapeEscape` |
| Text.EscapeNoBrackets | ml.py:566 | escaped text holds no `<` and no `>` |
| Text.EscapeIsCharwise | ml.py:566 | the two chained replaces are the same as escaping each character on its own |
| Text.EscapeNoMarkup | ml.py:577 | text without angle brackets is left unchanged by escaping |
| Text.UnescapeEscape | ml.py:566 | for text without `&`, decoding the two entities gives back the original, so no information is lost |
| Text.EscapeAmbiguous | ml.py:566 | because `&` is not escaped, the text `&lt;` and the text `<` escape to the same string |
| Markers.MarkerAt | ml.py:554 | the definition of where the generic marker `\*[\w\s]+:\*` matches; its label run is characterised by `Markers.LabelEnd` |
| Markers.EndAnchor | ml.py:554 | the definition of where `$` matches without MULTILINE: at the end, or before a newline that ends the text (also ml.py:740 and ml.py:789) |
| Markers.TagAt | ml.py:740 | the definition of where a literal tag `*label:*` matches under IGNORECASE (also ml.py:789); related to the generic marker by `Markers.TagIsMarker` |
| Markers.LabelEnd | ml.py:554 | the greedy `[\w\s]+` run after a `*` ends at the first character outside the class |
| Markers.ContentEnd | ml.py:554 | the lazy content `(.*?)` ends at the first position where the lookahead holds (a boundary marker, or where `$` matches) |
| Markers.ContentEndAt | ml.py:554 | any position with no earlier stop, where the lookahead holds, is where the content ends |
| Markers.TagIsMarker | ml.py:740 | the tag of a label made of ASCII letters and spaces is also a generic marker |
| Sections.NextMarker | ml.py:555 | the scan finds the first generic marker at or after a position, and there is no marker before it |
| Sections.SectionEnd | ml.py:554-555 | a section's content ends at a marker or where `$` matches, never before its start |
| Sections.SectionEndIsFirst | ml.py:554-555 | the lazy content stops at the first such place: between its start and its end there is no generic marker and no place where `$` matches |
| Sections.Scan | ml.py:555 | the definition of `re.findall` from a position: a section at each marker, resuming where its content ended; characterised by `Tiling.ScanTiles` and `Tiling.TilesAreScan` |
| Sections.FindSections | ml.py:555 | the definition of the sections `create_pdf` finds; characterised by `Tiling.FindSectionsIsTiling` and `Tiling.NoMarkerNoSection` |
| Tiling.ScanTiles | ml.py:554-558 | the findall scan reads the text, from its first marker on, as consecutive tiles: a marker and content up to the next marker or `$` |
| Tiling.TilesAreScan | ml.py:554-558 | any tiling of the text from a marker is the one the scan returns |
| Tiling.TilesUnique | ml.py:554-558 | the text has only one tiling from a given position |
| Tiling.FindSectionsIsTiling | ml.py:554-558 | the sections found are exactly the tiling that starts at the first marker, so they come in text order, never overlap and none holds a following marker |
| Tiling.NoMarkerNoSection | ml.py:555-557 | no section is found exactly when the text has no generic marker |
| Search.FirstTag | ml.py:790 | `re.search` reports the first position of the tag, ignoring case, or none when the tag is absent |
| Search.RawContent | ml.py:790 | a search has a match exactly when the tag occurs somewhere |
| Search.SearchSection | ml.py:790-793 | a card's content is found exactly when its tag occurs somewhere in the text |
| Search.SearchSectionContent | ml.py:789-793 | the content is the stripped text from the first tag up to the first boundary or `$`, with no boundary in between |
| Search.CompositionOf | ml.py:740-742 | the definition of the composition lookup: the stripped content of the first `*Composition:*` tag, stopping at any generic marker; related to the card search by `CardsFacts.CompositionCardExtendsQuery` |
| Search.GenericStopsFirst | ml.py:740 | content that stops at any generic marker ends no later than content that stops at known labels only |
| Search.GenericContentIsPrefix | ml.py:740 | the composition lookup, which stops at any marker, finds a match exactly when the card search does, and its raw content is a prefix of the card's |
| Tokenize.FirstDelimiterFrom | ml.py:605-606 | the delimiter picked is present in the text, and no delimiter earlier in the list is |
| Tokenize.TabletNames | ml.py:596-613 | the definition of the names `display_tablet_names` finds; characterised by `TokenizeFacts.TabletNamesStripped`, `TabletNamesAvoidDelimiters` and `TabletNamesOfJoin` |
| Tokenize.ListItems | ml.py:810-813 | the definition of the uses and side-effects items; characterised by `TokenizeFacts.ListItemsCutAtNewlinesAndCommas` and `ListItemsShape` |
| Tokenize.KeepStripped | ml.py:608 | the comprehension keeps the stripped non-blank pieces in order |
| Tokenize.ParseTabletNames | ml.py:602-613 | the loop with `break` computes the tablet names: a cut at the first delimiter present, or the stripped text when that leaves nothing |
| Tokenize.RenderChips | ml.py:616-619 | the concatenation loop builds one chip per non-empty name, in order |
| Tokenize.DisplayTabletNames | ml.py:596-622 | nothing is shown for empty input or when no chip results; otherwise the chips of the tablet names are shown |
| Tokenize.SplitListItems | ml.py:810-813 | the uses or side-effects items are the stripped non-blank pieces of the content once newlines become `, ` and the result is cut at commas |
| TokenizeFacts.StrippedNonBlankItems | ml.py:608 | every kept piece is non-empty and already stripped; nothing is kept exactly when every piece is blank |
| TokenizeFacts.StrippedNonBlankKeeps | ml.py:608 | pieces that are already stripped and non-empty are all kept |
| TokenizeFacts.KeptPiecesShape | ml.py:607-608 | the pieces kept from a split are stripped, non-empty, made of the text's characters and free of the separators |
| TokenizeFacts.CutItems | ml.py:607-608 | names cut at a delimiter are stripped, non-empty, and hold no copy of that delimiter |
| TokenizeFacts.AllSpaceCut | ml.py:608-613 | an all-whitespace text gives no name at the cut, which is why the fallback applies |
| TokenizeFacts.TabletNamesStripped | ml.py:598-613 | non-empty input gives at least one name, and each name is stripped |
| TokenizeFacts.TabletNamesAvoidDelimiters | ml.py:605-613 | when the cut at the first delimiter present keeps some name, the names are that cut, and no name is empty or holds the chosen delimiter or any delimiter tried before it |
| TokenizeFacts.ChipsEmpty | ml.py:617-621 | the chip HTML is empty exactly when every name is empty |
| TokenizeFacts.TabletNamesShown | ml.py:596-622 | no chips are shown exactly when the content is all whitespace |
| TokenizeFacts.FirstDelimiterIs | ml.py:605-609 | the delimiter picked is the earliest one of the list present in the text |
| TokenizeFacts.TabletNamesOfJoin | ml.py:605-609 | names joined with a delimiter, none holding that delimiter or an earlier one, are parsed back into the same names |
| TokenizeFacts.ListItemsCutAtNewlinesAndCommas | ml.py:810 | turning newlines into `, ` and cutting at commas gives the same items as cutting at both newlines and commas |
| TokenizeFacts.ListItemsShape | ml.py:810-813 | list items are non-empty, stripped, made of the content's characters, and hold no comma or newline |
| Classify.SafetyLevel | ml.py:624-637 | the definition of the style chain of `display_safety_info`; characterised by `ClassifyFacts.SafetyTagged`, `SafeWins`, `SafetyIgnoresCase` and `SafetyOfJoin` |
| Classify.InteractionLevel | ml.py:639-652 | the definition of the badge chain of `display_interaction_analysis`; characterised by `ClassifyFacts.InteractionTagged`, `InteractionIgnoresCase` and `InteractionOfJoin` |
| ClassifyFacts.MentionsAppend | ml.py:630-635 | a keyword mentioned in a part of a text is mentioned in the whole |
| ClassifyFacts.MentionsIgnoresCase | ml.py:630 | texts equal once lower-cased mention the same keywords |
| ClassifyFacts.SafetyTagged | ml.py:626-637 | a safety field gets exactly one style when it is non-empty and none when it is empty |
| ClassifyFacts.SafetyIgnoresCase | ml.py:630-637 | the safety style does not depend on letter case |
| ClassifyFacts.SafetyOfJoin | ml.py:630-637 | joining two fields never gives a style later in the if/elif chain than either field's |
| ClassifyFacts.SafeWins | ml.py:630 | a field that says "safe" anywhere, whatever else it says, gets the Safe style |
| ClassifyFacts.UnsafeIsTaggedSafe | ml.py:630 | "Unsafe in pregnancy" gets the Safe style |
| ClassifyFacts.AvoidButSafeIsTaggedSafe | ml.py:630-633 | a field that says "avoid" and also "safe" gets the Safe style |
| ClassifyFacts.InteractionTagged | ml.py:641-652 | an interaction text gets exactly one badge when it is non-empty and none when it is empty |
| ClassifyFacts.InteractionIgnoresCase | ml.py:645-652 | the badge does not depend on letter case |
| ClassifyFacts.InteractionOfJoin | ml.py:645-652 | joining two texts never gives a badge later in the chain than either text's |
| ClassifyFacts.NoMajorIsSevere | ml.py:645 | "No major interactions expected" gets the severe badge, since the negation is not read |
| Cards.RenderBody | ml.py:800-829 | the if/elif chain over the section type produces the body the kind calls for |
| Cards.RenderCards | ml.py:787-832 | the loop over a sections list gives, in list order, one card for each entry whose tag is found |
| Cards.BuildCards | ml.py:773-832 | the results page shows the cards of the fixed sections list |
| Cards.InteractionCardOf | ml.py:835-847 | the interaction card is shown exactly when there is an analysis text; it shows that text with the badge the classifier picks |
| Cards.QueryComposition | ml.py:747 | the composition sent is the kept one when that is non-empty, and "Unknown composition" otherwise |
| Cards.KeptComposition | ml.py:739-742 | the definition of the composition kept after an analysis: the one found, or the one kept before when the tag is absent |
| Cards.InteractionQuery | ml.py:734-755 | the definition of the interaction query: none when the analysis text is empty (the analysis failed) or the medications are blank; characterised by `CardsFacts.InteractionQuerySent` and `QueryUsesFoundComposition` |
| CardsFacts.CardsOfShown | ml.py:787-832 | the cards are the found cards of the entries, taken in entry order with the absent ones dropped |
| CardsFacts.SomeIndicesShape | ml.py:787-792 | the positions of found entries are in range, strictly increasing, and are exactly the entries that were found |
| CardsFacts.NamesOfKnown | ml.py:773-789 | the alternation that ends a card lists exactly the labels of the sections list, in order |
| CardsFacts.KnownNamesDistinct | ml.py:773-785 | the labels of the sections list are pairwise distinct |
| CardsFacts.NamesPlain | ml.py:789 | every label is made of ASCII letters and spaces only, so its tag is also a generic marker |
| CardsFacts.ResultCardsInListOrder | ml.py:773-793 | cards come in the order of the sections list, one per label at most, and a label has a card exactly when its tag occurs in the text |
| CardsFacts.CompositionCardExtendsQuery | ml.py:740-790 | the composition lookup and the Composition card find a match for the same texts, and the lookup's raw content is a prefix of the card's |
| CardsFacts.UnknownMarkerStaysInCard | ml.py:789-790 | an unknown marker such as `*Notes:*` stays inside the preceding card's content, while the generic scan stops at it |
| CardsFacts.UsesLines | ml.py:807-813 | list-like uses content gives one bullet line per item, each item non-empty, stripped and free of commas and newlines |
| CardsFacts.SideEffectsLines | ml.py:816-822 | list-like side-effects content gives one warning line per item, each item non-empty, stripped and free of commas and newlines |
| CardsFacts.InteractionQuerySent | ml.py:734-755 | an interaction query is made exactly when the analysis text is non-empty and the medications field has a non-whitespace character, and its composition is never empty |
| CardsFacts.QueryUsesFoundComposition | ml.py:734-748 | when a query is made (so the analysis text is non-empty), it uses the composition just found when it is non-empty, and, when the `*Composition:*` tag is absent, the one kept from before (a tag with empty content gives "Unknown composition", see `Cards.QueryComposition`) |
| Report.ReportContent | ml.py:475-584 | the definition of the content list, block by block; built by `Report.CreatePdf` and characterised by the `ReportFacts` lemmas |
| Report.AppendSection | ml.py:558-569 | appending one section adds its bold title, one escaped paragraph per non-blank line, and a spacer |
| Report.AppendSections | ml.py:557-569 | the loop over the matches appends the blocks of every section in order |
| Report.AppendInteraction | ml.py:572-579 | the interaction part appends its five blocks only when both the analysis and the medications are non-empty |
| Report.CreatePdf | ml.py:475-584 | the step-by-step appends build exactly the content list the report is specified to have |
| ReportFacts.LineParasAreKeptLines | ml.py:562-567 | the per-line loop gives one escaped paragraph for each stripped non-blank line, in order |
| ReportFacts.KeptLinesShape | ml.py:562-566 | each paragraph line is non-empty, stripped, made of the section content's characters and holds no newline |
| ReportFacts.SectionParagraphs | ml.py:559-569 | a section gives its stripped bold title, then its escaped non-blank lines, then a spacer |
| ReportFacts.LineParasEscaped | ml.py:563-567 | no paragraph of a section holds an angle bracket |
| ReportFacts.SectionsEscaped | ml.py:557-569 | no paragraph of any section holds an angle bracket |
| ReportFacts.InteractionEscaped | ml.py:577-578 | the interaction paragraph holds no angle bracket |
| ReportFacts.ReportParasEscaped | ml.py:512-584 | no `Para` block of the report (a section line or the interaction text) holds an angle bracket, whatever the analysis text says; the bold titles and the medications line are other blocks, put into the markup unescaped |
| ReportFacts.SectionTitled | ml.py:559 | a section contributes exactly one bold title, its stripped label |
| ReportFacts.SectionsTitled | ml.py:557-569 | the bold titles of the section blocks are the stripped labels of the sections, in order |
| ReportFacts.ReportTitles | ml.py:549-569 | the bold titles of the whole report are exactly the stripped labels of the sections found, in text order |
| ReportFacts.ScanTitlesAreLabels | ml.py:554-555 | every section found is titled by a non-empty run of word and space characters |
| ReportFacts.TitlesHaveNoBrackets | ml.py:559 | the bold titles, though not escaped, hold no angle bracket |
| ReportFacts.ReportSplit | ml.py:512-584 | the report is the header, then the image part, then the rest |
| ReportFacts.DecodeFailureDropsOnlyImage | ml.py:529-546 | an image that fails to decode drops just its three blocks after the header; the report is then the same as with no image |
| ReportFacts.ReportFrame | ml.py:512-584 | the report opens with the title, the disclaimer and the timestamp, has at least nine blocks, and ends with the footer |
| ReportFacts.ImageShown | ml.py:529-546 | the image is in the report exactly when the image data is non-empty and decodes |
| ReportFacts.InteractionShown | ml.py:571-579 | the interaction heading is in the report exactly when both the interaction analysis and the medications are non-empty |
| ReportFacts.TailInteraction | ml.py:549-584 | after the image part, the interaction heading comes only from the interaction part |
| ReportFacts.AnalysisKinds | ml.py:551-569 | the analysis part holds neither the image nor the interaction heading |
| ReportFacts.SectionsKinds | ml.py:557-569 | the section blocks are bold titles, paragraphs and spacers only |

## Left out

- The Streamlit page itself: CSS, columns, markdown and HTML drawing, and
  session-state bookkeeping. Drawing is replaced by returned values: card
  bodies, chip HTML, style tags and badges.
- The calls to the language model and the web search, temporary files,
  secrets and `st.rerun`. The analysis text, the interaction analysis and
  the medications are parameters.
- Image decoding by PIL, and the width/height/aspect arithmetic of the PDF
  image, which is floating point. Decoding is the boolean parameter
  `decodes`.
- reportlab styles, `SimpleDocTemplate` and `pdf.build`. The model stops at
  the content list, and so does not model the `try`/`except` that turns a
  build error into `None`.
- Report.CreatePdf: does not model the failure of the medications line. The
  medications text goes into `<b>Additional Medications:</b> …` unescaped.
  So medications containing `<` (for example `a<b`) can make reportlab fail
  to parse that paragraph, and `create_pdf` then returns `None`. The model
  always returns the content list.
- `datetime.now()`: the timestamp is a parameter of `Report.CreatePdf`.
- A missing value (`None`) for the image, the interaction analysis or the
  medications is modelled as the empty value, since the code only tests
  their truthiness.
- Text.Lower: ASCII letters only. `str.lower()` and the IGNORECASE flag
  also fold non-ASCII letters.
- Text.IsWordChar: ASCII letters, digits and `_` only. Python's `\w`
  also matches non-ASCII letters and digits, so a label with such letters is
  not a marker in the model.
- Cards.RenderBody: the markdown rendering of the lines is not modelled.
  The lines are returned as the strings handed to `st.markdown`.
