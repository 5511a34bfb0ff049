/** The result cards of `main`: for each known label, in the fixed order of
    the sections list, a case-insensitive search for its tag whose content
    runs to the tag of any known label (or `$`); a label that is found gets a
    card whose body depends on the label's kind. Also the interaction card
    and the composition that is sent with an interaction query. */
module Cards {
  import opened Text
  import opened Wrappers
  import opened Markers
  import opened Search
  import opened Tokenize
  import opened Classify

  /** How a label's content is shown; `Brands` is the source's
      "tablet_names" kind. */
  datatype Kind = Composition | Uses | Brands | Usage | SideEffects | Cost | Safety

  /** One entry of the sections list: label, icon, kind. */
  datatype Entry = Entry(name: string, icon: string, kind: Kind)

  /** The sections list of `main`, in its order. */
  const Known: seq<Entry> := [
    Entry("Composition", "\U{1F9EC}", Composition),
    Entry("Uses", "\U{1F3AF}", Uses),
    Entry("Available Tablet Names", "\U{1F48A}", Brands),
    Entry("How to Use", "\U{1F4CB}", Usage),
    Entry("Side Effects", "\U{26A0}\U{FE0F}", SideEffects),
    Entry("Cost", "\U{1F4B0}", Cost),
    Entry("Safety with Alcohol", "\U{1F37A}", Safety),
    Entry("Pregnancy Safety", "\U{1F931}", Safety),
    Entry("Breastfeeding Safety", "\U{1F37C}", Safety),
    Entry("Driving Safety", "\U{1F697}", Safety),
    Entry("General Safety Advice", "\U{1F6E1}\U{FE0F}", Safety)
  ]

  /** The labels of the sections list: the alternation that ends a card. */
  const Names: seq<string> := [
    "Composition", "Uses", "Available Tablet Names", "How to Use", "Side Effects", "Cost",
    "Safety with Alcohol", "Pregnancy Safety", "Breastfeeding Safety", "Driving Safety",
    "General Safety Advice"
  ]

  /** What ends the content of a card. */
  const CardBoundary: Boundary := AnyOf(Names)

  /** The body of a card: markdown lines, the tablet-name chips, or a safety
      field with the tag that picks its style. */
  datatype Body =
    | Lines(lines: seq<string>)
    | NameChips(shown: Option<string>)
    | SafetyField(tag: Option<SafetyTag>, field: string, content: string)

  /** One result card: header icon and label, and the body. */
  datatype Card = Card(name: string, icon: string, body: Body)

  /** Each item with a marker in front. */
  function Prefixed(marker: string, items: seq<string>): (r: seq<string>)
    ensures |r| == |items| && forall k :: 0 <= k < |r| ==> r[k] == marker + items[k]
  {
    seq(|items|, k requires 0 <= k < |items| => marker + items[k])
  }

  /** The body `main` shows for the stripped content of an entry. */
  function BodyOf(e: Entry, content: string): Body
  {
    match e.kind
    case Brands => NameChips(ShownChips(content))
    case Safety => SafetyField(SafetyLevel(content), e.name, content)
    case Composition => Lines(["**" + content + "**"])
    case Uses =>
      Lines(if IsListLike(content) then Prefixed("\U{2022} ", ListItems(content)) else [content])
    case SideEffects =>
      Lines(if IsListLike(content) then Prefixed("\U{26A0}\U{FE0F} ", ListItems(content))
            else ["\U{26A0}\U{FE0F} " + content])
    case Cost => Lines(["\U{1F4B0} **" + content + "**"])
    case Usage => Lines([content])
  }

  /** The card of one entry: shown when the search for its tag succeeds,
      with the body for the stripped content found. */
  function CardFor(text: string, e: Entry, b: Boundary): Option<Card>
  {
    match SearchSection(text, e.name, b)
    case None => None
    case Some(content) => Some(Card(e.name, e.icon, BodyOf(e, content)))
  }

  /** The cards of a list of entries, in the order of the list. */
  function CardsOf(text: string, entries: seq<Entry>, b: Boundary): seq<Card>
    decreases |entries|
  {
    if entries == [] then []
    else
      var last := entries[|entries| - 1];
      CardsOf(text, entries[..|entries| - 1], b)
        + (match CardFor(text, last, b) case None => [] case Some(card) => [card])
  }

  /** One more entry adds its card, if it gets one, at the end. */
  lemma CardsOfSnoc(text: string, entries: seq<Entry>, i: nat, b: Boundary)
    requires i < |entries|
    ensures CardsOf(text, entries[..i + 1], b)
      == CardsOf(text, entries[..i], b) + (match CardFor(text, entries[i], b) case None => [] case Some(card) => [card])
  {
    assert entries[..i + 1][..i] == entries[..i];
  }

  /** The cards of the results page. */
  function ResultCards(text: string): seq<Card>
  {
    CardsOf(text, Known, CardBoundary)
  }

  /** The if/elif chain over the section type. */
  method RenderBody(e: Entry, content: string) returns (body: Body)
    ensures body == BodyOf(e, content)
  {
    if e.kind == Brands {
      var shown := DisplayTabletNames(content);
      body := NameChips(shown);
    } else if e.kind == Safety {
      body := SafetyField(SafetyLevel(content), e.name, content);
    } else if e.kind == Composition {
      body := Lines(["**" + content + "**"]);
    } else if e.kind == Uses {
      if IsListLike(content) {
        var items := SplitListItems(content);
        body := Lines(Prefixed("\U{2022} ", items));
      } else {
        body := Lines([content]);
      }
    } else if e.kind == SideEffects {
      if IsListLike(content) {
        var items := SplitListItems(content);
        body := Lines(Prefixed("\U{26A0}\U{FE0F} ", items));
      } else {
        body := Lines(["\U{26A0}\U{FE0F} " + content]);
      }
    } else if e.kind == Cost {
      body := Lines(["\U{1F4B0} **" + content + "**"]);
    } else {
      body := Lines([content]);
    }
  }

  /** The loop over a sections list: search each entry's tag, and render a
      card for each one found. */
  method RenderCards(text: string, entries: seq<Entry>, b: Boundary) returns (cards: seq<Card>)
    ensures cards == CardsOf(text, entries, b)
  {
    cards := [];
    var i := 0;
    while i < |entries|
      invariant 0 <= i <= |entries|
      invariant cards == CardsOf(text, entries[..i], b)
    {
      var e := entries[i];
      var found := SearchSection(text, e.name, b);
      if found.Some? {
        var body := RenderBody(e, found.value);
        cards := cards + [Card(e.name, e.icon, body)];
      }
      CardsOfSnoc(text, entries, i, b);
      i := i + 1;
    }
    assert entries[..|entries|] == entries;
  }

  /** The result cards of `main`: the loop over the fixed sections list. */
  method BuildCards(text: string) returns (cards: seq<Card>)
    ensures cards == ResultCards(text)
  {
    cards := RenderCards(text, Known, CardBoundary);
  }

  // -------------------------------------------------------- interaction card

  /** The interaction card: the additional medications line, the badge, and
      the analysis text. */
  datatype InteractionCard = InteractionCard(medsLine: string, badge: InteractionTag, analysis: string)

  /** The interaction card, shown when there is an interaction analysis:
      exactly when the analysis text is not empty, with the badge the
      classifier picks for it. */
  function InteractionCardOf(analysis: string, meds: string): (r: Option<InteractionCard>)
    ensures r.Some? <==> analysis != []
    ensures r.Some? ==> r.value.analysis == analysis && Some(r.value.badge) == InteractionLevel(analysis)
  {
    match InteractionLevel(analysis)
    case None => None
    case Some(badge) => Some(InteractionCard("**Additional Medications:** " + meds, badge, analysis))
  }

  // ------------------------------------------------------ interaction query

  /** The composition kept after an analysis: the stripped content of the
      first `*Composition:*` tag, ending at any generic marker, or the one
      kept before when the tag is missing. */
  function KeptComposition(before: Option<string>, text: string): Option<string>
  {
    match CompositionOf(text)
    case Some(c) => Some(c)
    case None => before
  }

  /** `drug_composition or "Unknown composition"`: an empty or missing
      composition is replaced by the fallback. */
  function QueryComposition(kept: Option<string>): (r: string)
    ensures r != []
    ensures kept.Some? && kept.value != [] ==> r == kept.value
    ensures kept.None? || kept.value == [] ==> r == "Unknown composition"
  {
    match kept
    case Some(c) => if c == [] then "Unknown composition" else c
    case None => "Unknown composition"
  }

  /** An interaction query, composition and medications. */
  datatype Query = Query(composition: string, meds: string)

  /** The query sent after an analysis that returned `text`: none when the
      analysis text is empty (the analysis counts as failed) or when the
      medications field is blank once stripped. */
  function InteractionQuery(before: Option<string>, text: string, meds: string): Option<Query>
  {
    if text == [] || Strip(meds) == [] then None
    else Some(Query(QueryComposition(KeptComposition(before, text)), meds))
  }
}

/** What the result cards and the interaction query promise. */
module CardsFacts {
  import opened Text
  import opened Wrappers
  import opened Markers
  import opened Search
  import opened Tokenize
  import opened TokenizeFacts
  import opened Cards

  /** The card each entry gets, or `None`, entry by entry. */
  function Shown(text: string, entries: seq<Entry>, b: Boundary): (r: seq<Option<Card>>)
    ensures |r| == |entries|
    ensures forall i :: 0 <= i < |entries| ==> r[i] == CardFor(text, entries[i], b)
  {
    seq(|entries|, i requires 0 <= i < |entries| => CardFor(text, entries[i], b))
  }

  /** The values of the present options, in order. */
  function Somes<T>(xs: seq<Option<T>>): seq<T>
    decreases |xs|
  {
    if xs == [] then []
    else
      var n := |xs| - 1;
      Somes(xs[..n]) + (match xs[n] case None => [] case Some(v) => [v])
  }

  /** The indices of the present options, in order. */
  function SomeIndices<T>(xs: seq<Option<T>>): seq<nat>
    decreases |xs|
  {
    if xs == [] then []
    else
      var n := |xs| - 1;
      SomeIndices(xs[..n]) + (if xs[n].Some? then [n] else [])
  }

  /** The indices of the present options are increasing, in range, and
      exactly those of the present options. */
  lemma {:induction false} SomeIndicesShape<T>(xs: seq<Option<T>>)
    ensures forall k :: 0 <= k < |SomeIndices(xs)| ==> SomeIndices(xs)[k] < |xs|
    ensures forall k, l :: 0 <= k < l < |SomeIndices(xs)| ==> SomeIndices(xs)[k] < SomeIndices(xs)[l]
    ensures forall i :: 0 <= i < |xs| ==> (i in SomeIndices(xs) <==> xs[i].Some?)
    decreases |xs|
  {
    if xs != [] {
      var n := |xs| - 1;
      SomeIndicesShape(xs[..n]);
      var p := SomeIndices(xs[..n]);
      if xs[n].Some? {
        assert SomeIndices(xs) == p + [n];
      } else {
        assert SomeIndices(xs) == p;
      }
    }
  }

  /** The present values are those at the present indices, one each. */
  lemma {:induction false} SomesAtIndices<T>(xs: seq<Option<T>>)
    ensures |Somes(xs)| == |SomeIndices(xs)|
    ensures forall k :: 0 <= k < |SomeIndices(xs)| ==>
      SomeIndices(xs)[k] < |xs| && xs[SomeIndices(xs)[k]] == Some(Somes(xs)[k])
    decreases |xs|
  {
    if xs != [] {
      var n := |xs| - 1;
      SomesAtIndices(xs[..n]);
      var c, p := Somes(xs[..n]), SomeIndices(xs[..n]);
      match xs[n]
      case Some(v) =>
        assert Somes(xs) == c + [v];
        assert SomeIndices(xs) == p + [n];
      case None =>
        assert Somes(xs) == c;
        assert SomeIndices(xs) == p;
    }
  }

  /** The cards of a list of entries are the cards shown entry by entry,
      with the entries that get none left out. */
  lemma {:induction false} CardsOfShown(text: string, entries: seq<Entry>, b: Boundary)
    ensures CardsOf(text, entries, b) == Somes(Shown(text, entries, b))
    decreases |entries|
  {
    if entries != [] {
      var n := |entries| - 1;
      CardsOfShown(text, entries[..n], b);
      assert Shown(text, entries, b)[..n] == Shown(text, entries[..n], b);
    }
  }

  /** The labels of the sections list are those of the entries. */
  lemma NamesOfKnown()
    ensures |Names| == |Known|
    ensures forall i :: 0 <= i < |Known| ==> Names[i] == Known[i].name
  {
  }

  /** All labels differ. */
  lemma KnownNamesDistinct()
    ensures forall i, j :: 0 <= i < j < |Known| ==> Known[i].name != Known[j].name
  {
  }

  /** All labels are plain, so each of their tags is a generic marker. */
  lemma NamesPlain()
    ensures forall i :: 0 <= i < |Names| ==> PlainLabel(Names[i])
  {
    forall i | 0 <= i < |Names|
      ensures PlainLabel(Names[i])
    {
      var key := Names[i];
      forall k | 0 <= k < |key|
        ensures 'a' <= key[k] <= 'z' || 'A' <= key[k] <= 'Z' || key[k] == ' '
      {
      }
    }
  }

  /** No label is shorter than four characters, and none has five. */
  lemma NamesLengths()
    ensures forall i :: 0 <= i < |Names| ==> 4 <= |Names[i]| && |Names[i]| != 5
  {
  }

  /** The result cards follow the sections list, not the order of the text:
      one card per entry whose tag occurs anywhere in the text (ignoring
      case), none for an entry whose tag is missing, and no label twice. */
  lemma ResultCardsInListOrder(text: string)
    ensures var cards := ResultCards(text); var present := SomeIndices(Shown(text, Known, CardBoundary));
      |cards| == |present|
      && (forall k :: 0 <= k < |cards| ==>
            present[k] < |Known| && CardFor(text, Known[present[k]], CardBoundary) == Some(cards[k]))
      && (forall k, l :: 0 <= k < l < |cards| ==> present[k] < present[l] && cards[k].name != cards[l].name)
      && (forall i :: 0 <= i < |Known| ==>
            (i in present <==> exists p :: 0 <= p && TagAt(text, p, Known[i].name)))
  {
    var shown := Shown(text, Known, CardBoundary);
    CardsOfShown(text, Known, CardBoundary);
    SomesAtIndices(shown);
    SomeIndicesShape(shown);
    KnownNamesDistinct();
    var present := SomeIndices(shown);
    forall k | 0 <= k < |present|
      ensures ResultCards(text)[k].name == Known[present[k]].name
    {
      assert CardFor(text, Known[present[k]], CardBoundary) == Some(ResultCards(text)[k]);
    }
    forall i | 0 <= i < |Known|
      ensures i in present <==> exists p :: 0 <= p && TagAt(text, p, Known[i].name)
    {
      var sought := SearchSection(text, Known[i].name, CardBoundary);
      assert sought.None? <==> forall p :: 0 <= p ==> !TagAt(text, p, Known[i].name);
    }
  }

  /** The composition card and the composition kept for an interaction query
      are found from the same tag; the card's raw content runs on past
      unknown markers, so the kept one is a prefix of it. */
  lemma CompositionCardExtendsQuery(text: string)
    ensures RawContent(text, "Composition", AnyMarker).Some? <==> RawContent(text, "Composition", CardBoundary).Some?
    ensures RawContent(text, "Composition", AnyMarker).Some? ==>
      RawContent(text, "Composition", AnyMarker).value <= RawContent(text, "Composition", CardBoundary).value
  {
    NamesPlain();
    GenericContentIsPrefix(text, "Composition", Names);
  }

  /** The example text of the next lemmas. */
  const Noted: string := "*Uses:* a *Notes:* b"

  /** In `Noted`, the Uses tag stands at the start. */
  lemma NotedUsesTag()
    ensures FirstTag(Noted, "Uses", 0) == Some(0)
  {
    assert Noted[1..5] == "Uses";
  }

  /** In `Noted`, no tag of a known label stands after the Uses tag: the
      only other `*`s open and close a five-letter label. */
  lemma NotedNoCardTag()
    ensures ContentEnd(Noted, 7, CardBoundary) == |Noted|
  {
    NamesLengths();
    forall k | 7 <= k < |Noted|
      ensures !StopsAt(Noted, k, CardBoundary) && !EndAnchor(Noted, k)
    {
      forall i | 0 <= i < |Names|
        ensures !TagAt(Noted, k, Names[i])
      {
        if k != 10 && k != 17 {
          assert Noted[k] != '*';
        }
      }
    }
    ContentEndAt(Noted, 7, |Noted|, CardBoundary);
  }

  /** In `Noted`, the generic marker `*Notes:*` stands at 10. */
  lemma NotedMarker()
    ensures MarkerAt(Noted, 10)
  {
    forall k | 11 <= k < 16
      ensures IsLabelChar(Noted[k])
    {
    }
    assert Noted[16] == ':' && !IsLabelChar(':');
    LabelEndAt(Noted, 11, 16);
  }

  /** In `Noted`, nothing between the Uses tag and `*Notes:*` stops a
      content. */
  lemma NotedNoEarlierStop()
    ensures forall k :: 7 <= k < 10 ==> !StopsAt(Noted, k, AnyMarker) && !EndAnchor(Noted, k)
  {
    forall k | 7 <= k < 10
      ensures !StopsAt(Noted, k, AnyMarker) && !EndAnchor(Noted, k)
    {
      assert Noted[k] != '*';
    }
  }

  /** In `Noted`, a content bounded by any generic marker that starts after
      the Uses tag stops at `*Notes:*`. */
  lemma NotedGenericStop()
    ensures ContentEnd(Noted, 7, AnyMarker) == 10
  {
    NotedMarker();
    NotedNoEarlierStop();
    ContentEndAt(Noted, 7, 10, AnyMarker);
  }

  /** The content the card search finds in `Noted`, stripped. */
  lemma NotedCardStrip()
    ensures Strip(Noted[7..20]) == "a *Notes:* b"
  {
    assert Noted[7..20] == [' '] + "a *Notes:* b" + [];
    assert !IsSpace('a') && !IsSpace('b');
    StripUnique([' '], "a *Notes:* b", []);
  }

  /** The content the generic search finds in `Noted`, stripped. */
  lemma NotedGenericStrip()
    ensures Strip(Noted[7..10]) == "a"
  {
    assert Noted[7..10] == [' '] + "a" + [' '];
    assert !IsSpace('a');
    StripUnique([' '], "a", [' ']);
  }

  /** An unknown marker stays inside a card: after `*Uses:*`, the card's
      content runs over `*Notes:*` to the end, while a search bounded by any
      generic marker stops at it. */
  lemma UnknownMarkerStaysInCard()
    ensures SearchSection(Noted, "Uses", CardBoundary) == Some("a *Notes:* b")
    ensures SearchSection(Noted, "Uses", AnyMarker) == Some("a")
  {
    NotedUsesTag();
    assert SearchSection(Noted, "Uses", CardBoundary) == Some(Strip(Noted[7..20])) by {
      NotedNoCardTag();
    }
    NotedCardStrip();
    assert SearchSection(Noted, "Uses", AnyMarker) == Some(Strip(Noted[7..10])) by {
      NotedGenericStop();
    }
    NotedGenericStrip();
  }

  /** Each line of a list-like Uses card is a bullet followed by a stripped,
      non-empty item taken from the content and holding neither a comma nor
      a newline. */
  lemma UsesLines(e: Entry, content: string)
    requires e.kind == Uses && IsListLike(content)
    ensures var lines := BodyOf(e, content).lines;
      |lines| == |ListItems(content)|
      && forall k :: 0 <= k < |lines| ==>
        var item := ListItems(content)[k];
        lines[k] == "\U{2022} " + item && item != [] && Strip(item) == item && ',' !in item && '\n' !in item
  {
    var items := ListItems(content);
    assert BodyOf(e, content).lines == Prefixed("\U{2022} ", items);
    ListItemsShape(content);
    forall k | 0 <= k < |items|
      ensures ',' !in items[k] && '\n' !in items[k]
    {
      assert ',' in items[k] ==> ',' in content && ',' != ',';
      assert '\n' in items[k] ==> '\n' in content && '\n' != '\n';
    }
  }

  /** The same for the lines of a list-like Side Effects card, each behind a
      warning sign. */
  lemma SideEffectsLines(e: Entry, content: string)
    requires e.kind == SideEffects && IsListLike(content)
    ensures var lines := BodyOf(e, content).lines;
      |lines| == |ListItems(content)|
      && forall k :: 0 <= k < |lines| ==>
        var item := ListItems(content)[k];
        lines[k] == "\U{26A0}\U{FE0F} " + item && item != [] && Strip(item) == item && ',' !in item && '\n' !in item
  {
    var items := ListItems(content);
    assert BodyOf(e, content).lines == Prefixed("\U{26A0}\U{FE0F} ", items);
    ListItemsShape(content);
    forall k | 0 <= k < |items|
      ensures ',' !in items[k] && '\n' !in items[k]
    {
      assert ',' in items[k] ==> ',' in content && ',' != ',';
      assert '\n' in items[k] ==> '\n' in content && '\n' != '\n';
    }
  }

  /** An interaction query is sent exactly when the analysis text is not
      empty and the medications field holds a character that is not
      whitespace, and it never names an empty composition. */
  lemma InteractionQuerySent(before: Option<string>, text: string, meds: string)
    ensures InteractionQuery(before, text, meds).Some? <==> text != [] && exists k :: 0 <= k < |meds| && !IsSpace(meds[k])
    ensures InteractionQuery(before, text, meds).Some? ==> InteractionQuery(before, text, meds).value.composition != []
  {
    StripEnds(meds);
  }

  /** A query follows only a non-empty analysis text. A composition found
      in it is the one queried, when it is not empty; when the tag is
      missing, the one kept before is. */
  lemma QueryUsesFoundComposition(before: Option<string>, text: string, meds: string)
    requires InteractionQuery(before, text, meds).Some?
    ensures text != []
    ensures var c := CompositionOf(text); var q := InteractionQuery(before, text, meds).value;
      (c.Some? && c.value != [] ==> q.composition == c.value)
      && (c.None? && before.Some? && before.value != [] ==> q.composition == before.value)
  {
  }
}
