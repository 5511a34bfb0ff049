/** The two tokenisers of the results page: `display_tablet_names`, which cuts
    the "Available Tablet Names" content at the first delimiter it finds and
    renders one chip per name, and the list split of the "Uses" and "Side
    Effects" cards, which cuts at commas once newlines have become ", ". */
module Tokenize {
  import opened Text
  import opened Wrappers

  /** The delimiters `display_tablet_names` tries, in this order. */
  const Delimiters: seq<char> := ['\n', ',', ';', '•', '-']

  /** `[x.strip() for x in parts if x.strip()]`. */
  function StrippedNonBlank(parts: seq<string>): seq<string>
    decreases |parts|
  {
    if parts == [] then []
    else
      var last := Strip(parts[|parts| - 1]);
      StrippedNonBlank(parts[..|parts| - 1]) + (if last == [] then [] else [last])
  }

  // ---------------------------------------------------------- tablet names

  /** The index of the first delimiter from `i` on that occurs in the text. */
  function FirstDelimiterFrom(text: string, i: nat): (r: Option<nat>)
    requires i <= |Delimiters|
    ensures r.Some? ==> (i <= r.value < |Delimiters| && Delimiters[r.value] in text
      && forall j :: i <= j < r.value ==> Delimiters[j] !in text)
    ensures r.None? ==> forall j :: i <= j < |Delimiters| ==> Delimiters[j] !in text
    decreases |Delimiters| - i
  {
    if i == |Delimiters| then None
    else if Delimiters[i] in text then Some(i)
    else FirstDelimiterFrom(text, i + 1)
  }

  /** `text.split(d)`, each name stripped, the blank ones dropped. */
  function Cut(text: string, d: char): seq<string>
  {
    StrippedNonBlank(Split(text, {d}))
  }

  /** The names `display_tablet_names` finds: nothing for an empty text;
      otherwise the text cut at the first delimiter present, or, when there
      is no delimiter or every piece is blank, the whole text stripped. */
  function TabletNames(text: string): seq<string>
  {
    if text == [] then []
    else
      var cut := match FirstDelimiterFrom(text, 0)
        case None => []
        case Some(i) => Cut(text, Delimiters[i]);
      if cut == [] then [Strip(text)] else cut
  }

  /** The loop that keeps the stripped, non-blank pieces, in order. */
  method KeepStripped(pieces: seq<string>) returns (kept: seq<string>)
    ensures kept == StrippedNonBlank(pieces)
  {
    kept := [];
    var k := 0;
    while k < |pieces|
      invariant 0 <= k <= |pieces|
      invariant kept == StrippedNonBlank(pieces[..k])
    {
      var name := Strip(pieces[k]);
      if name != [] {
        kept := kept + [name];
      }
      assert pieces[..k + 1][..k] == pieces[..k];
      k := k + 1;
    }
    assert pieces[..k] == pieces;
  }

  /** The delimiter loop of `display_tablet_names`: try each delimiter in
      turn, split at the first one present and stop; fall back to the whole
      stripped text. */
  method ParseTabletNames(text: string) returns (names: seq<string>)
    ensures names == TabletNames(text)
  {
    names := [];
    if text == [] {
      return;
    }
    var i := 0;
    while i < |Delimiters|
      invariant 0 <= i <= |Delimiters|
      invariant FirstDelimiterFrom(text, i) == FirstDelimiterFrom(text, 0)
      invariant names == []
    {
      var d := Delimiters[i];
      if d in text {
        names := KeepStripped(Split(text, {d}));
        break;
      }
      i := i + 1;
    }
    if names == [] {
      names := [Strip(text)];
    }
  }

  /** The chip `display_tablet_names` renders for one name. */
  function Chip(name: string): string
  {
    "<span class=\"tablet-name\">\U{1F48A} " + name + "</span>"
  }

  /** The chips of the non-empty names, in order. */
  function Chips(names: seq<string>): string
    decreases |names|
  {
    if names == [] then ""
    else
      var last := names[|names| - 1];
      Chips(names[..|names| - 1]) + (if last == [] then "" else Chip(last))
  }

  /** The chip loop of `display_tablet_names`. */
  method RenderChips(names: seq<string>) returns (html: string)
    ensures html == Chips(names)
  {
    html := "";
    var k := 0;
    while k < |names|
      invariant 0 <= k <= |names|
      invariant html == Chips(names[..k])
    {
      if names[k] != [] {
        html := html + Chip(names[k]);
      }
      assert names[..k + 1][..k] == names[..k];
      k := k + 1;
    }
    assert names[..k] == names;
  }

  /** What `display_tablet_names` shows: the chip markup, or nothing when the
      text is empty or no chip was made. */
  function ShownChips(text: string): Option<string>
  {
    var html := Chips(TabletNames(text));
    if html == [] then None else Some(html)
  }

  /** `display_tablet_names`: parse, render, and show only non-empty markup. */
  method DisplayTabletNames(text: string) returns (shown: Option<string>)
    ensures shown == ShownChips(text)
  {
    if text == [] {
      return None;
    }
    var names := ParseTabletNames(text);
    var html := RenderChips(names);
    shown := if html == [] then None else Some(html);
  }

  // ------------------------------------------------------ list-like content

  /** The "Uses" and "Side Effects" cards list their content item by item
      when it holds a newline, a comma or a bullet. */
  predicate IsListLike(content: string)
  {
    '\n' in content || ',' in content || '•' in content
  }

  /** The items of a list-like content: newlines become ", ", the result is
      split at commas, pieces are stripped and blank ones dropped. */
  function ListItems(content: string): seq<string>
  {
    StrippedNonBlank(Split(ReplaceChar(content, '\n', ", "), {','}))
  }

  /** The item loop of the "Uses" and "Side Effects" cards. */
  method SplitListItems(content: string) returns (items: seq<string>)
    ensures items == ListItems(content)
  {
    var pieces := Split(ReplaceChar(content, '\n', ", "), {','});
    items := KeepStripped(pieces);
  }
}

/** What the tokenisers promise. */
module TokenizeFacts {
  import opened Text
  import opened Wrappers
  import opened Tokenize

  /** What survives is stripped and non-empty, no more than there were
      pieces, and nothing survives exactly when every piece is blank. */
  lemma {:induction false} StrippedNonBlankItems(parts: seq<string>)
    ensures var r := StrippedNonBlank(parts);
      |r| <= |parts|
      && (forall k :: 0 <= k < |r| ==> r[k] != [] && Strip(r[k]) == r[k])
      && (r == [] <==> forall k :: 0 <= k < |parts| ==> Strip(parts[k]) == [])
    decreases |parts|
  {
    if parts != [] {
      var init := parts[..|parts| - 1];
      StrippedNonBlankItems(init);
      StripIdempotent(parts[|parts| - 1]);
      assert forall k :: 0 <= k < |init| ==> init[k] == parts[k];
    }
  }

  /** Stripped, non-empty pieces survive unchanged. */
  lemma {:induction false} StrippedNonBlankKeeps(parts: seq<string>)
    requires forall k :: 0 <= k < |parts| ==> parts[k] != [] && Strip(parts[k]) == parts[k]
    ensures StrippedNonBlank(parts) == parts
    decreases |parts|
  {
    if parts != [] {
      var n := |parts| - 1;
      assert StrippedNonBlank(parts[..n]) == parts[..n] by {
        forall k | 0 <= k < n
          ensures parts[..n][k] != [] && Strip(parts[..n][k]) == parts[..n][k]
        {
          assert parts[..n][k] == parts[k];
        }
        StrippedNonBlankKeeps(parts[..n]);
      }
      assert Strip(parts[n]) == parts[n] != [];
      assert parts[..n] + [parts[n]] == parts;
    }
  }

  /** Every character of a surviving piece is a character of some piece. */
  lemma {:induction false} StrippedNonBlankChars(parts: seq<string>)
    ensures forall k, x :: 0 <= k < |StrippedNonBlank(parts)| && x in StrippedNonBlank(parts)[k] ==>
      exists j :: 0 <= j < |parts| && x in parts[j]
    decreases |parts|
  {
    if parts != [] {
      var n := |parts| - 1;
      var init := parts[..n];
      StrippedNonBlankChars(init);
      StripChars(parts[n]);
      var r := StrippedNonBlank(parts);
      forall k, x | 0 <= k < |r| && x in r[k]
        ensures exists j :: 0 <= j < |parts| && x in parts[j]
      {
        if k < |StrippedNonBlank(init)| {
          assert r[k] == StrippedNonBlank(init)[k];
          var j :| 0 <= j < |init| && x in init[j];
          assert init[j] == parts[j];
        } else {
          assert x in parts[n];
        }
      }
    }
  }

  /** The kept pieces `r` of a split are stripped, non-empty, and made of
      characters of the text other than the separators. */
  lemma KeptPiecesShape(text: string, seps: set<char>, r: seq<string>)
    requires r == StrippedNonBlank(Split(text, seps))
    ensures forall k :: 0 <= k < |r| ==> r[k] != [] && Strip(r[k]) == r[k]
    ensures forall k, x :: 0 <= k < |r| && x in r[k] ==> x in text && x !in seps
  {
    var pieces := Split(text, seps);
    StrippedNonBlankItems(pieces);
    StrippedNonBlankChars(pieces);
    SplitChars(text, seps);
    SplitShape(text, seps);
    forall k, x | 0 <= k < |r| && x in r[k]
      ensures x in text && x !in seps
    {
      var m :| 0 <= m < |pieces| && x in pieces[m];
      var t :| 0 <= t < |pieces[m]| && pieces[m][t] == x;
    }
  }

  /** The names of a cut are stripped, non-empty, and made of characters of
      the text other than the delimiter. */
  lemma CutItems(text: string, d: char)
    ensures forall k :: 0 <= k < |Cut(text, d)| ==> Cut(text, d)[k] != [] && Strip(Cut(text, d)[k]) == Cut(text, d)[k]
    ensures forall k, x :: 0 <= k < |Cut(text, d)| && x in Cut(text, d)[k] ==> x in text && x != d
  {
    var cut := Cut(text, d);
    KeptPiecesShape(text, {d}, cut);
    forall k, x | 0 <= k < |cut| && x in cut[k]
      ensures x != d
    {
      assert x !in {d};
    }
  }

  /** A text that is only whitespace cuts into no name at all. */
  lemma AllSpaceCut(text: string, d: char)
    requires forall k :: 0 <= k < |text| ==> IsSpace(text[k])
    ensures Cut(text, d) == []
  {
    var pieces := Split(text, {d});
    StrippedNonBlankItems(pieces);
    SplitChars(text, {d});
    forall m | 0 <= m < |pieces|
      ensures Strip(pieces[m]) == []
    {
      forall t | 0 <= t < |pieces[m]|
        ensures IsSpace(pieces[m][t])
      {
        assert pieces[m][t] in pieces[m];
        assert pieces[m][t] in text;
        var q :| 0 <= q < |text| && text[q] == pieces[m][t];
      }
    }
  }

  /** A non-empty text yields at least one name, and every name is stripped. */
  lemma TabletNamesStripped(text: string)
    requires text != []
    ensures var names := TabletNames(text);
      names != [] && forall k :: 0 <= k < |names| ==> Strip(names[k]) == names[k]
  {
    StripIdempotent(text);
    var f := FirstDelimiterFrom(text, 0);
    if f.Some? {
      CutItems(text, Delimiters[f.value]);
    }
  }

  /** When the cut at the first delimiter present keeps some name (the
      `break` is taken with a non-empty list), the names are that cut, and
      every name is non-empty and free of that delimiter and of every
      delimiter tried before it. */
  lemma TabletNamesAvoidDelimiters(text: string)
    ensures var f := FirstDelimiterFrom(text, 0); var names := TabletNames(text);
      text != [] && f.Some? && Cut(text, Delimiters[f.value]) != [] ==>
        names == Cut(text, Delimiters[f.value])
        && forall k :: 0 <= k < |names| ==>
          (names[k] != [] && forall j :: 0 <= j <= f.value ==> Delimiters[j] !in names[k])
  {
    var f := FirstDelimiterFrom(text, 0);
    if text != [] && f.Some? {
      CutItems(text, Delimiters[f.value]);
    }
  }

  /** There are no chips exactly when every name is empty. */
  lemma {:induction false} ChipsEmpty(names: seq<string>)
    ensures Chips(names) == [] <==> forall k :: 0 <= k < |names| ==> names[k] == []
    decreases |names|
  {
    if names != [] {
      var init := names[..|names| - 1];
      ChipsEmpty(init);
      assert forall k :: 0 <= k < |init| ==> init[k] == names[k];
    }
  }

  /** A text that is empty or only whitespace shows nothing; any other text
      shows at least one chip. */
  lemma TabletNamesShown(text: string)
    ensures ShownChips(text).None? <==> forall k :: 0 <= k < |text| ==> IsSpace(text[k])
  {
    if text == [] {
      return;
    }
    var names := TabletNames(text);
    ChipsEmpty(names);
    var f := FirstDelimiterFrom(text, 0);
    if forall k :: 0 <= k < |text| ==> IsSpace(text[k]) {
      if f.Some? {
        AllSpaceCut(text, Delimiters[f.value]);
      }
      assert names == [Strip(text)];
    } else {
      assert Strip(text) != [];
      if f.Some? {
        CutItems(text, Delimiters[f.value]);
      }
      assert names[0] != [];
    }
  }

  /** Every character of a join is the delimiter or a character of a piece. */
  lemma {:induction false} JoinChars(parts: seq<string>, d: char)
    requires |parts| >= 1
    ensures forall x :: x in Join(parts, d) ==> x == d || exists k :: 0 <= k < |parts| && x in parts[k]
    decreases |parts|
  {
    if |parts| > 1 {
      JoinChars(parts[1..], d);
      forall x | x in Join(parts, d)
        ensures x == d || exists k :: 0 <= k < |parts| && x in parts[k]
      {
        if x in Join(parts[1..], d) && x != d {
          var k :| 0 <= k < |parts[1..]| && x in parts[1..][k];
          assert x in parts[k + 1];
        }
      }
    }
  }

  /** A join of two or more pieces holds the delimiter. */
  lemma JoinHasDelimiter(parts: seq<string>, d: char)
    requires |parts| >= 2
    ensures d in Join(parts, d)
  {
    var text := Join(parts, d);
    assert text == parts[0] + [d] + Join(parts[1..], d);
    assert text[|parts[0]|] == d;
  }

  /** The first delimiter is the one at `i` when it occurs and none before
      it does. */
  lemma FirstDelimiterIs(text: string, i: nat)
    requires i < |Delimiters| && Delimiters[i] in text
    requires forall j :: 0 <= j < i ==> Delimiters[j] !in text
    ensures FirstDelimiterFrom(text, 0) == Some(i)
  {
    var f := FirstDelimiterFrom(text, 0);
    assert f.Some?;
  }

  /** No delimiter is listed twice. */
  lemma DelimitersDistinct(j: nat, i: nat)
    requires j < i < |Delimiters|
    ensures Delimiters[j] != Delimiters[i]
  {
  }

  /** Round trip of `TabletNames`: two or more names, stripped, non-empty, free
      of a delimiter and of every delimiter tried before it, joined with
      that delimiter, are read back as exactly those names. */
  lemma TabletNamesOfJoin(names: seq<string>, i: nat)
    requires i < |Delimiters| && |names| >= 2
    requires forall k :: 0 <= k < |names| ==> names[k] != [] && Strip(names[k]) == names[k]
    requires forall k, j :: 0 <= k < |names| && 0 <= j <= i ==> Delimiters[j] !in names[k]
    ensures TabletNames(Join(names, Delimiters[i])) == names
  {
    var d := Delimiters[i];
    var text := Join(names, d);
    JoinChars(names, d);
    JoinHasDelimiter(names, d);
    forall j | 0 <= j < i
      ensures Delimiters[j] !in text
    {
      DelimitersDistinct(j, i);
    }
    FirstDelimiterIs(text, i);
    SplitJoin(names, d);
    StrippedNonBlankKeeps(names);
  }

  /** Each piece stripped. */
  function MapStrip(parts: seq<string>): (r: seq<string>)
    ensures |r| == |parts| && forall k :: 0 <= k < |r| ==> r[k] == Strip(parts[k])
  {
    seq(|parts|, k requires 0 <= k < |parts| => Strip(parts[k]))
  }

  /** Pieces that strip alike keep alike. */
  lemma {:induction false} StrippedNonBlankOfStrips(a: seq<string>, b: seq<string>)
    requires MapStrip(a) == MapStrip(b)
    ensures StrippedNonBlank(a) == StrippedNonBlank(b)
    decreases |a|
  {
    if a != [] {
      var n := |a| - 1;
      assert Strip(a[n]) == MapStrip(a)[n] == MapStrip(b)[n] == Strip(b[n]);
      assert MapStrip(a[..n]) == MapStrip(b[..n]) by {
        forall k | 0 <= k < n
          ensures MapStrip(a[..n])[k] == MapStrip(b[..n])[k]
        {
          assert MapStrip(a)[k] == MapStrip(b)[k];
        }
      }
      StrippedNonBlankOfStrips(a[..n], b[..n]);
    }
  }

  lemma MapStripCons(w: string, rest: seq<string>)
    ensures MapStrip([w] + rest) == [Strip(w)] + MapStrip(rest)
  {
  }

  lemma MapStripConsEq(w: string, a: seq<string>, b: seq<string>)
    requires MapStrip(a) == MapStrip(b)
    ensures MapStrip([w] + a) == MapStrip([w] + b)
  {
    MapStripCons(w, a);
    MapStripCons(w, b);
  }

  /** A space in front of a text changes none of its stripped pieces. */
  lemma SplitSpacePrefix(t: string, seps: set<char>)
    requires ' ' !in seps
    ensures MapStrip(Split([' '] + t, seps)) == MapStrip(Split(t, seps))
  {
    var p := Split(t, seps);
    SplitPrefix([' '], t, seps);
    StripSpacePrefix(' ', p[0]);
    MapStripCons([' '] + p[0], p[1..]);
    MapStripCons(p[0], p[1..]);
    assert [p[0]] + p[1..] == p;
  }

  /** A separator after a separator-free prefix closes the prefix's piece. */
  lemma SplitAtSeparator(w: string, d: char, t: string, seps: set<char>)
    requires d in seps && forall j :: 0 <= j < |w| ==> w[j] !in seps
    ensures Split(w + ([d] + t), seps) == [w] + Split(t, seps)
  {
    SplitPrefix(w, [d] + t, seps);
    SplitAfterSeparator(d, t, seps);
    assert w + "" == w;
  }

  /** `SplitAtSeparator` for a `w` free of newlines and commas. */
  lemma SplitAtListSeparator(w: string, d: char, t: string, seps: set<char>)
    requires forall j :: 0 <= j < |w| ==> w[j] != ',' && w[j] != '\n'
    requires seps == {','} || seps == {'\n', ','}
    requires d in seps
    ensures Split(w + ([d] + t), seps) == [w] + Split(t, seps)
  {
    SplitAtSeparator(w, d, t, seps);
  }

  /** A comma after a separator-free `w`: both sides close `w`'s piece and
      go on alike. */
  lemma ReplaceSplitComma(w: string, t: string)
    requires forall j :: 0 <= j < |w| ==> w[j] != ',' && w[j] != '\n'
    requires MapStrip(Split([] + ReplaceChar(t, '\n', ", "), {','})) == MapStrip(Split([] + t, {'\n', ','}))
    ensures MapStrip(Split(w + ReplaceChar([','] + t, '\n', ", "), {','})) == MapStrip(Split(w + ([','] + t), {'\n', ','}))
  {
    var rt := ReplaceChar(t, '\n', ", ");
    assert Split(w + ReplaceChar([','] + t, '\n', ", "), {','}) == [w] + Split(rt, {','}) by {
      assert ([','] + t)[1..] == t;
      assert ReplaceChar([','] + t, '\n', ", ") == [','] + rt;
      SplitAtListSeparator(w, ',', rt, {','});
    }
    assert Split(w + ([','] + t), {'\n', ','}) == [w] + Split(t, {'\n', ','}) by {
      SplitAtListSeparator(w, ',', t, {'\n', ','});
    }
    assert [] + rt == rt && [] + t == t;
    MapStripConsEq(w, Split(rt, {','}), Split(t, {'\n', ','}));
  }

  lemma ReplaceNewlineHead(t: string)
    ensures ReplaceChar(['\n'] + t, '\n', ", ") == [','] + ([' '] + ReplaceChar(t, '\n', ", "))
  {
    assert (['\n'] + t)[1..] == t;
  }

  /** A newline after a separator-free `w`: it becomes ", ", whose space
      the stripping removes again. */
  lemma ReplaceSplitNewline(w: string, t: string)
    requires forall j :: 0 <= j < |w| ==> w[j] != ',' && w[j] != '\n'
    requires MapStrip(Split([' '] + ReplaceChar(t, '\n', ", "), {','})) == MapStrip(Split([' '] + t, {'\n', ','}))
    ensures MapStrip(Split(w + ReplaceChar(['\n'] + t, '\n', ", "), {','})) == MapStrip(Split(w + (['\n'] + t), {'\n', ','}))
  {
    var rt := ReplaceChar(t, '\n', ", ");
    assert Split(w + ReplaceChar(['\n'] + t, '\n', ", "), {','}) == [w] + Split([' '] + rt, {','}) by {
      ReplaceNewlineHead(t);
      SplitAtListSeparator(w, ',', [' '] + rt, {','});
    }
    assert Split(w + (['\n'] + t), {'\n', ','}) == [w] + Split(t, {'\n', ','}) by {
      SplitAtListSeparator(w, '\n', t, {'\n', ','});
    }
    SplitSpacePrefix(t, {'\n', ','});
    MapStripConsEq(w, Split([' '] + rt, {','}), Split(t, {'\n', ','}));
  }

  /** Any other character joins `w`. */
  lemma ReplaceSplitOther(w: string, x: char, t: string)
    requires x != ',' && x != '\n'
    ensures w + ReplaceChar([x] + t, '\n', ", ") == (w + [x]) + ReplaceChar(t, '\n', ", ")
    ensures w + ([x] + t) == (w + [x]) + t
  {
    assert ([x] + t)[1..] == t;
  }

  /** The generalised statement behind `ListItemsCutAtNewlinesAndCommas`,
      for any separator-free text `w` in front. */
  lemma {:induction false} ReplaceSplitStrips(w: string, c: string)
    requires forall j :: 0 <= j < |w| ==> w[j] != ',' && w[j] != '\n'
    ensures MapStrip(Split(w + ReplaceChar(c, '\n', ", "), {','})) == MapStrip(Split(w + c, {'\n', ','}))
    decreases |c|
  {
    if c == [] {
      SplitPrefix(w, "", {','});
      SplitPrefix(w, "", {'\n', ','});
      assert w + ReplaceChar(c, '\n', ", ") == w + "" == w + c;
    } else {
      var t := c[1..];
      assert c == [c[0]] + t;
      if c[0] == ',' {
        ReplaceSplitStrips([], t);
        ReplaceSplitComma(w, t);
      } else if c[0] == '\n' {
        ReplaceSplitStrips([' '], t);
        ReplaceSplitNewline(w, t);
      } else {
        ReplaceSplitOther(w, c[0], t);
        ReplaceSplitStrips(w + [c[0]], t);
      }
    }
  }

  /** `ListItems` as a single cut at newlines and commas: replacing newlines
      by ", " and splitting at commas gives the same items as cutting the
      content at every newline and every comma directly. */
  lemma ListItemsCutAtNewlinesAndCommas(content: string)
    ensures ListItems(content) == StrippedNonBlank(Split(content, {'\n', ','}))
  {
    ReplaceSplitStrips([], content);
    assert [] + content == content;
    assert [] + ReplaceChar(content, '\n', ", ") == ReplaceChar(content, '\n', ", ");
    StrippedNonBlankOfStrips(Split(ReplaceChar(content, '\n', ", "), {','}), Split(content, {'\n', ','}));
  }

  /** Items are stripped, non-empty, and made of characters of the content
      other than commas and newlines; a bullet is not a separator and stays
      inside its item. */
  lemma ListItemsShape(content: string)
    ensures forall k :: 0 <= k < |ListItems(content)| ==>
      ListItems(content)[k] != [] && Strip(ListItems(content)[k]) == ListItems(content)[k]
    ensures forall k, x :: 0 <= k < |ListItems(content)| && x in ListItems(content)[k] ==>
      x in content && x != ',' && x != '\n'
  {
    var items := ListItems(content);
    var seps := {'\n', ','};
    assert items == StrippedNonBlank(Split(content, seps)) by {
      ListItemsCutAtNewlinesAndCommas(content);
    }
    KeptPiecesShape(content, seps, items);
    forall k, x | 0 <= k < |items| && x in items[k]
      ensures x in content && x != ',' && x != '\n'
    {
      assert x !in seps;
    }
  }
}
