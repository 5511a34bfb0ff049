/** A reference reading of an analysis text, independent of the scan that
    `create_pdf` performs: the text, from its first marker on, is a sequence
    of tiles, each a marker followed by content that stops at the first later
    marker or where `$` matches. The scan reads exactly this tiling, and the
    tiling is unique. */
module Tiling {
  import opened Markers
  import opened Sections

  /** The tag `*title:*` of a generic marker stands at `p`. */
  predicate TagShape(s: string, p: nat, title: string)
  {
    p + |title| + 3 <= |s| && s[p] == '*' && IsLabel(title)
    && s[p + 1..p + 1 + |title|] == title
    && s[p + 1 + |title|] == ':' && s[p + 2 + |title|] == '*'
  }

  /** No generic marker starts, and `$` does not match, anywhere in `[j, e)`. */
  predicate ContentClear(s: string, j: nat, e: nat)
    requires j <= e <= |s|
  {
    forall k :: j <= k < e ==> !MarkerAt(s, k) && !EndAnchor(s, k)
  }

  function TileLength(sec: Section): nat
  {
    |sec.title| + |sec.content| + 3
  }

  /** The section `sec`, tag and content, stands at `p`, its content running
      up to the first marker or `$`. */
  predicate TileAt(s: string, p: nat, sec: Section)
  {
    var j := p + |sec.title| + 3;
    var e := j + |sec.content|;
    e <= |s| && TagShape(s, p, sec.title) && s[j..e] == sec.content && ContentClear(s, j, e)
  }

  /** The reference reading of a report, independent of the scan: from
      position `p` on, the text is the tags and contents of `secs` one after
      the other, each content stopping exactly at the first position where a
      generic marker starts or `$` matches, and after the last content only
      the end of the text (or a final newline) is left. */
  ghost predicate Tiles(s: string, p: nat, secs: seq<Section>)
    requires p <= |s|
    decreases |secs|
  {
    if secs == [] then EndAnchor(s, p)
    else TileAt(s, p, secs[0]) && Tiles(s, p + TileLength(secs[0]), secs[1..])
  }

  /** A tag shape is a generic marker, and its title is the marker's label. */
  lemma TagShapeIsMarker(s: string, p: nat, title: string)
    requires TagShape(s, p, title)
    ensures MarkerAt(s, p)
    ensures LabelEnd(s, p + 1) == p + 1 + |title|
  {
    var q := p + 1 + |title|;
    forall k | p + 1 <= k < q
      ensures IsLabelChar(s[k])
    {
      assert s[k] == title[k - p - 1];
    }
    assert !IsLabelChar(':');
    LabelEndAt(s, p + 1, q);
  }

  /** The section the scan reads at a marker is a tile that ends where the
      scan goes on. */
  lemma ScanHead(s: string, p: nat)
    requires MarkerAt(s, p)
    ensures TileAt(s, p, SectionAt(s, p))
    ensures p + TileLength(SectionAt(s, p)) == SectionEnd(s, p)
  {
    var j, e := ContentStart(s, p), SectionEnd(s, p);
    assert TagShape(s, p, s[p + 1..LabelEnd(s, p + 1)]);
    forall k | j <= k < e
      ensures !MarkerAt(s, k) && !EndAnchor(s, k)
    {
      assert !StopsAt(s, k, AnyMarker);
    }
  }

  /** A tile followed by a tiling is a tiling. */
  lemma TilesCons(s: string, p: nat, sec: Section, rest: seq<Section>)
    requires p + TileLength(sec) <= |s|
    ensures TileAt(s, p, sec) && Tiles(s, p + TileLength(sec), rest) ==> Tiles(s, p, [sec] + rest)
  {
    assert ([sec] + rest)[1..] == rest;
  }

  /** Positions that cannot start a marker are skipped. */
  lemma {:induction false} ScanSkips(s: string, i: nat)
    requires i <= |s|
    ensures Scan(s, i) == Scan(s, NextMarker(s, i))
    decreases |s| - i
  {
    if i < |s| && !MarkerAt(s, i) {
      assert Scan(s, i) == Scan(s, i + 1);
      ScanSkips(s, i + 1);
    }
  }

  /** At a marker, the scan's section followed by the tiling where the scan
      goes on is a tiling. */
  lemma ScanStep(s: string, p: nat)
    requires MarkerAt(s, p)
    ensures Tiles(s, SectionEnd(s, p), Scan(s, SectionEnd(s, p))) ==> Tiles(s, p, Scan(s, p))
  {
    ScanHead(s, p);
    TilesCons(s, p, SectionAt(s, p), Scan(s, SectionEnd(s, p)));
  }

  /** From a marker, or from where `$` matches, the scan reads a tiling. */
  lemma {:induction false} ScanTilesAt(s: string, p: nat)
    requires p <= |s| && (MarkerAt(s, p) || EndAnchor(s, p))
    ensures Tiles(s, p, Scan(s, p))
    decreases |s| - p
  {
    if !MarkerAt(s, p) {
      if p < |s| {
        assert Scan(s, p) == Scan(s, p + 1);
      }
    } else {
      ScanTilesAt(s, SectionEnd(s, p));
      ScanStep(s, p);
    }
  }

  /** The scan reads the text as the tiling that starts at the next marker. */
  lemma ScanTiles(s: string, i: nat)
    requires i <= |s|
    ensures Tiles(s, NextMarker(s, i), Scan(s, i))
  {
    ScanSkips(s, i);
    ScanTilesAt(s, NextMarker(s, i));
  }

  /** Where a tiling starts, a marker starts or `$` matches; a marker exactly
      when the tiling is not empty. */
  lemma TilesStart(s: string, p: nat, secs: seq<Section>)
    requires p <= |s|
    ensures Tiles(s, p, secs) ==> (MarkerAt(s, p) || EndAnchor(s, p)) && (secs != [] <==> MarkerAt(s, p))
  {
    if Tiles(s, p, secs) && secs != [] {
      TagShapeIsMarker(s, p, secs[0].title);
    }
  }

  /** A non-empty tiling is a tile, followed by a marker or `$` where the
      rest of the tiling starts. */
  lemma TilesUncons(s: string, p: nat, secs: seq<Section>)
    requires p <= |s| && secs != []
    ensures Tiles(s, p, secs) ==>
      var e := p + TileLength(secs[0]);
      e <= |s| && TileAt(s, p, secs[0]) && Tiles(s, e, secs[1..]) && (MarkerAt(s, e) || EndAnchor(s, e))
  {
    if Tiles(s, p, secs) {
      TilesStart(s, p + TileLength(secs[0]), secs[1..]);
    }
  }

  /** A tile followed by a marker or `$` is the section the scan reads there. */
  lemma TileIsScanned(s: string, p: nat, sec: Section)
    ensures TileAt(s, p, sec) && (MarkerAt(s, p + TileLength(sec)) || EndAnchor(s, p + TileLength(sec))) ==>
      MarkerAt(s, p) && sec == SectionAt(s, p) && SectionEnd(s, p) == p + TileLength(sec)
  {
    if TileAt(s, p, sec) && (MarkerAt(s, p + TileLength(sec)) || EndAnchor(s, p + TileLength(sec))) {
      TagShapeIsMarker(s, p, sec.title);
      var j, e := p + |sec.title| + 3, p + TileLength(sec);
      assert ContentStart(s, p) == j;
      forall k | j <= k < e
        ensures !StopsAt(s, k, AnyMarker) && !EndAnchor(s, k)
      {
      }
      ContentEndAt(s, j, e, AnyMarker);
    }
  }

  /** At a marker, the scan reads the section there, then goes on where its
      content ends. */
  lemma ScanAtMarker(s: string, p: nat, secs: seq<Section>)
    ensures MarkerAt(s, p) && secs != [] && secs[0] == SectionAt(s, p) && secs[1..] == Scan(s, SectionEnd(s, p))
      ==> secs == Scan(s, p)
  {
    if MarkerAt(s, p) && secs != [] && secs[0] == SectionAt(s, p) && secs[1..] == Scan(s, SectionEnd(s, p)) {
      assert secs == [secs[0]] + secs[1..];
    }
  }

  /** Every tiling is what the scan reads from where it starts. */
  lemma {:induction false} TilesAreScan(s: string, p: nat, secs: seq<Section>)
    requires p <= |s|
    ensures Tiles(s, p, secs) ==> secs == Scan(s, p)
    decreases |secs|
  {
    TilesStart(s, p, secs);
    if Tiles(s, p, secs) {
      if secs == [] {
        if p < |s| {
          assert Scan(s, p) == Scan(s, p + 1);
        }
      } else {
        TilesUncons(s, p, secs);
        TilesAreScan(s, p + TileLength(secs[0]), secs[1..]);
        TileIsScanned(s, p, secs[0]);
        ScanAtMarker(s, p, secs);
      }
    }
  }

  /** A text has only one tiling from a given position. */
  lemma TilesUnique(s: string, p: nat, a: seq<Section>, b: seq<Section>)
    requires p <= |s| && Tiles(s, p, a) && Tiles(s, p, b)
    ensures a == b
  {
    TilesAreScan(s, p, a);
    TilesAreScan(s, p, b);
  }

  /** `FindSections` returns exactly the tiling of the text that starts at its
      first marker: text before the first marker is dropped, each title is the
      marker's label, each content ends where the next marker starts (or at
      the end), and no content holds the start of a marker. */
  lemma FindSectionsIsTiling(s: string, secs: seq<Section>)
    ensures FindSections(s) == secs <==> Tiles(s, NextMarker(s, 0), secs)
  {
    var p := NextMarker(s, 0);
    var found := Scan(s, p);
    ScanSkips(s, 0);
    assert FindSections(s) == found;
    ScanTilesAt(s, p);
    TilesAreScan(s, p, secs);
  }

  /** A text without any marker yields no section, and a text with one yields
      at least one. */
  lemma {:induction false} NoMarkerNoSection(s: string)
    ensures FindSections(s) == [] <==> forall k :: 0 <= k < |s| ==> !MarkerAt(s, k)
  {
    ScanTiles(s, 0);
    TilesStart(s, NextMarker(s, 0), FindSections(s));
  }
}
