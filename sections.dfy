/** The sections `create_pdf` finds in an analysis text: `re.findall` with the
    pattern `\*([\w\s]+):\*(.*?)(?=\*[\w\s]+:\*|$)` under DOTALL. Every generic
    marker opens a section titled by its label; the content runs lazily up to
    the next generic marker or to where `$` matches; the search goes on where
    the content ended. Text before the first marker is never read. */
module Sections {
  import opened Markers

  /** One `(title, content)` pair of `re.findall`, before any stripping. */
  datatype Section = Section(title: string, content: string)

  /** The first generic marker at or after `i`, or the end of the text. */
  function NextMarker(s: string, i: nat): (p: nat)
    requires i <= |s|
    ensures i <= p <= |s|
    ensures p < |s| ==> MarkerAt(s, p)
    ensures forall k :: i <= k < p ==> !MarkerAt(s, k)
    decreases |s| - i
  {
    if i == |s| || MarkerAt(s, i) then i else NextMarker(s, i + 1)
  }

  /** Where the content of the section opened by the marker at `p` starts:
      just after the `:*` that closes its label. */
  function ContentStart(s: string, p: nat): (j: nat)
    requires MarkerAt(s, p)
    ensures p + 3 < j <= |s|
  {
    LabelEnd(s, p + 1) + 2
  }

  /** Where that content ends: the first generic marker or `$` after it. */
  function SectionEnd(s: string, p: nat): (e: nat)
    requires MarkerAt(s, p)
    ensures ContentStart(s, p) <= e <= |s|
    ensures MarkerAt(s, e) || EndAnchor(s, e)
  {
    ContentEnd(s, ContentStart(s, p), AnyMarker)
  }

  /** The lazy content stops at the first place it can: between its start
      and its end there is neither a generic marker nor a place where `$`
      matches. */
  lemma SectionEndIsFirst(s: string, p: nat)
    requires MarkerAt(s, p)
    ensures forall k :: ContentStart(s, p) <= k < SectionEnd(s, p) ==> !MarkerAt(s, k) && !EndAnchor(s, k)
  {
    var j, e := ContentStart(s, p), SectionEnd(s, p);
    forall k | j <= k < e
      ensures !MarkerAt(s, k) && !EndAnchor(s, k)
    {
      assert !StopsAt(s, k, AnyMarker);
    }
  }

  /** The section the marker at `p` opens. */
  function SectionAt(s: string, p: nat): Section
    requires MarkerAt(s, p)
  {
    Section(s[p + 1..LabelEnd(s, p + 1)], s[ContentStart(s, p)..SectionEnd(s, p)])
  }

  /** `re.findall` from position `i`: try a match at each position; after a
      match, go on where it ended. */
  function Scan(s: string, i: nat): seq<Section>
    requires i <= |s|
    decreases |s| - i
  {
    if i == |s| then []
    else if MarkerAt(s, i) then [SectionAt(s, i)] + Scan(s, SectionEnd(s, i))
    else Scan(s, i + 1)
  }

  /** The sections `create_pdf` finds in an analysis text. */
  function FindSections(s: string): seq<Section>
  {
    Scan(s, 0)
  }
}
