/** The per-label searches of `main`: `re.search` for the tag of one known
    label, case-insensitively, its content running up to a boundary. The
    composition lookup stops at any generic marker; the result cards stop
    only at the tag of one of the known labels. */
module Search {
  import opened Text
  import opened Wrappers
  import opened Markers

  /** The first position at or after `i` where `*label:*` occurs: where
      `re.search` reports the match. */
  function FirstTag(s: string, key: string, i: nat): (r: Option<nat>)
    requires i <= |s|
    ensures r.Some? ==> i <= r.value && TagAt(s, r.value, key)
    ensures r.Some? ==> forall k :: i <= k < r.value ==> !TagAt(s, k, key)
    ensures r.None? ==> forall k :: i <= k ==> !TagAt(s, k, key)
    decreases |s| - i
  {
    if i == |s| then None
    else if TagAt(s, i, key) then Some(i)
    else FirstTag(s, key, i + 1)
  }

  /** `group(1)` of the search for `label`: the content after its first tag,
      up to the boundary; `None` when the label does not occur. */
  function RawContent(s: string, key: string, b: Boundary): (r: Option<string>)
    ensures r.None? <==> forall k :: 0 <= k ==> !TagAt(s, k, key)
  {
    match FirstTag(s, key, 0)
    case None => None
    case Some(p) =>
      var start := p + |key| + 3;
      Some(s[start..ContentEnd(s, start, b)])
  }

  /** `match.group(1).strip()` when the search succeeds. */
  function SearchSection(s: string, key: string, b: Boundary): (r: Option<string>)
    ensures r.None? <==> forall k :: 0 <= k ==> !TagAt(s, k, key)
  {
    match RawContent(s, key, b)
    case None => None
    case Some(c) => Some(Strip(c))
  }

  /** What a successful search returns: the stripped text between the end of
      the FIRST tag of the label and the first boundary or `$` after it. */
  lemma SearchSectionContent(s: string, key: string, b: Boundary)
    requires SearchSection(s, key, b).Some?
    ensures FirstTag(s, key, 0).Some?
    ensures var p := FirstTag(s, key, 0).value; var start := p + |key| + 3;
      var e := ContentEnd(s, start, b);
      SearchSection(s, key, b) == Some(Strip(s[start..e]))
      && (forall k :: start <= k < e ==> !StopsAt(s, k, b))
      && (StopsAt(s, e, b) || EndAnchor(s, e))
  {
  }

  /** The composition lookup of `main` (ml.py:740): the first `*Composition:*`
      tag, its content ending at any generic marker. */
  function CompositionOf(s: string): Option<string>
  {
    SearchSection(s, "Composition", AnyMarker)
  }

  /** A content bounded by the tags of plain labels extends at least as far as
      one bounded by any generic marker. */
  lemma GenericStopsFirst(s: string, j: nat, keys: seq<string>)
    requires j <= |s|
    requires forall i :: 0 <= i < |keys| ==> PlainLabel(keys[i])
    ensures ContentEnd(s, j, AnyMarker) <= ContentEnd(s, j, AnyOf(keys))
  {
    var e := ContentEnd(s, j, AnyOf(keys));
    if StopsAt(s, e, AnyOf(keys)) {
      var i :| 0 <= i < |keys| && TagAt(s, e, keys[i]);
      TagIsMarker(s, e, keys[i]);
    }
  }

  /** For the same label, the content found with the generic boundary is a
      prefix of the content found with a list of plain labels: an unknown
      marker such as `*Notes:*` ends the former but not the latter. */
  lemma GenericContentIsPrefix(s: string, key: string, keys: seq<string>)
    requires forall i :: 0 <= i < |keys| ==> PlainLabel(keys[i])
    ensures RawContent(s, key, AnyMarker).Some? <==> RawContent(s, key, AnyOf(keys)).Some?
    ensures RawContent(s, key, AnyMarker).Some? ==>
      RawContent(s, key, AnyMarker).value <= RawContent(s, key, AnyOf(keys)).value
  {
    if FirstTag(s, key, 0).Some? {
      var start := FirstTag(s, key, 0).value + |key| + 3;
      GenericStopsFirst(s, start, keys);
    }
  }
}
