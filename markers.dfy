/** The `*Label:*` markers of an analysis text, as the regular expressions of
    `ml.py` see them: the generic marker `\*[\w\s]+:\*` of `create_pdf`, the
    tag of one known label matched ignoring case, the lazy content that runs
    up to the next marker, and where `$` matches. */
module Markers {
  import opened Text

  /** The regex class `[\w\s]` of a generic marker's label. */
  predicate IsLabelChar(c: char)
  {
    IsWordChar(c) || IsSpace(c)
  }

  /** A label a generic marker can carry: `[\w\s]+`. */
  predicate IsLabel(t: string)
  {
    t != [] && forall k {:trigger IsLabelChar(t[k])} :: 0 <= k < |t| ==> IsLabelChar(t[k])
  }

  /** The end of the run of label characters that starts at `i`. */
  function LabelEnd(s: string, i: nat): (q: nat)
    requires i <= |s|
    ensures i <= q <= |s|
    ensures forall k {:trigger IsLabelChar(s[k])} :: i <= k < q ==> IsLabelChar(s[k])
    ensures q < |s| ==> !IsLabelChar(s[q])
    decreases |s| - i
  {
    if i < |s| && IsLabelChar(s[i]) then LabelEnd(s, i + 1) else i
  }

  /** The generic marker `\*[\w\s]+:\*` matches at `p`. Since neither `:` nor
      `*` is a label character, the label is the whole run after the `*`. */
  predicate MarkerAt(s: string, p: int)
  {
    0 <= p < |s| && s[p] == '*'
    && var q := LabelEnd(s, p + 1);
    p + 1 < q && q + 1 < |s| && s[q] == ':' && s[q + 1] == '*'
  }

  /** Where `$` matches without the MULTILINE flag: at the end of the text, or
      just before a newline that ends it. */
  predicate EndAnchor(s: string, e: int)
  {
    e == |s| || (0 <= e == |s| - 1 && s[e] == '\n')
  }

  /** The tag `*label:*` occurs at `p`, the label compared ignoring ASCII case
      (the IGNORECASE flag). */
  predicate TagAt(s: string, p: int, key: string)
  {
    0 <= p && p + |key| + 3 <= |s| && s[p] == '*'
    && Lower(s[p + 1..p + 1 + |key|]) == Lower(key)
    && s[p + 1 + |key|] == ':' && s[p + 2 + |key|] == '*'
  }

  /** What ends a section's content, besides `$`: any generic marker
      (`(?=\*[\w\s]+:\*|$)`), or the tag of one of a fixed list of labels
      (`(?=\*(?:L1|L2|...):\*|$)`). */
  datatype Boundary = AnyMarker | AnyOf(keys: seq<string>)

  predicate StopsAt(s: string, e: int, b: Boundary)
  {
    match b
    case AnyMarker => MarkerAt(s, e)
    case AnyOf(keys) => exists i :: 0 <= i < |keys| && TagAt(s, e, keys[i])
  }

  /** The lazy `(.*?)` followed by the look-ahead: the first position at or
      after `j` where the boundary or `$` matches. */
  function ContentEnd(s: string, j: nat, b: Boundary): (e: nat)
    requires j <= |s|
    ensures j <= e <= |s|
    ensures StopsAt(s, e, b) || EndAnchor(s, e)
    ensures forall k :: j <= k < e ==> !StopsAt(s, k, b) && !EndAnchor(s, k)
    decreases |s| - j
  {
    if j == |s| || StopsAt(s, j, b) || EndAnchor(s, j) then j else ContentEnd(s, j + 1, b)
  }

  /** The first stop at or after `j` is where `ContentEnd` lands. */
  lemma ContentEndAt(s: string, j: nat, e: nat, b: Boundary)
    requires j <= e <= |s|
    requires forall k :: j <= k < e ==> !StopsAt(s, k, b) && !EndAnchor(s, k)
    requires StopsAt(s, e, b) || EndAnchor(s, e)
    ensures ContentEnd(s, j, b) == e
  {
  }

  /** A label run followed by `:*` is exactly the run `LabelEnd` finds. */
  lemma LabelEndAt(s: string, i: nat, q: nat)
    requires i <= q < |s|
    requires forall k :: i <= k < q ==> IsLabelChar(s[k])
    requires !IsLabelChar(s[q])
    ensures LabelEnd(s, i) == q
  {
  }

  /** A label made of ASCII letters and spaces, as all the labels `main` looks
      for are. */
  predicate PlainLabel(key: string)
  {
    key != [] && forall k :: 0 <= k < |key| ==> ('a' <= key[k] <= 'z' || 'A' <= key[k] <= 'Z' || key[k] == ' ')
  }

  /** The tag of a plain label, in any case, is also a generic marker. */
  lemma TagIsMarker(s: string, p: int, key: string)
    requires PlainLabel(key) && TagAt(s, p, key)
    ensures MarkerAt(s, p)
  {
    var q := p + 1 + |key|;
    forall k | p + 1 <= k < q
      ensures IsLabelChar(s[k])
    {
      var c, l := s[k], key[k - p - 1];
      assert Lower(s[p + 1..q])[k - p - 1] == LowerChar(c);
      assert LowerChar(c) == LowerChar(l);
      if l == ' ' {
        assert c == ' ';
      }
    }
    assert !IsLabelChar(':');
    LabelEndAt(s, p + 1, q);
  }
}
