/** The Python string operations the report pipeline of `ml.py` is built from:
    the whitespace and word classes of its regular expressions, `str.strip()`,
    `str.lower()`, the substring test `needle in haystack`, `str.split(sep)`,
    `str.replace(old, new)` with a one-character `old`, and the markup escaping
    that `create_pdf` applies to paragraph text. */
module Text {

  /** Python's whitespace: the characters for which `str.isspace()` holds,
      which are those the regex class `\s` matches and `str.strip()` removes. */
  const Whitespace: set<char> := {
      '\t', '\n', '\U{B}', '\U{C}', '\r', '\U{1C}', '\U{1D}', '\U{1E}',
      '\U{1F}', ' ', '\U{85}', '\U{A0}', '\U{1680}', '\U{2000}', '\U{2001}', '\U{2002}',
      '\U{2003}', '\U{2004}', '\U{2005}', '\U{2006}', '\U{2007}', '\U{2008}', '\U{2009}', '\U{200A}',
      '\U{2028}', '\U{2029}', '\U{202F}', '\U{205F}', '\U{3000}'
    }

  predicate IsSpace(c: char)
  {
    c in Whitespace
  }

  /** The regex class `\w`, restricted to ASCII letters, digits and underscore. */
  predicate IsWordChar(c: char)
  {
    ('a' <= c <= 'z') || ('A' <= c <= 'Z') || ('0' <= c <= '9') || c == '_'
  }

  // ---------------------------------------------------------------- lower case

  /** ASCII case folding of one character. */
  function LowerChar(c: char): (r: char)
    ensures !('A' <= r <= 'Z')
    ensures r != c ==> 'A' <= c <= 'Z' && 'a' <= r <= 'z'
  {
    if 'A' <= c <= 'Z' then (c as int + 32) as char else c
  }

  /** `s.lower()`, for the ASCII letters. */
  function Lower(s: string): (r: string)
    ensures |r| == |s|
    ensures forall i :: 0 <= i < |s| ==> r[i] == LowerChar(s[i])
  {
    seq(|s|, i requires 0 <= i < |s| => LowerChar(s[i]))
  }

  lemma LowerAppend(a: string, b: string)
    ensures Lower(a + b) == Lower(a) + Lower(b)
  {
    assert Lower(a + b) == Lower(a) + Lower(b);
  }

  /** Folding twice is folding once. */
  lemma LowerIdempotent(s: string)
    ensures Lower(Lower(s)) == Lower(s)
  {
  }

  // ------------------------------------------------------------- substrings

  /** Python's `k in s` for two strings: `k` occurs in `s` at some position. */
  predicate Contains(s: string, k: string)
    decreases |s|
  {
    k <= s || (|s| > 0 && Contains(s[1..], k))
  }

  /** `k` stands in `s` at position `i`. */
  predicate OccursAt(s: string, k: string, i: nat)
  {
    i + |k| <= |s| && s[i..i + |k|] == k
  }

  /** An occurrence at any position is found by `Contains`. */
  lemma {:induction false} ContainsAt(s: string, k: string, i: nat)
    requires OccursAt(s, k, i)
    ensures Contains(s, k)
    decreases i
  {
    if i == 0 {
      assert s[..|k|] == k;
    } else {
      assert s[1..][i - 1..i - 1 + |k|] == s[i..i + |k|];
      ContainsAt(s[1..], k, i - 1);
    }
  }

  /** `Contains` finds an actual occurrence. */
  lemma {:induction false} ContainsWitness(s: string, k: string) returns (i: nat)
    requires Contains(s, k)
    ensures OccursAt(s, k, i)
    decreases |s|
  {
    if k <= s {
      i := 0;
      assert s[..|k|] == k;
    } else {
      var j := ContainsWitness(s[1..], k);
      i := j + 1;
      assert s[1..][j..j + |k|] == s[i..i + |k|];
    }
  }

  /** `k` occurs in `s` exactly when some slice of `s` is `k`. */
  lemma ContainsIsSlice(s: string, k: string)
    ensures Contains(s, k) <==> exists i: nat :: OccursAt(s, k, i)
  {
    if Contains(s, k) {
      var i := ContainsWitness(s, k);
    }
    if exists i: nat :: OccursAt(s, k, i) {
      var i: nat :| OccursAt(s, k, i);
      ContainsAt(s, k, i);
    }
  }

  /** Text added after a match never removes it. */
  lemma {:induction false} ContainsAppendRight(a: string, b: string, k: string)
    requires Contains(a, k)
    ensures Contains(a + b, k)
    decreases |a|
  {
    if k <= a {
      assert (a + b)[..|k|] == a[..|k|];
    } else {
      ContainsAppendRight(a[1..], b, k);
      assert (a + b)[1..] == a[1..] + b;
    }
  }

  /** Text added before a match never removes it. */
  lemma {:induction false} ContainsAppendLeft(a: string, b: string, k: string)
    requires Contains(b, k)
    ensures Contains(a + b, k)
    decreases |a|
  {
    if a == [] {
      assert a + b == b;
    } else {
      ContainsAppendLeft(a[1..], b, k);
      assert (a + b)[1..] == a[1..] + b;
    }
  }

  // ------------------------------------------------------------------ strip

  /** The first index at or after `i` that does not hold whitespace. */
  function SkipSpaces(s: string, i: nat): (j: nat)
    requires i <= |s|
    ensures i <= j <= |s|
    ensures forall k :: i <= k < j ==> IsSpace(s[k])
    ensures j < |s| ==> !IsSpace(s[j])
    decreases |s| - i
  {
    if i < |s| && IsSpace(s[i]) then SkipSpaces(s, i + 1) else i
  }

  /** The end of `s[lo..j]` once the whitespace at its end is dropped. */
  function DropTrailingSpaces(s: string, lo: nat, j: nat): (e: nat)
    requires lo <= j <= |s|
    ensures lo <= e <= j
    ensures forall k :: e <= k < j ==> IsSpace(s[k])
    ensures e > lo ==> !IsSpace(s[e - 1])
    decreases j - lo
  {
    if j > lo && IsSpace(s[j - 1]) then DropTrailingSpaces(s, lo, j - 1) else j
  }

  /** Python's `s.strip()`: the slice of `s` left once the whitespace at both
      ends is removed. */
  function Strip(s: string): string
  {
    var i := SkipSpaces(s, 0);
    s[i..DropTrailingSpaces(s, i, |s|)]
  }

  /** The stripped text neither starts nor ends with whitespace, and it is
      empty exactly when the text is all whitespace. */
  lemma StripEnds(s: string)
    ensures var r := Strip(s); r == [] || (!IsSpace(r[0]) && !IsSpace(r[|r| - 1]))
    ensures Strip(s) == [] <==> forall k :: 0 <= k < |s| ==> IsSpace(s[k])
  {
  }

  /** Everything `Strip` removes is whitespace, taken from the two ends. */
  lemma StripIsTrimmedSlice(s: string)
    ensures var i := SkipSpaces(s, 0); var j := DropTrailingSpaces(s, i, |s|);
      Strip(s) == s[i..j]
      && (forall k :: 0 <= k < i ==> IsSpace(s[k]))
      && (forall k :: j <= k < |s| ==> IsSpace(s[k]))
  {
  }

  /** `Strip` is characterised by its result: whatever whitespace surrounds a
      text that neither starts nor ends with whitespace is removed. */
  lemma StripUnique(a: string, r: string, b: string)
    requires forall k :: 0 <= k < |a| ==> IsSpace(a[k])
    requires forall k :: 0 <= k < |b| ==> IsSpace(b[k])
    requires r == [] || (!IsSpace(r[0]) && !IsSpace(r[|r| - 1]))
    ensures Strip(a + r + b) == r
  {
    var s := a + r + b;
    if r == [] {
      assert forall k :: 0 <= k < |s| ==> IsSpace(s[k]) by {
        forall k | 0 <= k < |s| ensures IsSpace(s[k]) {
          if k < |a| { assert s[k] == a[k]; } else { assert s[k] == b[k - |a|]; }
        }
      }
    } else {
      var i := SkipSpaces(s, 0);
      assert s[|a|] == r[0];
      assert i == |a|;
      var j := DropTrailingSpaces(s, i, |s|);
      assert s[|a| + |r| - 1] == r[|r| - 1];
      assert j == |a| + |r|;
      assert s[i..j] == r;
    }
  }

  lemma {:induction false} SkipSpacesShift(c: char, x: string, k: nat)
    requires k <= |x|
    ensures SkipSpaces([c] + x, k + 1) == 1 + SkipSpaces(x, k)
    decreases |x| - k
  {
    if k < |x| {
      assert ([c] + x)[k + 1] == x[k];
      if IsSpace(x[k]) {
        SkipSpacesShift(c, x, k + 1);
      }
    }
  }

  lemma {:induction false} DropTrailingSpacesShift(c: char, x: string, lo: nat, j: nat)
    requires lo <= j <= |x|
    ensures DropTrailingSpaces([c] + x, lo + 1, j + 1) == 1 + DropTrailingSpaces(x, lo, j)
    decreases j - lo
  {
    if j > lo {
      assert ([c] + x)[j] == x[j - 1];
      if IsSpace(x[j - 1]) {
        DropTrailingSpacesShift(c, x, lo, j - 1);
      }
    }
  }

  /** Whitespace in front of a string does not change its stripped form. */
  lemma StripSpacePrefix(c: char, x: string)
    requires IsSpace(c)
    ensures Strip([c] + x) == Strip(x)
  {
    var i := SkipSpaces(x, 0);
    var j := DropTrailingSpaces(x, i, |x|);
    var t := [c] + x;
    assert SkipSpaces(t, 0) == i + 1 by {
      SkipSpacesShift(c, x, 0);
      assert t[0] == c;
    }
    assert DropTrailingSpaces(t, i + 1, |t|) == j + 1 by {
      DropTrailingSpacesShift(c, x, i, |x|);
    }
    assert Strip(t) == t[i + 1..j + 1];
    assert t[i + 1..j + 1] == x[i..j];
  }

  /** Stripping twice is stripping once. */
  lemma StripIdempotent(s: string)
    ensures Strip(Strip(s)) == Strip(s)
  {
    StripEnds(s);
    StripUnique([], Strip(s), []);
    assert [] + Strip(s) + [] == Strip(s);
  }

  /** Stripping keeps only characters of the text. */
  lemma StripChars(s: string)
    ensures forall x :: x in Strip(s) ==> x in s
  {
    StripIsTrimmedSlice(s);
  }

  // ------------------------------------------------------------------ split

  /** The number of characters of `s` that belong to `seps`. */
  function CountIn(s: string, seps: set<char>): nat
    decreases |s|
  {
    if s == [] then 0 else (if s[0] in seps then 1 else 0) + CountIn(s[1..], seps)
  }

  /** The pieces of `s` between the characters of `seps`. With `seps == {d}`
      this is Python's `s.split(d)`: one more piece than there are separators,
      and no piece holds a separator. */
  function Split(s: string, seps: set<char>): seq<string>
    decreases |s|
  {
    if s == [] then [""]
    else
      var rest := Split(s[1..], seps);
      if s[0] in seps then [""] + rest
      else [[s[0]] + rest[0]] + rest[1..]
  }

  /** There is one more piece than there are separators, and no piece holds
      a separator. */
  lemma {:induction false} SplitShape(s: string, seps: set<char>)
    ensures var parts := Split(s, seps);
      |parts| == 1 + CountIn(s, seps)
      && forall k, j :: 0 <= k < |parts| && 0 <= j < |parts[k]| ==> parts[k][j] !in seps
    decreases |s|
  {
    if s != [] {
      SplitShape(s[1..], seps);
    }
  }

  /** `d.join(parts)`. */
  function Join(parts: seq<string>, d: char): string
    requires |parts| >= 1
    decreases |parts|
  {
    if |parts| == 1 then parts[0] else parts[0] + [d] + Join(parts[1..], d)
  }

  /** A separator-free prefix stays glued to the first piece of what follows it. */
  lemma {:induction false} SplitPrefix(w: string, t: string, seps: set<char>)
    requires forall j :: 0 <= j < |w| ==> w[j] !in seps
    ensures Split(w + t, seps) == [w + Split(t, seps)[0]] + Split(t, seps)[1..]
    decreases |w|
  {
    if w == [] {
      var p := Split(t, seps);
      assert w + t == t;
      assert w + p[0] == p[0];
      assert [p[0]] + p[1..] == p;
    } else {
      SplitPrefix(w[1..], t, seps);
      assert (w + t)[1..] == w[1..] + t;
      assert [w[0]] + (w[1..] + Split(t, seps)[0]) == w + Split(t, seps)[0];
    }
  }

  /** A separator followed by text: an empty piece, then the pieces of the text. */
  lemma SplitAfterSeparator(d: char, t: string, seps: set<char>)
    requires d in seps
    ensures Split([d] + t, seps) == [""] + Split(t, seps)
  {
    assert ([d] + t)[1..] == t;
  }

  /** Every character of every piece is a character of the text. */
  lemma {:induction false} SplitChars(s: string, seps: set<char>)
    ensures forall k, x :: 0 <= k < |Split(s, seps)| && x in Split(s, seps)[k] ==> x in s
    decreases |s|
  {
    if s != [] {
      SplitChars(s[1..], seps);
      var rest := Split(s[1..], seps);
      forall k, x | 0 <= k < |Split(s, seps)| && x in Split(s, seps)[k]
        ensures x in s
      {
        assert s == [s[0]] + s[1..];
        if s[0] !in seps && k == 0 {
          assert Split(s, seps)[0] == [s[0]] + rest[0];
        } else if s[0] !in seps {
          assert Split(s, seps)[k] == rest[k];
        } else if k > 0 {
          assert Split(s, seps)[k] == rest[k - 1];
        }
      }
    }
  }

  /** Joining the pieces with the separator gives back the text. */
  lemma {:induction false} JoinSplit(s: string, d: char)
    ensures Join(Split(s, {d}), d) == s
    decreases |s|
  {
    if s != [] {
      var rest := Split(s[1..], {d});
      JoinSplit(s[1..], d);
      if s[0] == d {
        assert s == [d] + s[1..];
      } else if |rest| == 1 {
        assert s == [s[0]] + s[1..];
      } else {
        assert Split(s, {d})[1..] == rest[1..];
        assert s == [s[0]] + s[1..];
      }
    }
  }

  /** Splitting a join of separator-free pieces gives back the pieces. */
  lemma {:induction false} SplitJoin(parts: seq<string>, d: char)
    requires |parts| >= 1
    requires forall k :: 0 <= k < |parts| ==> d !in parts[k]
    ensures Split(Join(parts, d), {d}) == parts
    decreases |parts|
  {
    if |parts| == 1 {
      SplitPrefix(parts[0], "", {d});
      assert parts[0] + "" == parts[0];
    } else {
      var tail := Join(parts[1..], d);
      SplitJoin(parts[1..], d);
      SplitPrefix(parts[0], [d] + tail, {d});
      SplitAfterSeparator(d, tail, {d});
      assert Join(parts, d) == parts[0] + ([d] + tail);
      assert parts[0] + "" == parts[0];
      assert parts == [parts[0]] + parts[1..];
    }
  }

  // ---------------------------------------------------------------- replace

  /** Python's `s.replace(c, rep)` for a one-character `c`. */
  function ReplaceChar(s: string, c: char, rep: string): string
    decreases |s|
  {
    if s == [] then []
    else (if s[0] == c then rep else [s[0]]) + ReplaceChar(s[1..], c, rep)
  }

  /** Every character of the result comes from `rep` or is a character of
      `s` other than `c`; without `c` in `s` nothing changes. */
  lemma {:induction false} ReplaceCharContents(s: string, c: char, rep: string)
    ensures forall x :: x in ReplaceChar(s, c, rep) ==> x in rep || (x in s && x != c)
    ensures c !in s ==> ReplaceChar(s, c, rep) == s
    decreases |s|
  {
    if s != [] {
      ReplaceCharContents(s[1..], c, rep);
      var head := if s[0] == c then rep else [s[0]];
      var tail := ReplaceChar(s[1..], c, rep);
      assert ReplaceChar(s, c, rep) == head + tail;
      forall x | x in head + tail
        ensures x in rep || (x in s && x != c)
      {
        if x in tail {
          assert x in s[1..] ==> x in s;
        }
      }
      if c !in s {
        assert s == [s[0]] + s[1..];
      }
    }
  }

  lemma {:induction false} ReplaceAppend(a: string, b: string, c: char, rep: string)
    ensures ReplaceChar(a + b, c, rep) == ReplaceChar(a, c, rep) + ReplaceChar(b, c, rep)
    decreases |a|
  {
    if a == [] {
      assert a + b == b;
    } else {
      var head := if a[0] == c then rep else [a[0]];
      ReplaceAppend(a[1..], b, c, rep);
      assert (a + b)[0] == a[0];
      assert (a + b)[1..] == a[1..] + b;
      assert ReplaceChar(a + b, c, rep) == head + ReplaceChar(a[1..] + b, c, rep);
      assert ReplaceChar(a, c, rep) == head + ReplaceChar(a[1..], c, rep);
    }
  }

  // --------------------------------------------------------------- escaping

  /** The escaping applied to paragraph text in `create_pdf`:
      `.replace('<', '&lt;').replace('>', '&gt;')`; no angle bracket survives. */
  function Escape(s: string): string
  {
    ReplaceChar(ReplaceChar(s, '<', "&lt;"), '>', "&gt;")
  }

  /** No angle bracket survives the escaping. */
  lemma EscapeNoBrackets(s: string)
    ensures '<' !in Escape(s) && '>' !in Escape(s)
  {
    var once := ReplaceChar(s, '<', "&lt;");
    ReplaceCharContents(s, '<', "&lt;");
    ReplaceCharContents(once, '>', "&gt;");
    assert '<' !in "&gt;" && '>' !in "&gt;";
  }

  /** The escape of one character. */
  function EscapeOne(c: char): string
  {
    if c == '<' then "&lt;" else if c == '>' then "&gt;" else [c]
  }

  /** The reference meaning of the escaping: each character on its own. */
  function EscapeEach(s: string): string
    decreases |s|
  {
    if s == [] then [] else EscapeOne(s[0]) + EscapeEach(s[1..])
  }

  /** The two chained replacements escape character by character: `<` and `>`
      become entities and every other character, `&` and quotes included, is
      kept as it is. */
  lemma {:induction false} EscapeIsCharwise(s: string)
    ensures Escape(s) == EscapeEach(s)
    decreases |s|
  {
    if s != [] {
      EscapeIsCharwise(s[1..]);
      var head := if s[0] == '<' then "&lt;" else [s[0]];
      var once := ReplaceChar(s[1..], '<', "&lt;");
      assert ReplaceChar(s, '<', "&lt;") == head + once;
      ReplaceAppend(head, once, '>', "&gt;");
      if s[0] == '<' {
        assert ReplaceChar(head, '>', "&gt;") == "&lt;";
      } else if s[0] == '>' {
        assert ReplaceChar(head, '>', "&gt;") == "&gt;" + ReplaceChar([], '>', "&gt;");
      } else {
        assert ReplaceChar(head, '>', "&gt;") == [s[0]] + ReplaceChar([], '>', "&gt;");
      }
    }
  }

  /** Text without angle brackets passes through the escaping unchanged. */
  lemma EscapeNoMarkup(s: string)
    requires '<' !in s && '>' !in s
    ensures Escape(s) == s
  {
    ReplaceCharContents(s, '<', "&lt;");
    ReplaceCharContents(s, '>', "&gt;");
  }

  /** How a Paragraph reads the two entities back. */
  function Unescape(s: string): string
    decreases |s|
  {
    if s == [] then []
    else if "&lt;" <= s then "<" + Unescape(s[4..])
    else if "&gt;" <= s then ">" + Unescape(s[4..])
    else [s[0]] + Unescape(s[1..])
  }

  /** Text without `&` is read back exactly as it was before escaping. */
  lemma {:induction false} UnescapeEscape(s: string)
    requires '&' !in s
    ensures Unescape(Escape(s)) == s
    decreases |s|
  {
    EscapeIsCharwise(s);
    if s != [] {
      UnescapeEscape(s[1..]);
      EscapeIsCharwise(s[1..]);
      var rest := EscapeEach(s[1..]);
      assert EscapeEach(s) == EscapeOne(s[0]) + rest;
      UnescapeOne(s[0], rest);
      assert s == [s[0]] + s[1..];
    }
  }

  /** Reading back one escaped character followed by the rest. */
  lemma UnescapeOne(c: char, rest: string)
    requires c != '&'
    ensures Unescape(EscapeOne(c) + rest) == [c] + Unescape(rest)
  {
    var t := EscapeOne(c) + rest;
    if c == '<' {
      assert "&lt;" <= t;
      assert t[4..] == rest;
    } else if c == '>' {
      assert t[1] == 'g';
      assert "&gt;" <= t;
      assert t[4..] == rest;
    } else {
      assert t[0] == c;
      assert t[1..] == rest;
    }
  }

  /** `&` is not escaped, so a literal entity and the character it names
      escape to the same paragraph text. */
  lemma EscapeAmbiguous()
    ensures Escape("&lt;") == Escape("<")
  {
    EscapeIsCharwise("&lt;");
    EscapeIsCharwise("<");
    assert EscapeEach("&lt;") == "&" + EscapeEach("lt;");
    assert EscapeEach("lt;") == "l" + EscapeEach("t;");
    assert EscapeEach("t;") == "t" + EscapeEach(";");
    assert EscapeEach(";") == ";" + EscapeEach("");
    assert EscapeEach("<") == "&lt;" + EscapeEach("");
  }
}
