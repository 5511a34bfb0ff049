/** The keyword classifiers of the results page: `display_safety_info` picks
    the style of a safety field and `display_interaction_analysis` the badge
    of the interaction text, each by testing lower-cased substrings in a fixed
    if/elif order. The model returns the tag instead of drawing it; empty text
    gets no tag, because both functions return before drawing anything. */
module Classify {
  import opened Text
  import opened Wrappers

  /** `word in text.lower()`. */
  predicate Mentions(text: string, word: string)
  {
    Contains(Lower(text), word)
  }

  // ------------------------------------------------------------------ safety

  /** The four styles of a safety field: the green tick, the red cross, the
      warning sign, and the neutral information sign. */
  datatype SafetyTag = Safe | Danger | Warning | Info

  predicate SaysSafe(content: string)
  {
    Mentions(content, "safe") || Mentions(content, "no interaction")
  }

  predicate SaysDanger(content: string)
  {
    Mentions(content, "avoid") || Mentions(content, "contraindicated") || Mentions(content, "not recommended")
  }

  predicate SaysWarning(content: string)
  {
    Mentions(content, "caution") || Mentions(content, "monitor") || Mentions(content, "consult")
  }

  /** The tag `display_safety_info` gives a safety field; the first test that
      matches wins, so "safe" beats every danger word. */
  function SafetyLevel(content: string): Option<SafetyTag>
  {
    if content == [] then None
    else if SaysSafe(content) then Some(Safe)
    else if SaysDanger(content) then Some(Danger)
    else if SaysWarning(content) then Some(Warning)
    else Some(Info)
  }

  /** The position of a tag in the if/elif chain. */
  function SafetyRank(t: SafetyTag): nat
  {
    match t
    case Safe => 0
    case Danger => 1
    case Warning => 2
    case Info => 3
  }

  // ------------------------------------------------------------- interaction

  /** The four badges of the interaction card. */
  datatype InteractionTag = Severe | Moderate | Minor | Low

  /** The badge `display_interaction_analysis` shows for an interaction text. */
  function InteractionLevel(text: string): Option<InteractionTag>
  {
    if text == [] then None
    else if Mentions(text, "severe") || Mentions(text, "major") then Some(Severe)
    else if Mentions(text, "moderate") then Some(Moderate)
    else if Mentions(text, "minor") then Some(Minor)
    else Some(Low)
  }

  /** The position of a badge in the if/elif chain. */
  function InteractionRank(t: InteractionTag): nat
  {
    match t
    case Severe => 0
    case Moderate => 1
    case Minor => 2
    case Low => 3
  }
}

/** What the classifiers promise. */
module ClassifyFacts {
  import opened Text
  import opened Wrappers
  import opened Classify

  /** A word mentioned in either part is mentioned in the whole. */
  lemma MentionsAppend(a: string, b: string, word: string)
    ensures Mentions(a, word) || Mentions(b, word) ==> Mentions(a + b, word)
  {
    LowerAppend(a, b);
    if Mentions(a, word) {
      ContainsAppendRight(Lower(a), Lower(b), word);
    }
    if Mentions(b, word) {
      ContainsAppendLeft(Lower(a), Lower(b), word);
    }
  }

  /** Texts that agree once lower-cased mention the same words. */
  lemma MentionsIgnoresCase(a: string, b: string, word: string)
    requires Lower(a) == Lower(b)
    ensures Mentions(a, word) == Mentions(b, word)
  {
  }

  /** Exactly one tag for non-empty content, none for empty content. */
  lemma SafetyTagged(content: string)
    ensures SafetyLevel(content).Some? <==> content != []
  {
  }

  /** The classification ignores case: texts equal once lower-cased get the
      same tag. */
  lemma SafetyIgnoresCase(a: string, b: string)
    requires Lower(a) == Lower(b)
    ensures SafetyLevel(a) == SafetyLevel(b)
  {
    assert |a| == |Lower(a)| == |Lower(b)| == |b|;
  }

  /** Joining two fields never gives a tag later in the chain than either
      part's: a word found in a part is found in the whole, and the first
      test that matches wins. */
  lemma SafetyOfJoin(a: string, b: string)
    requires a != [] && b != []
    ensures SafetyRank(SafetyLevel(a + b).value) <= SafetyRank(SafetyLevel(a).value)
    ensures SafetyRank(SafetyLevel(a + b).value) <= SafetyRank(SafetyLevel(b).value)
  {
    MentionsAppend(a, b, "safe");
    MentionsAppend(a, b, "no interaction");
    MentionsAppend(a, b, "avoid");
    MentionsAppend(a, b, "contraindicated");
    MentionsAppend(a, b, "not recommended");
    MentionsAppend(a, b, "caution");
    MentionsAppend(a, b, "monitor");
    MentionsAppend(a, b, "consult");
  }

  /** Any field that says "safe" anywhere, even inside "unsafe" or after
      "avoid", is tagged Safe. */
  lemma SafeWins(content: string, i: nat)
    requires OccursAt(Lower(content), "safe", i)
    ensures SafetyLevel(content) == Some(Safe)
  {
    ContainsAt(Lower(content), "safe", i);
  }

  /** "Unsafe in pregnancy" gets the Safe tag: the substring test does not
      look at word boundaries. */
  lemma UnsafeIsTaggedSafe()
    ensures SafetyLevel("Unsafe in pregnancy") == Some(Safe)
  {
    var s := "Unsafe in pregnancy";
    assert Lower(s)[2..6] == "safe";
    SafeWins(s, 2);
  }

  /** A danger word with "safe" later in the field still gets the Safe tag. */
  lemma AvoidButSafeIsTaggedSafe()
    ensures SafetyLevel("Avoid alcohol; otherwise safe") == Some(Safe)
  {
    var s := "Avoid alcohol; otherwise safe";
    assert Lower(s)[25..29] == "safe";
    SafeWins(s, 25);
  }

  /** Exactly one badge for non-empty text, none for empty text. */
  lemma InteractionTagged(text: string)
    ensures InteractionLevel(text).Some? <==> text != []
  {
  }

  /** The badge ignores case. */
  lemma InteractionIgnoresCase(a: string, b: string)
    requires Lower(a) == Lower(b)
    ensures InteractionLevel(a) == InteractionLevel(b)
  {
    assert |a| == |Lower(a)| == |Lower(b)| == |b|;
  }

  /** Joining two texts never gives a badge later in the chain than either
      part's. */
  lemma InteractionOfJoin(a: string, b: string)
    requires a != [] && b != []
    ensures InteractionRank(InteractionLevel(a + b).value) <= InteractionRank(InteractionLevel(a).value)
    ensures InteractionRank(InteractionLevel(a + b).value) <= InteractionRank(InteractionLevel(b).value)
  {
    MentionsAppend(a, b, "severe");
    MentionsAppend(a, b, "major");
    MentionsAppend(a, b, "moderate");
    MentionsAppend(a, b, "minor");
  }

  /** "No major interactions expected" raises the severe badge: the word
      "major" is found and the negation is not read. */
  lemma NoMajorIsSevere()
    ensures InteractionLevel("No major interactions expected") == Some(Severe)
  {
    var s := "No major interactions expected";
    var lower := Lower(s);
    assert s[3] == 'm' && s[4] == 'a' && s[5] == 'j' && s[6] == 'o' && s[7] == 'r';
    assert lower[3..8] == "major";
    ContainsAt(lower, "major", 3);
  }
}
