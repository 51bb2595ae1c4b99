/** components/AnalysisDisplay.tsx: the report panel. The Markdown renderer is
    not modelled; what is modelled is the early return for a missing result and
    the keyword colouring of bold text. */
module AnalysisDisplay {
  import opened Types
  import opened JsString

  /** The colour a bold span is shown in. */
  datatype Tone = Green | Yellow | Red | Plain

  /** The keyword tests of the `strong` renderer, first match wins, case-sensitive. */
  function Classify(text: string): Tone {
    if Includes(text, "正味作業") || Includes(text, "Main Work") then Green
    else if Includes(text, "付随作業") || Includes(text, "Incidental") then Yellow
    else if Includes(text, "ムダ") || Includes(text, "Waste") then Red
    else Plain
  }

  /** A keyword occurs in `text`, by the index-based definition. */
  ghost predicate Mentions(text: string, keyword: string) {
    exists i :: OccursAt(text, keyword, i)
  }

  /** The classification in terms of occurrences: main-work vocabulary gives green;
      otherwise incidental-work vocabulary gives yellow; otherwise waste vocabulary
      gives red; text with none of them stays plain. */
  lemma ClassifyByOccurrence(text: string)
    ensures Classify(text) == Green <==> Mentions(text, "正味作業") || Mentions(text, "Main Work")
    ensures Classify(text) == Yellow <==>
      !(Mentions(text, "正味作業") || Mentions(text, "Main Work"))
      && (Mentions(text, "付随作業") || Mentions(text, "Incidental"))
    ensures Classify(text) == Red <==>
      !(Mentions(text, "正味作業") || Mentions(text, "Main Work"))
      && !(Mentions(text, "付随作業") || Mentions(text, "Incidental"))
      && (Mentions(text, "ムダ") || Mentions(text, "Waste"))
    ensures Classify(text) == Plain <==>
      !Mentions(text, "正味作業") && !Mentions(text, "Main Work")
      && !Mentions(text, "付随作業") && !Mentions(text, "Incidental")
      && !Mentions(text, "ムダ") && !Mentions(text, "Waste")
  {
    IncludesIffOccurs(text, "正味作業");
    IncludesIffOccurs(text, "Main Work");
    IncludesIffOccurs(text, "付随作業");
    IncludesIffOccurs(text, "Incidental");
    IncludesIffOccurs(text, "ムダ");
    IncludesIffOccurs(text, "Waste");
  }

  /** The first rule wins: any label mentioning main work is green, whatever
      incidental or waste terms it also mentions. */
  lemma FirstRuleWins(text: string)
    requires Mentions(text, "正味作業") || Mentions(text, "Main Work")
    ensures Classify(text) == Green
  {
    ClassifyByOccurrence(text);
  }

  /** An incidental-work label is yellow even if it also mentions waste, unless it
      mentions main work. */
  lemma SecondRuleBeatsThird(text: string)
    requires !Mentions(text, "正味作業") && !Mentions(text, "Main Work")
    requires Mentions(text, "付随作業") || Mentions(text, "Incidental")
    ensures Classify(text) == Yellow
  {
    ClassifyByOccurrence(text);
  }

  /** A label naming both main work and waste is green. */
  lemma FirstRuleWinsExample()
    ensures Classify("Main Work / Waste") == Green
  {
    assert StartsWith("Main Work / Waste", "Main Work");
  }

  /** Matching is case-sensitive: lower-case "waste" is not waste vocabulary. */
  lemma MatchingIsCaseSensitive()
    ensures Classify("waste") == Plain
  {
    var t := "waste";
    ClassifyByOccurrence(t);
    NoOccurrenceWithoutFirstChar(t, "正味作業");
    NoOccurrenceWithoutFirstChar(t, "Main Work");
    NoOccurrenceWithoutFirstChar(t, "付随作業");
    NoOccurrenceWithoutFirstChar(t, "Incidental");
    NoOccurrenceWithoutFirstChar(t, "ムダ");
    NoOccurrenceWithoutFirstChar(t, "Waste");
  }

  /** What the `strong` renderer returns: a coloured badge or plain bold text,
      wrapping the children unchanged either way. */
  datatype Strong = Badge(tone: Tone, children: string) | Bold(children: string)

  /** The `strong` renderer. */
  function RenderStrong(text: string): (e: Strong)
    ensures e.children == text
    ensures e.Bold? <==> Classify(text) == Plain
    ensures e.Badge? ==> e.tone == Classify(text) && e.tone != Plain
  {
    var tone := Classify(text);
    if tone == Plain then Bold(text) else Badge(tone, text)
  }

  /** The panel: nothing without a result; otherwise the report text, handed to
      the Markdown renderer as it is. */
  function Display(result: Option<AnalysisResult>): (shown: Option<string>)
    ensures shown.None? <==> result.None?
    ensures result.Some? ==> shown == Some(result.value.markdown)
  {
    match result
    case None => None
    case Some(r) => Some(r.markdown)
  }
}
