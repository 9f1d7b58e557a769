/**
 * The real-time text analyzer: a tone label from keyword tests on the
 * lower-cased text, and an ordered list of up to four writing suggestions
 * gated by length, word-count and keyword thresholds.
 *
 * `ToneOf` and `Suggestions` specify the analysis; the method `Analyze`
 * follows the effect that computes it step by step (the tone variable
 * reassigned by two tests, the list grown by successive pushes) and is
 * proved to agree with them.
 */
module Analyzer {
  import opened JsText
  import opened Words

  datatype Tone = Positive | Negative | Neutral

  const NegativeWords: seq<string> := ["hate", "angry", "terrible"]
  const PositiveWords: seq<string> := ["love", "great", "amazing"]
  const ReasoningWords: seq<string> := ["because", "since", "therefore"]

  /** Some word of `words` occurs in the lower-cased text. */
  ghost predicate Mentions(text: string, words: seq<string>) {
    exists k :: 0 <= k < |words| && Occurs(AsciiLower(text), words[k])
  }

  /** The tone: a positive keyword wins over a negative one, a negative one over none. */
  function ToneOf(text: string): Tone {
    var lower := AsciiLower(text);
    if ContainsAny(lower, PositiveWords) then Positive
    else if ContainsAny(lower, NegativeWords) then Negative
    else Neutral
  }

  /**
   * Positive exactly when a positive keyword occurs, whatever else does;
   * Negative exactly when a negative keyword occurs and no positive one;
   * Neutral exactly when neither kind occurs.
   */
  lemma ToneRules(text: string)
    ensures ToneOf(text) == Positive <==> Mentions(text, PositiveWords)
    ensures ToneOf(text) == Negative <==> Mentions(text, NegativeWords) && !Mentions(text, PositiveWords)
    ensures ToneOf(text) == Neutral <==> !Mentions(text, NegativeWords) && !Mentions(text, PositiveWords)
  {
    var lower := AsciiLower(text);
    assert ContainsAny(lower, PositiveWords) <==> Mentions(text, PositiveWords);
    assert ContainsAny(lower, NegativeWords) <==> Mentions(text, NegativeWords);
  }

  const MoreDetailText: string := "Consider adding more detail."
  const AddReasoningText: string := "Add reasoning or examples."
  const SplitSentencesText: string := "Try splitting into shorter sentences."
  const TooBriefText: string := "A single sentence is too brief."

  /** The four suggestions, each standing for its fixed message. */
  datatype Rule = MoreDetail | AddReasoning | SplitSentences | TooBrief {
    function Message(): string {
      match this
      case MoreDetail => MoreDetailText
      case AddReasoning => AddReasoningText
      case SplitSentences => SplitSentencesText
      case TooBrief => TooBriefText
    }

    /** Position of the rule in `Catalog`. */
    function Rank(): nat {
      match this
      case MoreDetail => 0
      case AddReasoning => 1
      case SplitSentences => 2
      case TooBrief => 3
    }
  }

  /** The rules in the order the effect evaluates them. */
  const Catalog: seq<Rule> := [MoreDetail, AddReasoning, SplitSentences, TooBrief]

  /** The three measurements of the text that the rules are gated by. */
  datatype Metrics = Metrics(length: nat, words: nat, reasoned: bool)

  /** `text.length`, `countWords(text)` and the reasoning-keyword test. */
  function MetricsOf(text: string): Metrics {
    Metrics(JsLength(text), CountWords(text), ContainsAny(AsciiLower(text), ReasoningWords))
  }

  /** The condition under which a rule contributes its message. */
  predicate Applies(rule: Rule, m: Metrics) {
    match rule
    case MoreDetail => m.length < 30
    case AddReasoning => !m.reasoned && m.length > 40
    case SplitSentences => m.words > 60
    case TooBrief => m.words < 5 && m.length != 0
  }

  /** The rules of `rules` that apply, in the order of `rules`. */
  function Chosen(rules: seq<Rule>, m: Metrics): seq<Rule> {
    if rules == [] then []
    else (if Applies(rules[0], m) then [rules[0]] else []) + Chosen(rules[1..], m)
  }

  /** The messages of a list of rules, in order. */
  function Render(rules: seq<Rule>): (messages: seq<string>)
    ensures |messages| == |rules|
    ensures forall i :: 0 <= i < |rules| ==> messages[i] == rules[i].Message()
  {
    seq(|rules|, i requires 0 <= i < |rules| => rules[i].Message())
  }

  /** The suggestion list shown for `text`. */
  function Suggestions(text: string): seq<string> {
    Render(Chosen(Catalog, MetricsOf(text)))
  }

  /** Where a message stands in `Catalog`; 4 for a string that is no suggestion. */
  function MessageRank(m: string): nat {
    if m == MoreDetailText then 0
    else if m == AddReasoningText then 1
    else if m == SplitSentencesText then 2
    else if m == TooBriefText then 3
    else 4
  }

  /**
   * The tone and suggestion step, as the effect runs it on every change of
   * the text: the text is lower-cased once, then the tone and the list are
   * computed from it.
   */
  method Analyze(text: string) returns (tone: Tone, suggestions: seq<string>)
    ensures tone == ToneOf(text)
    ensures suggestions == Suggestions(text)
  {
    var lower := AsciiLower(text);
    tone := AnalyzeTone(text, lower);
    suggestions := BuildSuggestions(text, lower);
  }

  /**
   * The tone starts Neutral, a negative keyword sets it to Negative and a
   * positive keyword then overwrites it.
   */
  method AnalyzeTone(text: string, lower: string) returns (tone: Tone)
    requires lower == AsciiLower(text)
    ensures tone == ToneOf(text)
  {
    var t := Neutral;
    if ContainsAny(lower, NegativeWords) { t := Negative; }
    if ContainsAny(lower, PositiveWords) { t := Positive; }
    tone := t;
  }

  /**
   * The suggestion list: the text's length, reasoning-keyword test and word
   * count are taken, and the list grows from them by four guarded pushes.
   */
  method BuildSuggestions(text: string, lower: string) returns (list: seq<string>)
    requires lower == AsciiLower(text)
    ensures list == Suggestions(text)
  {
    var length := JsLength(text);
    var reasoned := ContainsAny(lower, ReasoningWords);
    var words := CountWords(text);
    assert Metrics(length, words, reasoned) == MetricsOf(text);
    list := PushSuggestions(length, words, reasoned);
  }

  /**
   * The four guarded pushes, in catalog order, given the three
   * measurements of the text: the list holds the message of each rule whose
   * guard passes.
   */
  method PushSuggestions(length: nat, words: nat, reasoned: bool) returns (list: seq<string>)
    ensures list == Render(Chosen(Catalog, Metrics(length, words, reasoned)))
  {
    ghost var m := Metrics(length, words, reasoned);
    // `done` holds the rules whose guards have been evaluated so far.
    ghost var done: seq<Rule> := [];
    var pushed: seq<Rule> := [];
    if length < 30 { pushed := pushed + [MoreDetail]; }
    ChosenSnoc(done, MoreDetail, m);
    done := done + [MoreDetail];
    if !reasoned && length > 40 { pushed := pushed + [AddReasoning]; }
    ChosenSnoc(done, AddReasoning, m);
    done := done + [AddReasoning];
    if words > 60 { pushed := pushed + [SplitSentences]; }
    ChosenSnoc(done, SplitSentences, m);
    done := done + [SplitSentences];
    if words < 5 && length != 0 { pushed := pushed + [TooBrief]; }
    ChosenSnoc(done, TooBrief, m);
    done := done + [TooBrief];
    assert pushed == Chosen(done, m);
    // The guards were evaluated in catalog order.
    assert done == Catalog;
    list := Render(pushed);
  }

  /** Evaluating one more rule extends the choice by that rule if it applies. */
  lemma {:induction false} ChosenSnoc(rules: seq<Rule>, rule: Rule, m: Metrics)
    ensures Chosen(rules + [rule], m) == Chosen(rules, m) + (if Applies(rule, m) then [rule] else [])
  {
    if rules == [] {
      assert [rule][1..] == [];
    } else {
      assert (rules + [rule])[1..] == rules[1..] + [rule];
      ChosenSnoc(rules[1..], rule, m);
    }
  }

  /** Distinct rules have distinct messages: each message has its rule's rank. */
  lemma MessageRankOf(rule: Rule)
    ensures MessageRank(rule.Message()) == rule.Rank()
  {
  }

  /** A rule is chosen exactly when it is listed and applies. */
  lemma {:induction false} ChosenMember(rules: seq<Rule>, m: Metrics, rule: Rule)
    ensures rule in Chosen(rules, m) <==> rule in rules && Applies(rule, m)
  {
    if rules != [] {
      ChosenMember(rules[1..], m, rule);
      assert rules == [rules[0]] + rules[1..];
    }
  }

  /**
   * Choosing from rules of strictly increasing rank, all at least `lo`,
   * yields rules of strictly increasing rank, all at least `lo`, and no
   * more of them than there were.
   */
  lemma {:induction false} ChosenRanked(rules: seq<Rule>, m: Metrics, lo: nat)
    requires forall k :: 0 <= k < |rules| ==> lo <= rules[k].Rank()
    requires forall i, j :: 0 <= i < j < |rules| ==> rules[i].Rank() < rules[j].Rank()
    ensures |Chosen(rules, m)| <= |rules|
    ensures forall i :: 0 <= i < |Chosen(rules, m)| ==> lo <= Chosen(rules, m)[i].Rank()
    ensures forall i, j :: 0 <= i < j < |Chosen(rules, m)| ==>
              Chosen(rules, m)[i].Rank() < Chosen(rules, m)[j].Rank()
  {
    if rules != [] {
      var head := rules[0];
      var tail := rules[1..];
      assert forall k :: 0 <= k < |tail| ==> tail[k] == rules[k + 1];
      ChosenRanked(tail, m, head.Rank() + 1);
      var t := Chosen(tail, m);
      if Applies(head, m) {
        assert Chosen(rules, m) == [head] + t;
        RankedCons(head, t, lo);
      } else {
        assert Chosen(rules, m) == t;
        assert forall i :: 0 <= i < |t| ==> lo <= t[i].Rank();
      }
    }
  }

  /** A rule of rank at least `lo` in front of ranked rules above it keeps them ranked. */
  lemma RankedCons(head: Rule, t: seq<Rule>, lo: nat)
    requires lo <= head.Rank()
    requires forall i :: 0 <= i < |t| ==> head.Rank() + 1 <= t[i].Rank()
    requires forall i, j :: 0 <= i < j < |t| ==> t[i].Rank() < t[j].Rank()
    ensures forall i :: 0 <= i < |[head] + t| ==> lo <= ([head] + t)[i].Rank()
    ensures forall i, j :: 0 <= i < j < |[head] + t| ==> ([head] + t)[i].Rank() < ([head] + t)[j].Rank()
  {
    var r := [head] + t;
    assert forall i :: 1 <= i < |r| ==> r[i] == t[i - 1];
  }

  /** Each suggestion is listed exactly when its rule applies to the text's metrics. */
  lemma SuggestedIff(rule: Rule, text: string)
    ensures rule.Message() in Suggestions(text) <==> Applies(rule, MetricsOf(text))
  {
    RenderedIff(rule, MetricsOf(text));
  }

  /** A message is rendered from the catalog exactly when its rule applies. */
  lemma RenderedIff(rule: Rule, m: Metrics)
    ensures rule.Message() in Render(Chosen(Catalog, m)) <==> Applies(rule, m)
  {
    var chosen := Chosen(Catalog, m);
    var s := Render(chosen);
    ChosenMember(Catalog, m, rule);
    assert Catalog[rule.Rank()] == rule;
    if Applies(rule, m) {
      var i :| 0 <= i < |chosen| && chosen[i] == rule;
      assert s[i] == rule.Message();
    }
    if rule.Message() in s {
      var i :| 0 <= i < |s| && s[i] == rule.Message();
      MessageRankOf(rule);
      MessageRankOf(chosen[i]);
      assert chosen[i] == rule;
    }
  }

  /**
   * The four rules in the system's own terms: length below 30 code units;
   * length above 40 with no reasoning keyword; more than 60 words; fewer
   * than 5 words in a non-empty text.
   */
  lemma SuggestionConditions(text: string)
    ensures MoreDetailText in Suggestions(text) <==> JsLength(text) < 30
    ensures AddReasoningText in Suggestions(text) <==> JsLength(text) > 40 && !Mentions(text, ReasoningWords)
    ensures SplitSentencesText in Suggestions(text) <==> RunCount(text) > 60
    ensures TooBriefText in Suggestions(text) <==> RunCount(text) < 5 && text != []
  {
    SuggestedIff(MoreDetail, text);
    SuggestedIff(AddReasoning, text);
    SuggestedIff(SplitSentences, text);
    SuggestedIff(TooBrief, text);
  }

  /** "More detail" and "add reasoning" never appear together; neither do "split" and "too brief". */
  lemma ExclusiveSuggestions(text: string)
    ensures !(MoreDetailText in Suggestions(text) && AddReasoningText in Suggestions(text))
    ensures !(SplitSentencesText in Suggestions(text) && TooBriefText in Suggestions(text))
  {
    SuggestionConditions(text);
  }

  /**
   * The list has at most four entries, each one of the four messages, in
   * catalog order and therefore without repetition.
   */
  lemma SuggestionsOrdered(text: string)
    ensures |Suggestions(text)| <= 4
    ensures forall i :: 0 <= i < |Suggestions(text)| ==> MessageRank(Suggestions(text)[i]) < 4
    ensures forall i, j :: 0 <= i < j < |Suggestions(text)| ==>
              MessageRank(Suggestions(text)[i]) < MessageRank(Suggestions(text)[j])
    ensures forall i, j :: 0 <= i < j < |Suggestions(text)| ==> Suggestions(text)[i] != Suggestions(text)[j]
  {
    ChoiceOrdered(MetricsOf(text));
  }

  /** The ordering of `SuggestionsOrdered`, for any measurements. */
  lemma ChoiceOrdered(m: Metrics)
    ensures |Render(Chosen(Catalog, m))| <= 4
    ensures forall i :: 0 <= i < |Render(Chosen(Catalog, m))| ==> MessageRank(Render(Chosen(Catalog, m))[i]) < 4
    ensures forall i, j :: 0 <= i < j < |Render(Chosen(Catalog, m))| ==>
              MessageRank(Render(Chosen(Catalog, m))[i]) < MessageRank(Render(Chosen(Catalog, m))[j])
    ensures forall i, j :: 0 <= i < j < |Render(Chosen(Catalog, m))| ==>
              Render(Chosen(Catalog, m))[i] != Render(Chosen(Catalog, m))[j]
  {
    CatalogRanks();
    ChosenRanked(Catalog, m, 0);
    RenderRanked(Chosen(Catalog, m));
  }

  /** The catalog lists each rule at its rank. */
  lemma CatalogRanks()
    ensures |Catalog| == 4
    ensures forall k :: 0 <= k < |Catalog| ==> Catalog[k].Rank() == k
  {
  }

  /** Rules of strictly increasing rank render to messages of strictly increasing rank. */
  lemma RenderRanked(rules: seq<Rule>)
    requires |rules| <= 4
    requires forall i, j :: 0 <= i < j < |rules| ==> rules[i].Rank() < rules[j].Rank()
    ensures |Render(rules)| <= 4
    ensures forall i :: 0 <= i < |Render(rules)| ==> MessageRank(Render(rules)[i]) < 4
    ensures forall i, j :: 0 <= i < j < |Render(rules)| ==>
              MessageRank(Render(rules)[i]) < MessageRank(Render(rules)[j])
    ensures forall i, j :: 0 <= i < j < |Render(rules)| ==> Render(rules)[i] != Render(rules)[j]
  {
    var s := Render(rules);
    forall i | 0 <= i < |s| ensures MessageRank(s[i]) == rules[i].Rank() < 4 {
      MessageRankOf(rules[i]);
    }
  }

  /** The empty text is Neutral and gets only the "more detail" suggestion. */
  lemma EmptyText()
    ensures ToneOf([]) == Neutral
    ensures Suggestions([]) == [MoreDetailText]
  {
    EmptyTextNeutral();
    CountWordsZero([]);
    var m := MetricsOf([]);
    assert m.length == 0 && m.words == 0;
    ChosenAtZero(m);
  }

  /** For a text of length 0 with no words, only the "more detail" rule applies. */
  lemma ChosenAtZero(m: Metrics)
    requires m.length == 0 && m.words == 0
    ensures Chosen(Catalog, m) == [MoreDetail]
  {
    var c3 := [TooBrief];
    var c2 := [SplitSentences, TooBrief];
    var c1 := [AddReasoning, SplitSentences, TooBrief];
    assert c3[1..] == [] && c2[1..] == c3 && c1[1..] == c2 && Catalog[1..] == c1;
    assert Chosen(c3, m) == [];
    assert Chosen(c2, m) == [];
    assert Chosen(c1, m) == [];
  }

  lemma EmptyTextNeutral()
    ensures ToneOf([]) == Neutral
  {
    assert AsciiLower([]) == [];
    assert PositiveWords[0] != [] && PositiveWords[1] != [] && PositiveWords[2] != [];
    assert NegativeWords[0] != [] && NegativeWords[1] != [] && NegativeWords[2] != [];
    NothingInEmpty(PositiveWords);
    NothingInEmpty(NegativeWords);
  }

  /** No non-empty word occurs in the empty text. */
  lemma NothingInEmpty(words: seq<string>)
    requires forall k :: 0 <= k < |words| ==> words[k] != []
    ensures !ContainsAny([], words)
  {
    forall k | 0 <= k < |words| ensures !Occurs([], words[k]) { }
  }
}
