/**
 * The state of the writing-assistant component: the input text, the tone
 * and suggestions derived from it, the last rewrite result and the loading
 * flag. Each state cell the component updates is a field; the effect that
 * re-analyzes the text, the rewrite handler and the copy choice are its
 * methods.
 *
 * The asynchronous rewrite handler is split at its one suspension point:
 * `BeginImprove` runs up to the call to the service and returns the prompt
 * it would send, `CompleteImprove` runs once the call has ended.
 */
module WritingApp {
  import opened JsText
  import opened Analyzer
  import opened Rewrite

  class App {
    var text: string
    var tone: Tone
    var suggestions: seq<string>
    var improved: string
    var loading: bool

    /** The tone and the suggestion list are always those of the current text. */
    ghost predicate Valid()
      reads this`text, this`tone, this`suggestions
    {
      tone == ToneOf(text) && suggestions == Suggestions(text)
    }

    /** The state after mounting with `initialText` (the stored text, or "" when none). */
    constructor (initialText: string)
      ensures text == initialText && improved == [] && !loading
      ensures Valid()
    {
      var t, s := Analyze(initialText);
      text, tone, suggestions := initialText, t, s;
      improved, loading := [], false;
    }

    /** Editing the text re-runs the analysis; the rewrite state is untouched. */
    method SetText(newText: string)
      modifies this
      ensures text == newText
      ensures improved == old(improved) && loading == old(loading)
      ensures Valid()
    {
      var t, s := Analyze(newText);
      text, tone, suggestions := newText, t, s;
    }

    /**
     * The handler up to the service call: nothing happens for a blank
     * text; otherwise `loading` is set and the prompt for `mode` is returned.
     */
    method BeginImprove(mode: string) returns (request: Option<string>)
      modifies this`loading
      ensures text == old(text) && tone == old(tone) && suggestions == old(suggestions)
      ensures AllSpace(text) ==> request == None && loading == old(loading)
      ensures !AllSpace(text) ==> request == Some(Prompt(mode, text)) && loading
    {
      if Trim(text) == [] {
        return None;
      }
      loading := true;
      request := Some(Prompt(mode, text));
    }

    /** The handler after the service call: the result is stored and `loading` cleared. */
    method CompleteImprove(outcome: Outcome)
      modifies this`improved, this`loading
      ensures text == old(text) && tone == old(tone) && suggestions == old(suggestions)
      ensures improved == ImprovedText(outcome) && !loading
    {
      improved := ImprovedText(outcome);
      loading := false;
    }

    /**
     * One whole rewrite request whose service call ends in `outcome`. For a
     * blank text nothing is sent and nothing changes. Otherwise the prompt
     * for `mode` is sent, `loading` ends false, the result is the reply
     * (or its fallback), and the copy button then copies that result.
     */
    method Improve(mode: string, outcome: Outcome) returns (request: Option<string>)
      requires Valid()
      modifies this`improved, this`loading
      ensures text == old(text) && tone == old(tone) && suggestions == old(suggestions)
      ensures AllSpace(text) ==> request == None && improved == old(improved) && loading == old(loading)
      ensures !AllSpace(text) ==> request == Some(Prompt(mode, text))
      ensures !AllSpace(text) ==> improved == ImprovedText(outcome) && !loading
      ensures !AllSpace(text) ==> CopySource(improved, text) == improved
      ensures Valid()
    {
      request := BeginImprove(mode);
      if request.Some? {
        CompleteImprove(outcome);
        CopyAfterRewrite(outcome, text);
      }
    }

  }
}
