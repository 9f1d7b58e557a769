/**
 * The rewrite request: the prompt sent to the text-generation service for
 * a rewrite mode, the text shown for each way the request can end, and the
 * text the copy button puts on the clipboard.
 *
 * The service itself is not modelled: a request ends in an `Outcome`,
 * either the reply text or a failure (any exception thrown while building
 * the model handle, sending the request or reading the reply).
 */
module Rewrite {

  datatype Option<T> = None | Some(value: T)

  const ExpandTemplate: string := "Expand this into a clear 120-word paragraph:\n\n"
  const ShortenTemplate: string := "Shorten this to <30 words while keeping meaning:\n\n"
  const FormalTemplate: string := "Rewrite this in a professional tone:\n\n"

  /** The template for a mode: "expand", "shorten", and anything else is formalized. */
  function Template(mode: string): string {
    if mode == "expand" then ExpandTemplate
    else if mode == "shorten" then ShortenTemplate
    else FormalTemplate
  }

  /**
   * The prompt for `mode` and `text`: the template of the mode immediately
   * followed by the text verbatim.
   */
  function Prompt(mode: string, text: string): (p: string)
    ensures |p| >= |text| && p[|p| - |text|..] == text
    ensures mode == "expand" ==> p == ExpandTemplate + text
    ensures mode == "shorten" ==> p == ShortenTemplate + text
    ensures mode != "expand" && mode != "shorten" ==> p == FormalTemplate + text
  {
    Template(mode) + text
  }

  /**
   * The prompt begins with the expand template exactly for mode "expand",
   * with the shorten template exactly for mode "shorten", and with the
   * professional-tone template for every other mode.
   */
  lemma PromptTemplate(mode: string, text: string)
    ensures ExpandTemplate <= Prompt(mode, text) <==> mode == "expand"
    ensures ShortenTemplate <= Prompt(mode, text) <==> mode == "shorten"
    ensures FormalTemplate <= Prompt(mode, text) <==> mode != "expand" && mode != "shorten"
  {
    var p := Prompt(mode, text);
    assert p[..|Template(mode)|] == Template(mode);
    TemplatesDiffer();
    assert p[37] == Template(mode)[37];
  }

  /**
   * The three templates differ at position 37, the last character of the
   * shortest one, so none is a prefix of another.
   */
  lemma TemplatesDiffer()
    ensures |FormalTemplate| == 38 && |ExpandTemplate| > 38 && |ShortenTemplate| > 38
    ensures ExpandTemplate[37] == 'a' && ShortenTemplate[37] == 'n' && FormalTemplate[37] == '\n'
  {
  }

  /** How the request to the service ended. */
  datatype Outcome = Ok(reply: string) | Fail

  const NoResponse: string := "No response"
  const Unreachable: string := "\U{26A0}\U{FE0F}  Could not reach Gemini"

  /**
   * The rewrite result shown after the request ends: the reply when it is
   * non-empty, "No response" for an empty reply, the warning on failure;
   * never empty, so the result panel is always shown afterwards.
   */
  function ImprovedText(outcome: Outcome): (r: string)
    ensures r != []
    ensures outcome.Ok? && outcome.reply != [] ==> r == outcome.reply
    ensures outcome == Ok([]) ==> r == NoResponse
    ensures outcome.Fail? ==> r == Unreachable
  {
    match outcome
    case Ok(reply) => if reply != [] then reply else NoResponse
    case Fail => Unreachable
  }

  /**
   * What the copy button copies: the rewrite result if there is one,
   * otherwise the input text. It is empty only when both are.
   */
  function CopySource(improved: string, text: string): (s: string)
    ensures s == improved || s == text
    ensures improved != [] ==> s == improved
    ensures s == [] <==> improved == [] && text == []
  {
    if improved != [] then improved else text
  }

  /** After any finished request the copy button copies the rewrite result, never the input. */
  lemma CopyAfterRewrite(outcome: Outcome, text: string)
    ensures CopySource(ImprovedText(outcome), text) == ImprovedText(outcome)
  {
  }
}
