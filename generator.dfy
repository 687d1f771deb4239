/**
 * Prompt construction of `generate_response` (generator.py): the retrieved chunks
 * are joined with a blank line into the context, and context and question are
 * spliced into a fixed template. The chat-completion call that follows is not
 * part of this model.
 */
module Generator {
  import opened Wrappers

  const Instruction: string := "You are an assistant helping answer questions using provided information."
  const ContextSeparator: string := "\n\n"
  /** The template up to the context: the instruction line, a line of four spaces, and `Context:`. */
  const PromptHead: string := Instruction + "\n    \nContext:\n"
  /** The template between the context and the question. */
  const QuestionLabel: string := "\n\nQuestion:\n"
  /** The template after the question. */
  const AnswerLabel: string := "\n\nAnswer:"

  // ---------------------------------------------------------------------------
  // str.join
  // ---------------------------------------------------------------------------

  /** `sep.join(parts)`. */
  function Join(sep: string, parts: seq<string>): string
  {
    if |parts| == 0 then ""
    else if |parts| == 1 then parts[0]
    else parts[0] + sep + Join(sep, parts[1..])
  }

  /** Where `parts[k]` starts in the joined string: every earlier part and its separator come first. */
  function Offset(sep: string, parts: seq<string>, k: nat): nat
    requires k <= |parts|
  {
    if k == 0 then 0 else Offset(sep, parts, k - 1) + |parts[k - 1]| + |sep|
  }

  lemma {:induction false} OffsetTail(sep: string, parts: seq<string>, k: nat)
    requires 1 <= k <= |parts|
    ensures Offset(sep, parts, k) == |parts[0]| + |sep| + Offset(sep, parts[1..], k - 1)
  {
    if k > 1 {
      OffsetTail(sep, parts, k - 1);
    }
  }

  /** The joined string is as long as all parts plus one separator between each pair of neighbours. */
  lemma {:induction false} JoinLength(sep: string, parts: seq<string>)
    requires |parts| > 0
    ensures |Join(sep, parts)| + |sep| == Offset(sep, parts, |parts|)
  {
    if |parts| > 1 {
      JoinLength(sep, parts[1..]);
      OffsetTail(sep, parts, |parts|);
    }
  }

  /** Part `k` of the joined string sits at its offset, in the given order. */
  lemma {:induction false} JoinPartAt(sep: string, parts: seq<string>, k: nat)
    requires k < |parts|
    ensures Offset(sep, parts, k) + |parts[k]| <= |Join(sep, parts)|
    ensures Join(sep, parts)[Offset(sep, parts, k)..Offset(sep, parts, k) + |parts[k]|] == parts[k]
  {
    var j := Join(sep, parts);
    if |parts| == 1 {
    } else if k == 0 {
      assert j == parts[0] + (sep + Join(sep, parts[1..]));
    } else {
      var rest := parts[1..];
      JoinPartAt(sep, rest, k - 1);
      OffsetTail(sep, parts, k);
      assert j == (parts[0] + sep) + Join(sep, rest);
    }
  }

  /** A separator follows every part but the last. */
  lemma {:induction false} JoinSeparatorAfter(sep: string, parts: seq<string>, k: nat)
    requires k + 1 < |parts|
    ensures Offset(sep, parts, k + 1) <= |Join(sep, parts)|
    ensures Join(sep, parts)[Offset(sep, parts, k) + |parts[k]|..Offset(sep, parts, k + 1)] == sep
  {
    var j := Join(sep, parts);
    var rest := parts[1..];
    if k == 0 {
      assert j == (parts[0] + sep) + Join(sep, rest);
    } else {
      JoinSeparatorAfter(sep, rest, k - 1);
      OffsetTail(sep, parts, k);
      OffsetTail(sep, parts, k + 1);
      assert j == (parts[0] + sep) + Join(sep, rest);
    }
  }

  /** The last part ends the joined string. */
  lemma JoinLastPartEnds(sep: string, parts: seq<string>)
    requires |parts| > 0
    ensures Offset(sep, parts, |parts| - 1) + |parts[|parts| - 1]| == |Join(sep, parts)|
  {
    JoinLength(sep, parts);
  }

  // ---------------------------------------------------------------------------
  // The prompt
  // ---------------------------------------------------------------------------

  /** The context: the chunks joined with a blank line. No chunks give an empty context, one chunk gives itself. */
  function Context(chunks: seq<string>): (context: string)
    ensures |chunks| == 0 ==> context == ""
    ensures |chunks| == 1 ==> context == chunks[0]
  {
    Join(ContextSeparator, chunks)
  }

  /** The prompt that `generate_response` sends for `query` and the retrieved `chunks`. */
  function BuildPrompt(query: string, chunks: seq<string>): string
  {
    PromptHead + Context(chunks) + QuestionLabel + query + AnswerLabel
  }

  /**
   * The prompt opens with the instruction line and the template head, then holds
   * the context, then `Question:` and the query verbatim, and ends with `Answer:`.
   */
  lemma PromptLayout(query: string, chunks: seq<string>)
    ensures var p := BuildPrompt(query, chunks);
      var c := Context(chunks);
      var q := |PromptHead| + |c| + |QuestionLabel|;
      |p| == q + |query| + |AnswerLabel| &&
      p[..|Instruction|] == Instruction &&
      p[..|PromptHead|] == PromptHead &&
      p[|PromptHead|..|PromptHead| + |c|] == c &&
      p[|PromptHead| + |c|..q] == QuestionLabel &&
      p[q..q + |query|] == query &&
      p[q + |query|..] == AnswerLabel
  {
  }

  /** Reads the question back out of a prompt built around the context `context`, if it has that shape. */
  function QueryOf(prompt: string, context: string): Option<string>
  {
    var start := |PromptHead| + |context| + |QuestionLabel|;
    if |prompt| >= start + |AnswerLabel|
       && prompt[..start] == PromptHead + context + QuestionLabel
       && prompt[|prompt| - |AnswerLabel|..] == AnswerLabel
    then Some(prompt[start..|prompt| - |AnswerLabel|])
    else None
  }

  /** The question can be read back from the prompt: it appears verbatim. */
  lemma QueryRoundTrip(query: string, chunks: seq<string>)
    ensures QueryOf(BuildPrompt(query, chunks), Context(chunks)) == Some(query)
  {
  }

  /** Conversely, any string the reader accepts is the prompt for the question it reads. */
  lemma QueryOfSound(prompt: string, chunks: seq<string>, query: string)
    requires QueryOf(prompt, Context(chunks)) == Some(query)
    ensures prompt == BuildPrompt(query, chunks)
  {
  }

  /** For a fixed question, two chunk lists give the same prompt exactly when they give the same context. */
  lemma PromptDeterminedByContext(query: string, chunks1: seq<string>, chunks2: seq<string>)
    ensures BuildPrompt(query, chunks1) == BuildPrompt(query, chunks2) <==> Context(chunks1) == Context(chunks2)
  {
    if BuildPrompt(query, chunks1) == BuildPrompt(query, chunks2) {
      PromptLayout(query, chunks1);
      PromptLayout(query, chunks2);
      var p := BuildPrompt(query, chunks1);
      assert |Context(chunks1)| == |Context(chunks2)|;
      assert Context(chunks1) == p[|PromptHead|..|PromptHead| + |Context(chunks1)|] == Context(chunks2);
    }
  }
}
