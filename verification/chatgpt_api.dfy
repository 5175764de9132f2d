/**
 * The prompt-and-retry pipeline of the editor add-on: the selected code is substituted
 * into a command's prompt template, the prompt is sent to the text-generation service
 * up to five times, and the first reply that neither starts nor ends with three backticks
 * is returned.
 *
 * The service call itself is not modelled: what it does on each attempt is given as a
 * script of outcomes, `upstream[k]` being the outcome of attempt `k` (counting from 0).
 */
module ChatGptApi {
  import opened Wrappers
  import opened JsStrings

  /** The placeholder a prompt template carries for the selected code. */
  const Marker: string := "{selectedCode}"

  /** Three backticks: the code-fence delimiter the reply check looks for. */
  const Fence: string := "```"

  /** The number of requests made before giving up. */
  const MaxAttempts: nat := 5

  // ---------------------------------------------------------------------------------
  // Prompt substitution
  // ---------------------------------------------------------------------------------

  /** `prompt.replace("{selectedCode}", selectedCode)`: JavaScript's first-occurrence replace. */
  function PromptWithCode(selectedCode: string, prompt: string): string
  {
    ReplaceFirst(prompt, Marker, selectedCode)
  }

  /** A template without the placeholder is sent as it is: the selected code is dropped. */
  lemma PromptWithoutMarkerUnchanged(selectedCode: string, prompt: string)
    requires !Contains(prompt, Marker)
    ensures PromptWithCode(selectedCode, prompt) == prompt
  {
    ReplaceFirstAbsent(prompt, Marker, selectedCode);
  }

  /**
   * Code without an expandable `$` pattern is placed verbatim where the placeholder first
   * occurs: the result is 14 characters shorter than the template plus the code's length,
   * and the template's text before and after that first placeholder (later placeholders
   * included) is kept. The code is not scanned again, so a placeholder inside the code
   * itself survives.
   */
  lemma PromptSplicesPlainCode(selectedCode: string, prompt: string, i: nat)
    requires FirstOccurrenceAt(prompt, Marker, i)
    requires PlainReplacement(selectedCode)
    ensures var r := PromptWithCode(selectedCode, prompt);
      |r| == |prompt| - 14 + |selectedCode| &&
      r[..i] == prompt[..i] &&
      r[i..i + |selectedCode|] == selectedCode &&
      r[i + |selectedCode|..] == prompt[i + 14..]
  {
    ExpandPlain(selectedCode, prompt[..i], Marker, prompt[i + |Marker|..]);
    ReplaceFirstSplices(prompt, Marker, selectedCode, i);
  }

  /**
   * Only the first placeholder is replaced: every later one is still in the prompt,
   * shifted by the change in length, whatever the selected code is.
   */
  lemma PromptKeepsLaterMarkers(selectedCode: string, prompt: string, i: nat, j: nat)
    requires FirstOccurrenceAt(prompt, Marker, i)
    requires i + |Marker| <= j && OccursAt(prompt, Marker, j)
    ensures var r := PromptWithCode(selectedCode, prompt);
      j + |r| - |prompt| >= 0 && OccursAt(r, Marker, j + |r| - |prompt|)
  {
    ReplaceFirstSplices(prompt, Marker, selectedCode, i);
    var r := PromptWithCode(selectedCode, prompt);
    var e := Expand(selectedCode, prompt[..i], Marker, prompt[i + |Marker|..]);
    OccursAtSuffix(prompt, i + |Marker|, Marker, j);
    OccursAtSuffix(r, i + |e|, Marker, j + |r| - |prompt|);
  }

  /**
   * JavaScript expands `$&` in a replacement string to the matched text, so selecting the
   * two characters `$&` sends the template with its placeholder still in it.
   */
  lemma DollarAmpersandKeepsMarker(prompt: string)
    ensures PromptWithCode("$&", prompt) == prompt
  {
    match IndexOf(prompt, Marker, 0)
    case None =>
    case Some(i) =>
      var before, after := prompt[..i], prompt[i + |Marker|..];
      assert Expand("$&", before, Marker, after) == Marker + Expand("", before, Marker, after);
      assert prompt[i..i + |Marker|] == Marker;
      assert before + Marker + after == prompt;
  }

  /**
   * A template whose first placeholder follows text without `{`: the code (without an
   * expandable `$` pattern) takes the placeholder's place, and the rest of the template
   * follows it unchanged.
   */
  lemma PromptAfterPlainHead(head: string, selectedCode: string, tail: string)
    requires '{' !in head && PlainReplacement(selectedCode)
    ensures PromptWithCode(selectedCode, head + Marker + tail) == head + selectedCode + tail
  {
    var prompt := head + Marker + tail;
    forall j: nat | j < |head| ensures !OccursAt(prompt, Marker, j) {
      assert prompt[j] == head[j];
      if j + |Marker| <= |prompt| {
        assert prompt[j..j + |Marker|][0] == prompt[j];
      }
    }
    assert prompt[|head|..|head| + |Marker|] == Marker;
    PromptSplicesPlainCode(selectedCode, prompt, |head|);
    var r := PromptWithCode(selectedCode, prompt);
    assert prompt[..|head|] == head;
    assert prompt[|head| + 14..] == tail;
    assert r == r[..|head|] + r[|head|..|head| + |selectedCode|] + r[|head| + |selectedCode|..];
  }

  /** The refactor scenario: the code takes the placeholder's place at the template's end. */
  lemma RefactorTemplateExample()
    ensures PromptWithCode("x=1", "Refactor:\n{selectedCode}") == "Refactor:\nx=1"
  {
    assert "Refactor:\n{selectedCode}" == "Refactor:\n" + Marker + "";
    PromptAfterPlainHead("Refactor:\n", "x=1", "");
  }

  /** A `$` before an ordinary character is no pattern: `$x` is inserted as it is. */
  lemma DollarIdentifierExample()
    ensures PromptWithCode("$x", "a{selectedCode}b") == "a$xb"
  {
    assert "a{selectedCode}b" == "a" + Marker + "b";
    assert PlainReplacement("$x") by { assert "$x"[1] == 'x'; }
    PromptAfterPlainHead("a", "$x", "b");
  }

  // ---------------------------------------------------------------------------------
  // Reply check and fence strip
  // ---------------------------------------------------------------------------------

  /**
   * `/^```|```$/.test(message)`: without the `m` flag `^` and `$` anchor at the very start
   * and the very end of the text, so this asks whether it starts or ends with a fence.
   */
  predicate FenceTest(message: string)
  {
    StartsWith(message, Fence) || EndsWith(message, Fence)
  }

  /** A reply is taken exactly when the fence test fails. */
  predicate Accepted(message: string)
  {
    !FenceTest(message)
  }

  /**
   * `message.replace(/^```|```$/g, '')`: matches are found left to right and do not overlap,
   * so a closing fence is removed only when it lies wholly after a removed opening fence.
   */
  function StripFences(message: string): string
  {
    var start := if StartsWith(message, Fence) then |Fence| else 0;
    var end := if EndsWith(message, Fence) && |message| - |Fence| >= start
      then |message| - |Fence| else |message|;
    message[start..end]
  }

  /** On an accepted reply the strip finds nothing: the reply is returned exactly. */
  lemma StripAcceptedIsIdentity(message: string)
    requires Accepted(message)
    ensures StripFences(message) == message
  {
  }

  /** The strip removes exactly one fence at each end of a fully fenced text. */
  lemma StripFencedText(s: string)
    ensures StripFences(Fence + s + Fence) == s
  {
    var m := Fence + s + Fence;
    assert m[..|Fence|] == Fence;
    assert m[|m| - |Fence|..] == Fence;
    assert m[|Fence|..|m| - |Fence|] == s;
  }

  /**
   * The reply check on concrete replies: the empty reply and plain text are taken, a
   * fenced block is refused (not unwrapped), and so is a bare fence.
   */
  lemma AcceptanceExamples()
    ensures Accepted("")
    ensures Accepted("plain text, no fences")
    ensures !Accepted("```\nfunction f(){}\n```")
    ensures !Accepted("```")
    ensures Accepted("``")
  {
    var fenced := "```\nfunction f(){}\n```";
    assert fenced[..3] == Fence;
    var plain := "plain text, no fences";
    assert plain[..3] != Fence by { assert plain[..3][0] == 'p'; }
    assert plain[|plain| - 3..] != Fence by { assert plain[|plain| - 3..][0] == 'c'; }
  }

  // ---------------------------------------------------------------------------------
  // Bounded retry
  // ---------------------------------------------------------------------------------

  /** What one request to the service gives: an exception, or the reply's text. */
  datatype Attempt = Throw | Msg(content: string)

  /** The attempt ends the loop: the service replied and the reply passed the check. */
  predicate Succeeds(a: Attempt)
  {
    a.Msg? && Accepted(a.content)
  }

  /** The first attempt in `[i, n)` that succeeds, if any. */
  function FirstSuccessFrom(upstream: seq<Attempt>, i: nat, n: nat): (r: Option<nat>)
    requires i <= n <= |upstream|
    ensures r.Some? ==> i <= r.value < n && Succeeds(upstream[r.value])
    ensures r.Some? ==> forall j :: i <= j < r.value ==> !Succeeds(upstream[j])
    ensures r.None? ==> forall j :: i <= j < n ==> !Succeeds(upstream[j])
    decreases n - i
  {
    if i == n then None
    else if Succeeds(upstream[i]) then Some(i)
    else FirstSuccessFrom(upstream, i + 1, n)
  }

  /** The outcome of the retry loop: its result (`None` for `null`) and the requests made. */
  datatype Retried = Retried(result: Option<string>, attempts: nat)

  /**
   * The retry loop over a script of attempt outcomes. At least one and at most five
   * requests are made; every attempt before the last one made failed; the result is the
   * last attempt's reply when that reply passed the check and `null` otherwise, and
   * `null` only after all five attempts.
   */
  function Retry(upstream: seq<Attempt>): (r: Retried)
    requires |upstream| >= MaxAttempts
    ensures 1 <= r.attempts <= MaxAttempts
    ensures forall k :: 0 <= k < r.attempts - 1 ==> !Succeeds(upstream[k])
    ensures r.result.Some? <==> Succeeds(upstream[r.attempts - 1])
    ensures r.result.Some? ==> upstream[r.attempts - 1] == Msg(r.result.value)
    ensures r.result.None? ==> r.attempts == MaxAttempts
  {
    match FirstSuccessFrom(upstream, 0, MaxAttempts)
    case Some(k) => Retried(Some(upstream[k].content), k + 1)
    case None => Retried(None, MaxAttempts)
  }

  /** `null` comes back exactly when all five attempts threw or were refused. */
  lemma RetryNullIffAllFail(upstream: seq<Attempt>)
    requires |upstream| >= MaxAttempts
    ensures Retry(upstream).result.None? <==> forall k :: 0 <= k < MaxAttempts ==> !Succeeds(upstream[k])
    ensures Retry(upstream).result.None? ==> Retry(upstream).attempts == MaxAttempts
  {
  }

  /** A taken reply is never fenced at either end. */
  lemma RetryResultUnfenced(upstream: seq<Attempt>)
    requires |upstream| >= MaxAttempts
    requires Retry(upstream).result.Some?
    ensures !StartsWith(Retry(upstream).result.value, Fence)
    ensures !EndsWith(Retry(upstream).result.value, Fence)
  {
  }

  /**
   * The loop stops at the first success: two scripts that agree on every attempt up to
   * and including the last one made give the same outcome, whatever follows.
   */
  lemma RetryIgnoresLaterAttempts(upstream: seq<Attempt>, other: seq<Attempt>)
    requires |upstream| >= MaxAttempts && |other| >= MaxAttempts
    requires upstream[..Retry(upstream).attempts] == other[..Retry(upstream).attempts]
    ensures Retry(other) == Retry(upstream)
  {
  }

  /**
   * An exception counts as a used attempt and the loop goes on: when attempt `k` throws
   * and is not the fifth, and nothing before it succeeded, a further request is made.
   */
  lemma ThrowMovesOn(upstream: seq<Attempt>, k: nat)
    requires |upstream| >= MaxAttempts
    requires k < MaxAttempts - 1 && upstream[k] == Throw
    requires forall j :: 0 <= j < k ==> !Succeeds(upstream[j])
    ensures Retry(upstream).attempts > k + 1
  {
  }

  /**
   * An exception and a refused reply are handled alike: replacing one by the other
   * anywhere in the script changes nothing in the outcome.
   */
  lemma ThrowAndRefusalAlike(upstream: seq<Attempt>, k: nat, message: string)
    requires |upstream| >= MaxAttempts && k < |upstream|
    requires upstream[k] == Throw && !Accepted(message)
    ensures Retry(upstream[k := Msg(message)]) == Retry(upstream)
  {
  }

  /** A failed first attempt followed by a taken reply: that reply, after two requests. */
  lemma SecondAttemptSucceeds(upstream: seq<Attempt>, reply: string)
    requires |upstream| >= MaxAttempts
    requires !Succeeds(upstream[0]) && upstream[1] == Msg(reply) && Accepted(reply)
    ensures Retry(upstream) == Retried(Some(reply), 2)
  {
  }

  /**
   * `retryGenerateMessage`: sends `prompt` once per attempt, at most five times, and
   * returns the first reply that passes the fence test, passed through the fence strip;
   * `None` once five attempts have thrown or been refused. `sent` lists the requests made.
   */
  method RetryGenerateMessage(prompt: string, upstream: seq<Attempt>)
    returns (result: Option<string>, sent: seq<string>)
    requires |upstream| >= MaxAttempts
    ensures 1 <= |sent| <= MaxAttempts
    ensures forall k :: 0 <= k < |sent| ==> sent[k] == prompt
    ensures forall k :: 0 <= k < |sent| - 1 ==> !Succeeds(upstream[k])
    ensures result.Some? ==> upstream[|sent| - 1] == Msg(result.value) && Accepted(result.value)
    ensures result.None? ==> |sent| == MaxAttempts && !Succeeds(upstream[MaxAttempts - 1])
    ensures Retried(result, |sent|) == Retry(upstream)
  {
    sent := [];
    var i := 0;
    while i < MaxAttempts
      invariant 0 <= i <= MaxAttempts
      invariant |sent| == i
      invariant forall k :: 0 <= k < i ==> sent[k] == prompt
      invariant forall k :: 0 <= k < i ==> !Succeeds(upstream[k])
      invariant FirstSuccessFrom(upstream, i, MaxAttempts) == FirstSuccessFrom(upstream, 0, MaxAttempts)
      decreases MaxAttempts - i
    {
      sent := sent + [prompt];
      match upstream[i] {
        case Throw =>
        case Msg(message) =>
          if !FenceTest(message) {
            StripAcceptedIsIdentity(message);
            result := Some(StripFences(message));
            return;
          }
      }
      i := i + 1;
    }
    result := None;
  }

  /**
   * `generateMessageWithPrompt`: builds the prompt once and runs the retry loop with it,
   * so every request made carries the template with the code substituted.
   */
  method GenerateMessageWithPrompt(selectedCode: string, prompt: string, upstream: seq<Attempt>)
    returns (result: Option<string>, sent: seq<string>)
    requires |upstream| >= MaxAttempts
    ensures 1 <= |sent| <= MaxAttempts
    ensures forall k :: 0 <= k < |sent| ==> sent[k] == PromptWithCode(selectedCode, prompt)
    ensures Retried(result, |sent|) == Retry(upstream)
  {
    var promptWithCode := PromptWithCode(selectedCode, prompt);
    result, sent := RetryGenerateMessage(promptWithCode, upstream);
  }

  // ---------------------------------------------------------------------------------
  // Exported commands
  // ---------------------------------------------------------------------------------

  /** The six exported commands. */
  datatype Command =
    | RefactorCode
    | ImproveCode
    | EnhanceCodeFromComments
    | ModularizeCode
    | ImproveDesignPatterns
    | DocumentCode

  /** The template store: one prompt template per command. */
  datatype Prompts = Prompts(
    refactorCode: string,
    improveCode: string,
    enhanceCodeFromComments: string,
    modularizeCode: string,
    improveDesignPatterns: string,
    documentCode: string)

  function TemplateFor(prompts: Prompts, command: Command): string
  {
    match command
    case RefactorCode => prompts.refactorCode
    case ImproveCode => prompts.improveCode
    case EnhanceCodeFromComments => prompts.enhanceCodeFromComments
    case ModularizeCode => prompts.modularizeCode
    case ImproveDesignPatterns => prompts.improveDesignPatterns
    case DocumentCode => prompts.documentCode
  }

  /**
   * An exported command: runs the pipeline on the command's own template, so the requests
   * made carry that template with the selected code substituted.
   */
  method RunCommand(command: Command, prompts: Prompts, selectedCode: string, upstream: seq<Attempt>)
    returns (result: Option<string>, sent: seq<string>)
    requires |upstream| >= MaxAttempts
    ensures 1 <= |sent| <= MaxAttempts
    ensures forall k :: 0 <= k < |sent| ==> sent[k] == PromptWithCode(selectedCode, TemplateFor(prompts, command))
    ensures Retried(result, |sent|) == Retry(upstream)
  {
    result, sent := GenerateMessageWithPrompt(selectedCode, TemplateFor(prompts, command), upstream);
  }
}
