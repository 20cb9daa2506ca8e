/** The utterance prompt pipeline: one transcribed utterance and a mode
    name go in, the text the mode's template makes of it comes out, either
    in one piece (`process`) or as the completion service's chunks
    (`process_stream`). */
module TextProcessor {
  import opened Wrappers
  import opened Strings
  import opened Completion

  /** The `PROMPTS` table, in declaration order. */
  const Prompts: seq<PromptEntry> := [
    PromptEntry("clean", Some(Utterance("clean"))),
    PromptEntry("rewrite", Some(Utterance("rewrite"))),
    PromptEntry("bullets", Some(Utterance("bullets"))),
    PromptEntry("email", Some(Utterance("email"))),
    PromptEntry("raw", None)
  ]

  /** The modes whose template calls the completion service. */
  const ServiceModes: seq<string> := ["clean", "rewrite", "bullets", "email"]

  /** The modes that skip the service: `raw` and every mode that is not a
      key of `PROMPTS`. */
  predicate IsBypass(mode: string) {
    mode == "raw" || Lookup(Prompts, mode).None?
  }

  /** The table maps each of the four service modes to its own template,
      `raw` to no template, and has no other key. */
  lemma PromptsLookup(mode: string)
    ensures mode in ServiceModes ==> Lookup(Prompts, mode) == Some(Some(Utterance(mode)))
    ensures mode == "raw" ==> Lookup(Prompts, mode) == Some(None)
    ensures mode !in ServiceModes && mode != "raw" ==> Lookup(Prompts, mode) == None
  {
    var t := Prompts;
    if mode !in ServiceModes && mode != "raw" {
      assert mode != "clean" && mode != "rewrite" && mode != "bullets" && mode != "email";
      assert Lookup(t, mode) == Lookup(t[1..], mode) == Lookup(t[2..], mode)
          == Lookup(t[3..], mode) == Lookup(t[4..], mode) == Lookup(t[5..], mode);
    }
  }

  /** A mode reaches the service exactly when it is one of the four service
      modes. */
  lemma BypassModes(mode: string)
    ensures !IsBypass(mode) <==> mode in ServiceModes
  {
    PromptsLookup(mode);
  }

  /** The service's synchronous reply, stripped. */
  function StrippedReply(reply: Result<string>): (r: Result<string>)
    ensures r.Success? <==> reply.Success?
    ensures r.Success? ==> Stripped(r.value) && r.value == Strip(reply.value)
  {
    match reply
    case Success(result) => Success(Strip(result))
    case Failure(e) => Failure(e)
  }

  /** `TextProcessor.process(text, mode)`. Blank input gives `""`; a
      bypass mode gives the stripped input; a service mode gives the
      service's stripped reply to the mode's template, and a service error
      propagates. A successful result never has outer whitespace. */
  function Process(text: string, mode: string, complete: Complete): (r: Result<string>)
    ensures AllSpace(text) ==> r == Success("")
    ensures !AllSpace(text) && IsBypass(mode) ==> r == Success(Strip(text))
    ensures !AllSpace(text) && !IsBypass(mode) ==>
              r == StrippedReply(complete(Prompt(Utterance(mode), text)))
    ensures r.Success? ==> Stripped(r.value)
    ensures r.Failure? <==> !AllSpace(text) && !IsBypass(mode)
                            && complete(Prompt(Utterance(mode), text)).Failure?
  {
    PromptsLookup(mode);
    if Strip(text) == "" then Success("")
    else if mode == "raw" || Lookup(Prompts, mode).None? then Success(Strip(text))
    else match Lookup(Prompts, mode).value
      case None => Success(Strip(text))
      case Some(template) => StrippedReply(complete(Prompt(template, text)))
  }

  /** `TextProcessor.process_stream(text, mode)`: nothing for blank input,
      the single chunk `text.strip()` for a bypass mode, and for a service
      mode the service's own chunks, unmodified and in order. */
  function ProcessStream(text: string, mode: string, stream: CompleteStream): (r: Result<seq<string>>)
    ensures AllSpace(text) ==> r == Success([])
    ensures !AllSpace(text) && IsBypass(mode) ==> r == Success([Strip(text)])
    ensures !AllSpace(text) && !IsBypass(mode) ==> r == stream(Prompt(Utterance(mode), text))
  {
    PromptsLookup(mode);
    if Strip(text) == "" then Success([])
    else if mode == "raw" || Lookup(Prompts, mode).None? then Success([Strip(text)])
    else match Lookup(Prompts, mode).value
      case None => Success([Strip(text)])
      case Some(template) => stream(Prompt(template, text))
  }

  /** The text a caller gets by concatenating every chunk. */
  function Concat(chunks: seq<string>): string {
    Join("", chunks)
  }

  /** On blank input and on the bypass modes the stream concatenates to
      exactly what `process` returns, whatever the service would do. */
  lemma StreamMatchesProcessOnBypass(text: string, mode: string, complete: Complete, stream: CompleteStream)
    requires AllSpace(text) || IsBypass(mode)
    ensures ProcessStream(text, mode, stream).Success?
    ensures Process(text, mode, complete).Success?
    ensures Concat(ProcessStream(text, mode, stream).value) == Process(text, mode, complete).value
  {
  }

  /** On a service mode, with a service whose synchronous reply is the
      concatenation of its chunks (or the same error), the stream agrees
      with `process` only up to `strip()`: the chunks are not stripped. */
  lemma StreamMatchesProcessUpToStrip(text: string, mode: string, complete: Complete, stream: CompleteStream)
    requires !AllSpace(text) && !IsBypass(mode)
    requires var p := Prompt(Utterance(mode), text);
             complete(p) == (match stream(p)
                             case Success(chunks) => Success(Concat(chunks))
                             case Failure(e) => Failure(e))
    ensures ProcessStream(text, mode, stream).Success? <==> Process(text, mode, complete).Success?
    ensures ProcessStream(text, mode, stream).Success? ==>
              Strip(Concat(ProcessStream(text, mode, stream).value)) == Process(text, mode, complete).value
  {
  }

  /** The stream is not stripped: when the service's chunks concatenate to
      text with outer whitespace, the concatenated stream differs from what
      `process` returns for the same reply. */
  lemma StreamIsNotStripped(text: string, mode: string, complete: Complete, stream: CompleteStream)
    requires !AllSpace(text) && !IsBypass(mode)
    requires var p := Prompt(Utterance(mode), text);
             complete(p) == (match stream(p)
                             case Success(chunks) => Success(Concat(chunks))
                             case Failure(e) => Failure(e))
    requires stream(Prompt(Utterance(mode), text)).Success?
    requires !Stripped(Concat(stream(Prompt(Utterance(mode), text)).value))
    ensures Process(text, mode, complete).Success?
    ensures Concat(ProcessStream(text, mode, stream).value) != Process(text, mode, complete).value
  {
  }

  /** `available_modes`: the keys of `PROMPTS` in order, `raw` included. */
  function AvailableModes(): (modes: seq<string>)
    ensures modes == ["clean", "rewrite", "bullets", "email", "raw"]
  {
    Keys(Prompts)
  }
}
