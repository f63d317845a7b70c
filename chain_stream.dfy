/** The `POST` handler of app/api/translate-chain-stream/route.ts: request
    validation, resolution of the start language and of the chain, and the
    hop loop that streams one progress message per hop followed by exactly
    one complete or error message. */
module ChainStream {
  import opened Wrappers
  import opened Text
  import opened Types
  import opened Deepl

  /** The JSON body (`TranslateChainRequest`); every field may be absent. */
  datatype ChainRequest = ChainRequest(
    text: Option<string>,
    languageChain: Option<seq<LanguageCode>>,
    randomChainLength: Option<int>,
    startLanguage: Option<LanguageCode>,
    apiKey: Option<string>)

  /** What the handler answers: a JSON error with a status, or an event
      stream carrying its messages in emission order. */
  datatype Response =
    | JsonError(status: int, error: string)
    | EventStream(events: seq<TranslationProgress>)

  /** `!s || !s.trim()`: absent, empty or only whitespace. */
  predicate Blank(s: Option<string>) {
    s.None? || Trim(s.value) == []
  }

  /** The chain the handler settles on, or the 400 message it answers. */
  datatype ChainChoice =
    | Explicit(chain: seq<LanguageCode>)
    | Generated(length: nat)
    | Rejected(message: string)

  const ApiKeyRequired := "API key is required"
  const TextRequired := "Text is required"
  const LengthOutOfRange := "Random chain length must be between 3 and 15"
  const ChainMissing := "Either languageChain or randomChainLength must be provided"

  /** Chain selection: a non-empty explicit chain wins and is taken as it is;
      otherwise a truthy `randomChainLength` must lie in [3, 15]; otherwise
      the request is rejected. */
  /** `!(languageChain && languageChain.length > 0)`. */
  predicate NoExplicitChain(req: ChainRequest) {
    req.languageChain.None? || |req.languageChain.value| == 0
  }

  function ChooseChain(req: ChainRequest): (c: ChainChoice)
    ensures req.languageChain.Some? && |req.languageChain.value| > 0 ==> c == Explicit(req.languageChain.value)
    ensures NoExplicitChain(req) && req.randomChainLength.Some? && 3 <= req.randomChainLength.value <= 15
            ==> c == Generated(req.randomChainLength.value as nat)
    ensures NoExplicitChain(req) && req.randomChainLength.Some? && req.randomChainLength.value != 0
            && (req.randomChainLength.value < 3 || req.randomChainLength.value > 15)
            ==> c == Rejected(LengthOutOfRange)
    ensures NoExplicitChain(req) && (req.randomChainLength.None? || req.randomChainLength.value == 0)
            ==> c == Rejected(ChainMissing)
    ensures c.Generated? ==> 3 <= c.length <= 15 && req.randomChainLength == Some(c.length as int)
    ensures c.Rejected? ==> (c.message == LengthOutOfRange <==> req.randomChainLength.Some? && req.randomChainLength.value != 0)
  {
    if req.languageChain.Some? && |req.languageChain.value| > 0 then Explicit(req.languageChain.value)
    else if req.randomChainLength.Some? && req.randomChainLength.value != 0 then
      var n := req.randomChainLength.value;
      if n < 3 || n > 15 then Rejected(LengthOutOfRange) else Generated(n)
    else Rejected(ChainMissing)
  }

  // ---------------------------------------------------------------------
  // The hop loop, as a specification

  /** One hop: translate the running text into `language`, translate that
      back into the start language, and score the back-translation against
      the original. Either call may fail with a message. */
  function Hop(p: Provider, lib: Library, original: string, start: LanguageCode, current: string,
               language: LanguageCode, number: int): Result<TranslationStep, string>
  {
    match p.translate(current, language)
    case Err(message) => Err(message)
    case Ok(forward) =>
      match p.translate(forward, start)
      case Err(message) => Err(message)
      case Ok(back) =>
        Ok(TranslationStep(forward, language, lib.languageName(language), number, back, lib.divergence(original, back)))
  }

  /** The two helpers of lib/deepl.ts a hop uses: the display name of a
      code and the divergence of a back-translation from the original. The
      hop loop is stated for any pair; the route runs it with `Lib`. */
  datatype Library = Library(languageName: LanguageCode -> string, divergence: (string, string) -> int)

  const Lib := Library(LanguageName, Divergence)

  /** The state of a run after `n` hops have been attempted: the steps so far,
      the running forward text, and the message of the failure that stopped
      the run, if any. */
  datatype HopState = HopState(steps: seq<TranslationStep>, current: string, failure: Option<string>)

  function RunHops(p: Provider, lib: Library, original: string, start: LanguageCode, chain: seq<LanguageCode>, n: nat): HopState
    requires n <= |chain|
  {
    if n == 0 then HopState([], original, None)
    else
      var prev := RunHops(p, lib, original, start, chain, n - 1);
      if prev.failure.Some? then prev
      else
        match Hop(p, lib, original, start, prev.current, chain[n - 1], n)
        case Err(message) => prev.(failure := Some(message))
        case Ok(step) => HopState(prev.steps + [step], step.text, None)
  }

  /** The text the hop after `steps` starts from: the original before the
      first hop, the previous hop's forward text afterwards. */
  function PreviousText(original: string, steps: seq<TranslationStep>): string {
    if steps == [] then original else steps[|steps| - 1].text
  }

  /** `finalBackTranslation`: the original until a hop completes, then the
      back-translation of the last completed hop. */
  function FinalText(original: string, steps: seq<TranslationStep>): string {
    if steps == [] then original else steps[|steps| - 1].backTranslation
  }

  function ProgressMessage(step: TranslationStep, totalSteps: int): TranslationProgress {
    TranslationProgress(ProgressType, Some(step.step), Some(totalSteps), Some(step), None, None)
  }

  function CompleteMessage(result: TranslationChainResult): TranslationProgress {
    TranslationProgress(CompleteType, None, None, None, Some(result), None)
  }

  function ErrorMessage(message: string): TranslationProgress {
    TranslationProgress(ErrorType, None, None, None, None, Some(message))
  }

  function ProgressMessages(steps: seq<TranslationStep>, totalSteps: int): (ms: seq<TranslationProgress>)
    ensures |ms| == |steps|
  {
    if steps == [] then []
    else ProgressMessages(steps[..|steps| - 1], totalSteps) + [ProgressMessage(steps[|steps| - 1], totalSteps)]
  }

  /** Message `i` reports step `i`, with the chain's length as the total. */
  lemma {:induction false} ProgressMessagesAt(steps: seq<TranslationStep>, totalSteps: int, i: nat)
    requires i < |steps|
    ensures ProgressMessages(steps, totalSteps)[i] == ProgressMessage(steps[i], totalSteps)
    decreases |steps|
  {
    if i < |steps| - 1 {
      ProgressMessagesAt(steps[..|steps| - 1], totalSteps, i);
    }
  }

  /** The messages the stream carries for a run over `chain`. */
  function StreamEvents(p: Provider, lib: Library, original: string, start: LanguageCode, chain: seq<LanguageCode>): seq<TranslationProgress> {
    var run := RunHops(p, lib, original, start, chain, |chain|);
    var progress := ProgressMessages(run.steps, |chain|);
    if run.failure.Some? then progress + [ErrorMessage(run.failure.value)]
    else
      progress + [CompleteMessage(TranslationChainResult(original, start, lib.languageName(start), run.steps,
                                                         FinalText(original, run.steps), |chain|))]
  }

  /** Once a hop has failed, later hops are never attempted. */
  lemma {:induction false} RunHopsStaysFailed(p: Provider, lib: Library, original: string, start: LanguageCode,
                                              chain: seq<LanguageCode>, k: nat, n: nat)
    requires k <= n <= |chain|
    requires RunHops(p, lib, original, start, chain, k).failure.Some?
    ensures RunHops(p, lib, original, start, chain, n) == RunHops(p, lib, original, start, chain, k)
    decreases n
  {
    if n > k {
      RunHopsStaysFailed(p, lib, original, start, chain, k, n - 1);
    }
  }

  /** A completed hop extends the run by exactly its step. */
  lemma HopCompletes(p: Provider, lib: Library, original: string, start: LanguageCode, chain: seq<LanguageCode>, i: nat,
                     steps: seq<TranslationStep>, current: string, forward: string, back: string)
    requires i < |chain|
    requires RunHops(p, lib, original, start, chain, i) == HopState(steps, current, None)
    requires p.translate(current, chain[i]) == Ok(forward)
    requires p.translate(forward, start) == Ok(back)
    ensures RunHops(p, lib, original, start, chain, i + 1)
         == HopState(steps + [TranslationStep(forward, chain[i], lib.languageName(chain[i]), i + 1, back,
                                              lib.divergence(original, back))], forward, None)
  {
  }

  /** A failed call in hop `i + 1` is the failure the run ends with. */
  lemma HopFails(p: Provider, lib: Library, original: string, start: LanguageCode, chain: seq<LanguageCode>, i: nat,
                 steps: seq<TranslationStep>, current: string, message: string)
    requires i < |chain|
    requires RunHops(p, lib, original, start, chain, i) == HopState(steps, current, None)
    requires Hop(p, lib, original, start, current, chain[i], i + 1) == Err(message)
    ensures RunHops(p, lib, original, start, chain, |chain|) == HopState(steps, current, Some(message))
  {
    RunHopsStaysFailed(p, lib, original, start, chain, i + 1, |chain|);
  }

  /** A failed run streams its progress messages and then one error. */
  lemma FailedStream(p: Provider, lib: Library, original: string, start: LanguageCode, chain: seq<LanguageCode>,
                     steps: seq<TranslationStep>, current: string, message: string)
    requires RunHops(p, lib, original, start, chain, |chain|) == HopState(steps, current, Some(message))
    ensures StreamEvents(p, lib, original, start, chain) == ProgressMessages(steps, |chain|) + [ErrorMessage(message)]
  {
  }

  /** A completed run streams its progress messages and then one complete. */
  lemma CompletedStream(p: Provider, lib: Library, original: string, start: LanguageCode, chain: seq<LanguageCode>,
                        steps: seq<TranslationStep>, current: string)
    requires RunHops(p, lib, original, start, chain, |chain|) == HopState(steps, current, None)
    ensures StreamEvents(p, lib, original, start, chain)
         == ProgressMessages(steps, |chain|)
            + [CompleteMessage(TranslationChainResult(original, start, lib.languageName(start), steps,
                                                      FinalText(original, steps), |chain|))]
  {
  }

  lemma ProgressMessagesAppend(steps: seq<TranslationStep>, step: TranslationStep, totalSteps: int)
    ensures ProgressMessages(steps + [step], totalSteps) == ProgressMessages(steps, totalSteps) + [ProgressMessage(step, totalSteps)]
  {
    assert (steps + [step])[..|steps|] == steps;
  }

  // ---------------------------------------------------------------------
  // The hop loop, as the route runs it

  /** The body of `start(controller)`: hop after hop, push the step and
      enqueue a progress message; on the first failing call enqueue one error
      message and stop; after the last hop enqueue one complete message. */
  method StreamChain(p: Provider, lib: Library, text: string, start: LanguageCode, chain: seq<LanguageCode>)
    returns (events: seq<TranslationProgress>)
    ensures events == StreamEvents(p, lib, text, start, chain)
  {
    var steps: seq<TranslationStep> := [];
    var currentText := text;
    var finalBackTranslation := text;
    events := [];
    var i := 0;
    while i < |chain|
      invariant 0 <= i <= |chain|
      invariant RunHops(p, lib, text, start, chain, i) == HopState(steps, currentText, None)
      invariant events == ProgressMessages(steps, |chain|)
      invariant finalBackTranslation == FinalText(text, steps)
    {
      var targetLang := chain[i];
      var forward := p.translate(currentText, targetLang);
      if forward.Err? {
        HopFails(p, lib, text, start, chain, i, steps, currentText, forward.error);
        FailedStream(p, lib, text, start, chain, steps, currentText, forward.error);
        events := events + [ErrorMessage(forward.error)];
        return;
      }
      var backTranslated := p.translate(forward.value, start);
      if backTranslated.Err? {
        HopFails(p, lib, text, start, chain, i, steps, currentText, backTranslated.error);
        FailedStream(p, lib, text, start, chain, steps, currentText, backTranslated.error);
        events := events + [ErrorMessage(backTranslated.error)];
        return;
      }
      HopCompletes(p, lib, text, start, chain, i, steps, currentText, forward.value, backTranslated.value);
      currentText := forward.value;
      var divergence := lib.divergence(text, backTranslated.value);
      var step := TranslationStep(currentText, targetLang, lib.languageName(targetLang), i + 1,
                                  backTranslated.value, divergence);
      ProgressMessagesAppend(steps, step, |chain|);
      steps := steps + [step];
      finalBackTranslation := backTranslated.value;
      events := events + [ProgressMessage(step, |chain|)];
      i := i + 1;
    }
    CompletedStream(p, lib, text, start, chain, steps, currentText);
    var result := TranslationChainResult(text, start, lib.languageName(start), steps, finalBackTranslation, |chain|);
    events := events + [CompleteMessage(result)];
  }

  // ---------------------------------------------------------------------
  // What a run and its stream look like

  /** Step `j` of `steps` is what hop `j + 1` produces from the text the
      previous hop left behind. */
  predicate StepIsHop(p: Provider, lib: Library, original: string, start: LanguageCode, chain: seq<LanguageCode>,
                      steps: seq<TranslationStep>, j: nat)
    requires j < |steps| && j < |chain|
  {
    Hop(p, lib, original, start, PreviousText(original, steps[..j]), chain[j], j + 1) == Ok(steps[j])
  }

  /** Every step of `steps` is the hop of its position. */
  predicate HopsRecorded(p: Provider, lib: Library, original: string, start: LanguageCode, chain: seq<LanguageCode>,
                         steps: seq<TranslationStep>)
    requires |steps| <= |chain|
  {
    forall j :: 0 <= j < |steps| ==> StepIsHop(p, lib, original, start, chain, steps, j)
  }

  lemma HopsRecordedAppend(p: Provider, lib: Library, original: string, start: LanguageCode, chain: seq<LanguageCode>,
                           steps: seq<TranslationStep>, step: TranslationStep)
    requires |steps| < |chain|
    requires HopsRecorded(p, lib, original, start, chain, steps)
    requires Hop(p, lib, original, start, PreviousText(original, steps), chain[|steps|], |steps| + 1) == Ok(step)
    ensures HopsRecorded(p, lib, original, start, chain, steps + [step])
  {
    var longer := steps + [step];
    forall j | 0 <= j < |longer|
      ensures StepIsHop(p, lib, original, start, chain, longer, j)
    {
      if j < |steps| {
        assert longer[..j] == steps[..j];
        assert StepIsHop(p, lib, original, start, chain, steps, j);
      } else {
        assert longer[..j] == steps;
      }
    }
  }

  /** After `n` hops: every recorded step is the hop of its position in the
      chain, translated from the previous hop's text; a run without failure
      has one step per hop; a failed run stopped at the first hop whose
      translation failed, with that hop's message. */
  lemma {:induction false} RunHopsSteps(p: Provider, lib: Library, original: string, start: LanguageCode,
                                        chain: seq<LanguageCode>, n: nat)
    requires n <= |chain|
    ensures var run := RunHops(p, lib, original, start, chain, n);
      && |run.steps| <= n
      && run.current == PreviousText(original, run.steps)
      && HopsRecorded(p, lib, original, start, chain, run.steps)
      && (run.failure.None? ==> |run.steps| == n)
      && (run.failure.Some? ==>
            |run.steps| < n
            && Hop(p, lib, original, start, run.current, chain[|run.steps|], |run.steps| + 1) == Err(run.failure.value))
    decreases n
  {
    if n > 0 {
      RunHopsSteps(p, lib, original, start, chain, n - 1);
      var prev := RunHops(p, lib, original, start, chain, n - 1);
      if prev.failure.None? {
        var hop := Hop(p, lib, original, start, prev.current, chain[n - 1], n);
        if hop.Ok? {
          HopsRecordedAppend(p, lib, original, start, chain, prev.steps, hop.value);
        }
      }
    }
  }

  /** A recorded step carries its hop's number, language and name, the
      back-translation of its forward text, and that back-translation's
      divergence from the original. */
  lemma StepFields(p: Provider, lib: Library, original: string, start: LanguageCode, chain: seq<LanguageCode>,
                   steps: seq<TranslationStep>, j: nat)
    requires j < |steps| && j < |chain|
    requires StepIsHop(p, lib, original, start, chain, steps, j)
    ensures steps[j].step == j + 1
    ensures steps[j].language == chain[j] && steps[j].languageName == lib.languageName(chain[j])
    ensures p.translate(PreviousText(original, steps[..j]), chain[j]) == Ok(steps[j].text)
    ensures p.translate(steps[j].text, start) == Ok(steps[j].backTranslation)
    ensures steps[j].divergence == lib.divergence(original, steps[j].backTranslation)
  {
  }

  /** A message that ends the stream. */
  predicate Terminal(m: TranslationProgress) {
    m.kind == CompleteType || m.kind == ErrorType
  }

  /** A run of progress messages closed by exactly one complete or error
      message. */
  predicate WellFormedStream(events: seq<TranslationProgress>) {
    && |events| >= 1
    && Terminal(events[|events| - 1])
    && (forall i :: 0 <= i < |events| - 1 ==> events[i].kind == ProgressType)
  }

  /** Every stream is well formed and carries at most one progress message
      per hop. */
  lemma StreamEventsShape(p: Provider, lib: Library, original: string, start: LanguageCode, chain: seq<LanguageCode>)
    ensures WellFormedStream(StreamEvents(p, lib, original, start, chain))
    ensures |StreamEvents(p, lib, original, start, chain)| <= |chain| + 1
  {
    var run := RunHops(p, lib, original, start, chain, |chain|);
    RunHopsSteps(p, lib, original, start, chain, |chain|);
    var events := StreamEvents(p, lib, original, start, chain);
    forall i | 0 <= i < |events| - 1
      ensures events[i].kind == ProgressType
    {
      ProgressMessagesAt(run.steps, |chain|, i);
    }
  }

  /** A run in which every hop succeeds streams one progress message per hop,
      in order, numbered from 1 and counting the chain's length, then one
      complete message whose result holds every step and whose final text is
      the last back-translation (the original for an empty chain). */
  lemma CompletedRunEvents(p: Provider, lib: Library, original: string, start: LanguageCode, chain: seq<LanguageCode>)
    requires RunHops(p, lib, original, start, chain, |chain|).failure.None?
    ensures var steps := RunHops(p, lib, original, start, chain, |chain|).steps;
            var events := StreamEvents(p, lib, original, start, chain);
      && |steps| == |chain| && |events| == |chain| + 1
      && (forall i :: 0 <= i < |chain| ==> events[i] == ProgressMessage(steps[i], |chain|))
      && (forall i :: 0 <= i < |chain| ==> steps[i].step == i + 1 && steps[i].language == chain[i])
      && events[|chain|].kind == CompleteType
      && events[|chain|].result
         == Some(TranslationChainResult(original, start, lib.languageName(start), steps,
                                        if chain == [] then original else steps[|chain| - 1].backTranslation,
                                        |chain|))
  {
    var steps := RunHops(p, lib, original, start, chain, |chain|).steps;
    RunHopsSteps(p, lib, original, start, chain, |chain|);
    forall i | 0 <= i < |chain|
      ensures StreamEvents(p, lib, original, start, chain)[i] == ProgressMessage(steps[i], |chain|)
      ensures steps[i].step == i + 1 && steps[i].language == chain[i]
    {
      ProgressMessagesAt(steps, |chain|, i);
      assert StepIsHop(p, lib, original, start, chain, steps, i);
      StepFields(p, lib, original, start, chain, steps, i);
    }
  }

  /** A run whose hop `k + 1` fails streams the `k` completed hops as
      progress messages and then one error message with the failing call's
      message; no complete message is sent. */
  lemma FailedRunEvents(p: Provider, lib: Library, original: string, start: LanguageCode, chain: seq<LanguageCode>)
    requires RunHops(p, lib, original, start, chain, |chain|).failure.Some?
    ensures var run := RunHops(p, lib, original, start, chain, |chain|);
            var k := |run.steps|;
            var events := StreamEvents(p, lib, original, start, chain);
      && k < |chain| && |events| == k + 1
      && Hop(p, lib, original, start, PreviousText(original, run.steps), chain[k], k + 1) == Err(run.failure.value)
      && events[k] == ErrorMessage(run.failure.value)
      && (forall i :: 0 <= i < |events| ==> events[i].kind != CompleteType)
  {
    var run := RunHops(p, lib, original, start, chain, |chain|);
    RunHopsSteps(p, lib, original, start, chain, |chain|);
    var events := StreamEvents(p, lib, original, start, chain);
    forall i | 0 <= i < |run.steps|
      ensures events[i].kind != CompleteType
    {
      ProgressMessagesAt(run.steps, |chain|, i);
    }
  }

  // ---------------------------------------------------------------------
  // Framing

  const DataPrefix := "data: "

  /** One server-sent-events frame: the `data: ` field holding a message's
      JSON text, closed by a blank line. */
  function Frame(payload: string): string {
    DataPrefix + payload + "\n\n"
  }

  /** The chunks the stream enqueues: one frame per message, in emission
      order; `serialize` stands for `JSON.stringify`. */
  function Enqueued(serialize: TranslationProgress -> string, events: seq<TranslationProgress>): seq<string> {
    if events == [] then [] else [Frame(serialize(events[0]))] + Enqueued(serialize, events[1..])
  }

  /** The same frames run together, as a reader may receive them. */
  function Frames(serialize: TranslationProgress -> string, events: seq<TranslationProgress>): string {
    if events == [] then [] else Frame(serialize(events[0])) + Frames(serialize, events[1..])
  }

  // ---------------------------------------------------------------------
  // The handler

  /** The response of `POST` for a parsed body (or the message of the parse
      failure), a provider and the values `Math.random()` returns. */
  function PostResponse(body: Result<ChainRequest, string>, p: Provider, lib: Library, random: nat -> real): Response
    requires RandomSource(random)
  {
    match body
    case Err(message) => JsonError(500, message)
    case Ok(req) =>
      if Blank(req.apiKey) then JsonError(400, ApiKeyRequired)
      else if Blank(req.text) then JsonError(400, TextRequired)
      else
        match StartLanguage(req, p)
        case Err(message) => JsonError(500, message)
        case Ok(start) => ChainResponse(req, p, lib, random, start)
  }

  /** `startLanguage || await detectLanguage(text, apiKey)`: a given start
      language is taken as it is; otherwise the provider's detection,
      normalised, or its failure. */
  function StartLanguage(req: ChainRequest, p: Provider): (r: Result<LanguageCode, string>)
    requires req.text.Some?
    ensures Given(req.startLanguage) ==> r == Ok(req.startLanguage.value)
    ensures !Given(req.startLanguage) ==> r == DetectLanguage(p, req.text.value)
  {
    if Given(req.startLanguage) then Ok(req.startLanguage.value) else DetectLanguage(p, req.text.value)
  }

  /** The rest of `POST` once the start language is known: resolve the
      chain and stream the hops over the request's text. */
  function ChainResponse(req: ChainRequest, p: Provider, lib: Library, random: nat -> real, start: LanguageCode): Response
    requires RandomSource(random)
    requires req.text.Some?
  {
    match ChooseChain(req)
    case Rejected(message) => JsonError(400, message)
    case Explicit(chain) => EventStream(StreamEvents(p, lib, req.text.value, start, chain))
    case Generated(length) => EventStream(StreamEvents(p, lib, req.text.value, start, RandomChain(length, Some(start), random)))
  }

  /** `POST`: validate, resolve the start language, resolve the chain, then
      run the hop loop. */
  method Post(body: Result<ChainRequest, string>, p: Provider, random: nat -> real) returns (response: Response)
    requires RandomSource(random)
    ensures response == PostResponse(body, p, Lib, random)
  {
    if body.Err? {
      return JsonError(500, body.error);
    }
    var req := body.value;
    if Blank(req.apiKey) {
      return JsonError(400, ApiKeyRequired);
    }
    if Blank(req.text) {
      return JsonError(400, TextRequired);
    }
    var text := req.text.value;
    var detectedLanguage: LanguageCode;
    if Given(req.startLanguage) {
      detectedLanguage := req.startLanguage.value;
    } else {
      var detected := DetectLanguage(p, text);
      if detected.Err? {
        return JsonError(500, detected.error);
      }
      detectedLanguage := detected.value;
    }
    response := RespondWithChain(req, p, random, detectedLanguage);
  }

  /** The second half of `POST`: resolve the chain, then run the hop loop. */
  method RespondWithChain(req: ChainRequest, p: Provider, random: nat -> real, start: LanguageCode)
    returns (response: Response)
    requires RandomSource(random)
    requires req.text.Some?
    ensures response == ChainResponse(req, p, Lib, random, start)
  {
    var chain: seq<LanguageCode>;
    if req.languageChain.Some? && |req.languageChain.value| > 0 {
      chain := req.languageChain.value;
    } else if req.randomChainLength.Some? && req.randomChainLength.value != 0 {
      var n := req.randomChainLength.value;
      if n < 3 || n > 15 {
        return JsonError(400, LengthOutOfRange);
      }
      chain := GenerateRandomChain(n, Some(start), random);
    } else {
      return JsonError(400, ChainMissing);
    }
    var events := StreamChain(p, Lib, req.text.value, start, chain);
    response := EventStream(events);
  }

  // ---------------------------------------------------------------------
  // What the handler guarantees

  /** An event stream is opened only for a parsed body with a key, a text
      and a usable chain. */
  lemma StreamOnlyForValidRequests(body: Result<ChainRequest, string>, p: Provider, lib: Library, random: nat -> real)
    requires RandomSource(random)
    requires PostResponse(body, p, lib, random).EventStream?
    ensures body.Ok? && !Blank(body.value.apiKey) && !Blank(body.value.text)
    ensures !ChooseChain(body.value).Rejected?
  {
  }

  /** Every event stream the handler opens is well formed. */
  lemma StreamIsWellFormed(body: Result<ChainRequest, string>, p: Provider, lib: Library, random: nat -> real)
    requires RandomSource(random)
    requires PostResponse(body, p, lib, random).EventStream?
    ensures WellFormedStream(PostResponse(body, p, lib, random).events)
  {
    StreamOnlyForValidRequests(body, p, lib, random);
    var req := body.value;
    var text := req.text.value;
    var start := StartLanguage(req, p).value;
    var chain := match ChooseChain(req)
      case Explicit(chain) => chain
      case Generated(length) => RandomChain(length, Some(start), random)
      case Rejected(_) => [];
    assert PostResponse(body, p, lib, random).events == StreamEvents(p, lib, text, start, chain);
    StreamEventsShape(p, lib, text, start, chain);
  }

  /** The error answers: a missing key is reported before anything else, a
      missing text next; every 400 carries one of the four validation
      messages; every other error is a 500 carrying the parse or detection
      failure's message. */
  lemma ErrorResponses(body: Result<ChainRequest, string>, p: Provider, lib: Library, random: nat -> real)
    requires RandomSource(random)
    ensures var r := PostResponse(body, p, lib, random);
      && (body.Ok? && Blank(body.value.apiKey) ==> r == JsonError(400, ApiKeyRequired))
      && (body.Ok? && !Blank(body.value.apiKey) && Blank(body.value.text) ==> r == JsonError(400, TextRequired))
      && (r.JsonError? ==> r.status == 400 || r.status == 500)
      && (r.JsonError? && r.status == 400 ==>
            r.error == ApiKeyRequired || r.error == TextRequired || r.error == LengthOutOfRange || r.error == ChainMissing)
      && (r.JsonError? && r.status == 500 ==>
            body.Err? || (!Given(body.value.startLanguage) && p.detectSource(body.value.text.value).Err?))
  {
  }

  /** A given start language is used as it is: the detector is never
      consulted, so two providers that translate alike answer alike. */
  lemma GivenStartSkipsDetection(body: Result<ChainRequest, string>, p: Provider, q: Provider, lib: Library, random: nat -> real)
    requires RandomSource(random)
    requires body.Ok? && Given(body.value.startLanguage)
    requires p.translate == q.translate
    ensures PostResponse(body, p, lib, random) == PostResponse(body, q, lib, random)
  {
    var req := body.value;
    var start := req.startLanguage.value;
    if !Blank(req.apiKey) && !Blank(req.text) {
      ChainResponseSameTranslator(req, p, q, lib, random, start);
    }
  }

  lemma ChainResponseSameTranslator(req: ChainRequest, p: Provider, q: Provider, lib: Library, random: nat -> real,
                                    start: LanguageCode)
    requires RandomSource(random)
    requires req.text.Some?
    requires p.translate == q.translate
    ensures ChainResponse(req, p, lib, random, start) == ChainResponse(req, q, lib, random, start)
  {
    match ChooseChain(req)
    case Rejected(_) =>
    case Explicit(chain) =>
      StreamEventsSameTranslator(p, q, lib, req.text.value, start, chain);
    case Generated(length) =>
      StreamEventsSameTranslator(p, q, lib, req.text.value, start, RandomChain(length, Some(start), random));
  }

  lemma StreamEventsSameTranslator(p: Provider, q: Provider, lib: Library, original: string, start: LanguageCode,
                                   chain: seq<LanguageCode>)
    requires p.translate == q.translate
    ensures StreamEvents(p, lib, original, start, chain) == StreamEvents(q, lib, original, start, chain)
  {
    RunHopsSameTranslator(p, q, lib, original, start, chain, |chain|);
  }

  /** Runs only depend on the provider's translator. */
  lemma {:induction false} RunHopsSameTranslator(p: Provider, q: Provider, lib: Library, original: string, start: LanguageCode,
                                                 chain: seq<LanguageCode>, n: nat)
    requires n <= |chain|
    requires p.translate == q.translate
    ensures RunHops(p, lib, original, start, chain, n) == RunHops(q, lib, original, start, chain, n)
    decreases n
  {
    if n > 0 {
      RunHopsSameTranslator(p, q, lib, original, start, chain, n - 1);
      var prev := RunHops(p, lib, original, start, chain, n - 1);
      HopSameTranslator(p, q, lib, original, start, prev.current, chain[n - 1], n);
    }
  }

  lemma HopSameTranslator(p: Provider, q: Provider, lib: Library, original: string, start: LanguageCode,
                          current: string, language: LanguageCode, number: int)
    requires p.translate == q.translate
    ensures Hop(p, lib, original, start, current, language, number) == Hop(q, lib, original, start, current, language, number)
  {
  }

  /** Without a start language the detector runs before the chain is looked
      at: a failing detection answers 500 even for a request whose chain
      would be rejected. */
  lemma DetectionPrecedesChainCheck(body: Result<ChainRequest, string>, p: Provider, lib: Library, random: nat -> real)
    requires RandomSource(random)
    requires body.Ok? && !Blank(body.value.apiKey) && !Blank(body.value.text) && !Given(body.value.startLanguage)
    requires p.detectSource(body.value.text.value).Err?
    ensures PostResponse(body, p, lib, random) == JsonError(500, p.detectSource(body.value.text.value).error)
  {
  }

  /** A non-empty explicit chain is streamed as given, whatever its length
      and whether or not its codes are in the catalog, and a random length
      sent beside it is ignored. */
  lemma ExplicitChainVerbatim(body: Result<ChainRequest, string>, p: Provider, lib: Library, random: nat -> real,
                               start: LanguageCode)
    requires RandomSource(random)
    requires body.Ok? && !Blank(body.value.apiKey) && !Blank(body.value.text)
    requires StartLanguage(body.value, p) == Ok(start)
    requires body.value.languageChain.Some? && |body.value.languageChain.value| > 0
    ensures PostResponse(body, p, lib, random)
         == EventStream(StreamEvents(p, lib, body.value.text.value, start, body.value.languageChain.value))
  {
  }

  /** A generated chain has the requested length, uses catalog codes only,
      never names the same language twice in a row and does not start in
      the source language, whether that language was given or detected. */
  lemma GeneratedChainShape(body: Result<ChainRequest, string>, p: Provider, lib: Library, random: nat -> real, start: LanguageCode)
    requires RandomSource(random)
    requires body.Ok? && !Blank(body.value.apiKey) && !Blank(body.value.text)
    requires StartLanguage(body.value, p) == Ok(start)
    requires ChooseChain(body.value).Generated?
    ensures var n := ChooseChain(body.value).length;
            var chain := RandomChain(n, Some(start), random);
      && 3 <= n <= 15 && |chain| == n
      && PostResponse(body, p, lib, random) == EventStream(StreamEvents(p, lib, body.value.text.value, start, chain))
      && (forall i :: 0 <= i < n ==> chain[i] in Codes())
      && (forall i :: 0 < i < n ==> chain[i] != chain[i - 1])
      && chain[0] != start
  {
    var n := ChooseChain(body.value).length;
    var chain := RandomChain(n, Some(start), random);
    if start == [] {
      assert chain[0] in Codes();
      CatalogCodesNonEmpty();
    }
  }

  /** The converse of `StreamOnlyForValidRequests`: a parsed body with a
      key, a text, a resolved start language and an accepted chain is
      answered with an event stream. */
  lemma ValidRequestStreams(body: Result<ChainRequest, string>, p: Provider, lib: Library, random: nat -> real)
    requires RandomSource(random)
    requires body.Ok? && !Blank(body.value.apiKey) && !Blank(body.value.text)
    requires StartLanguage(body.value, p).Ok?
    requires !ChooseChain(body.value).Rejected?
    ensures PostResponse(body, p, lib, random).EventStream?
  {
  }
}
