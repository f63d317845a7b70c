/** components/TranslationTelephoneApp.tsx: the page that posts a chain
    request, reads the event stream line by line and keeps the five pieces
    of state it renders (`result`, `isLoading`, `error`, `progress`,
    `currentStep`). */
module TelephoneApp {
  import opened Wrappers
  import opened Text
  import opened Types
  import opened Deepl
  import opened ChainStream

  const NoApiKeyEntered := "Please enter your DeepL API key first"
  const TranslationFailed := "Translation failed"
  const ReadFailed := "Failed to read response"

  /** The `progress` state: the step reported and the chain's length. */
  datatype Progress = Progress(current: Option<int>, total: Option<int>)

  /** The component's state fields, as one value. */
  datatype View = View(
    result: Option<TranslationChainResult>,
    isLoading: bool,
    error: Option<string>,
    progress: Option<Progress>,
    currentStep: Option<TranslationStep>)

  /** The state the page mounts with. */
  const Initial := View(None, false, None, None, None)

  /** The state right after a run starts: loading, everything else cleared. */
  const Started := View(None, true, None, None, None)

  /** The state after reading some input, and the message of the error thrown
      while reading it, if one was. */
  datatype Consumed = Consumed(view: View, thrown: Option<string>)

  /** `JSON.parse` of a payload: the message, or the `SyntaxError`'s message. */
  type Decoder = string -> Result<TranslationProgress, string>

  /** What `fetch` and the first reads give the handler. */
  datatype FetchOutcome =
    | Thrown(message: string)          // the request rejects, or an error body is not JSON
    | ErrorBody(error: Option<string>) // `!response.ok`, with the body's `error` field
    | NoBody                           // `response.body` is null
    | Streamed(chunks: seq<string>)    // the decoded chunks `reader.read()` yields

  // ---------------------------------------------------------------------
  // Reading the stream, as a specification

  /** Dispatch on one message: a progress message sets `progress` and, when it
      carries a step, `currentStep`; a complete message sets `result` and
      clears both; an error message is thrown. */
  function ApplyMessage(v: View, m: TranslationProgress): (c: Consumed)
    ensures c.thrown.Some? <==> m.kind == ErrorType
    ensures c.view.error == v.error && c.view.isLoading == v.isLoading
    ensures m.kind == ProgressType ==>
      && c.view.progress == Some(Progress(m.currentStep, m.totalSteps))
      && c.view.currentStep == (if m.step.Some? then m.step else v.currentStep)
      && c.view.result == v.result
    ensures m.kind == CompleteType ==>
      c.view.result == m.result && c.view.progress.None? && c.view.currentStep.None?
    ensures m.kind == ErrorType ==> c == Consumed(v, Some(m.error.GetOr("")))
  {
    match m.kind
    case ProgressType =>
      Consumed(v.(progress := Some(Progress(m.currentStep, m.totalSteps)),
                  currentStep := if m.step.Some? then m.step else v.currentStep), None)
    case CompleteType => Consumed(v.(result := m.result, progress := None, currentStep := None), None)
    case ErrorType => Consumed(v, Some(m.error.GetOr("")))
  }

  /** One line of a chunk: only a `data: ` line is parsed, from its seventh
      character on; every other line is skipped. */
  function ApplyLine(v: View, decode: Decoder, line: string): (c: Consumed)
    ensures !StartsWith(line, DataPrefix) ==> c == Consumed(v, None)
    ensures StartsWith(line, DataPrefix) && decode(line[6..]).Err? ==> c == Consumed(v, Some(decode(line[6..]).error))
    ensures StartsWith(line, DataPrefix) && decode(line[6..]).Ok? ==> c == ApplyMessage(v, decode(line[6..]).value)
  {
    if StartsWith(line, DataPrefix) then
      match decode(line[6..])
      case Err(message) => Consumed(v, Some(message))
      case Ok(m) => ApplyMessage(v, m)
    else Consumed(v, None)
  }

  /** The lines in order, up to and including the first that throws. */
  function ConsumeLines(v: View, decode: Decoder, lines: seq<string>): Consumed
    decreases |lines|
  {
    if lines == [] then Consumed(v, None)
    else
      var c := ApplyLine(v, decode, lines[0]);
      if c.thrown.Some? then c else ConsumeLines(c.view, decode, lines[1..])
  }

  /** The chunks in order, each split on `'\n'`, up to the first throw. */
  function ConsumeChunks(v: View, decode: Decoder, chunks: seq<string>): Consumed
    decreases |chunks|
  {
    if chunks == [] then Consumed(v, None)
    else
      var c := ConsumeLines(v, decode, Split(chunks[0], '\n'));
      if c.thrown.Some? then c else ConsumeChunks(c.view, decode, chunks[1..])
  }

  /** The lines of every chunk, one chunk after the other. */
  function AllLines(chunks: seq<string>): seq<string>
    decreases |chunks|
  {
    if chunks == [] then [] else Split(chunks[0], '\n') + AllLines(chunks[1..])
  }

  /** The messages in order, up to and including the first error message. */
  function ApplyMessages(v: View, ms: seq<TranslationProgress>): Consumed
    decreases |ms|
  {
    if ms == [] then Consumed(v, None)
    else
      var c := ApplyMessage(v, ms[0]);
      if c.thrown.Some? then c else ApplyMessages(c.view, ms[1..])
  }

  /** The `try` block: what the response gives, from the state `v`. */
  function Received(v: View, decode: Decoder, outcome: FetchOutcome): Consumed {
    match outcome
    case Thrown(message) => Consumed(v, Some(message))
    case ErrorBody(e) => Consumed(v, Some(if e.None? || e.value == "" then TranslationFailed else e.value))
    case NoBody => Consumed(v, Some(ReadFailed))
    case Streamed(chunks) => ConsumeChunks(v, decode, chunks)
  }

  /** The `catch` and `finally` blocks: a thrown message becomes the error and
      clears `progress`; loading ends either way. */
  function Settled(c: Consumed): View {
    if c.thrown.Some? then c.view.(error := c.thrown, progress := None, isLoading := false)
    else c.view.(isLoading := false)
  }

  /** The state a handler leaves: without a key only the error changes;
      otherwise the run starts from `Started` and settles. */
  function AfterRun(v: View, apiKey: string, decode: Decoder, outcome: FetchOutcome): View {
    if apiKey == "" then v.(error := Some(NoApiKeyEntered))
    else Settled(Received(Started, decode, outcome))
  }

  /** The body `handleTranslate` posts. */
  function ExplicitRequest(text: string, languageChain: seq<LanguageCode>, apiKey: string): ChainRequest {
    ChainRequest(Some(text), Some(languageChain), None, None, Some(apiKey))
  }

  /** The body `handleRandomTranslate` posts. */
  function RandomRequest(text: string, chainLength: int, apiKey: string): ChainRequest {
    ChainRequest(Some(text), None, Some(chainLength), None, Some(apiKey))
  }

  // ---------------------------------------------------------------------
  // The component

  class App {
    var result: Option<TranslationChainResult>
    var isLoading: bool
    var error: Option<string>
    var progress: Option<Progress>
    var currentStep: Option<TranslationStep>

    function Snapshot(): View
      reads this
    {
      View(result, isLoading, error, progress, currentStep)
    }

    constructor()
      ensures Snapshot() == Initial
    {
      result := None;
      isLoading := false;
      error := None;
      progress := None;
      currentStep := None;
    }

    /** `handleTranslate`: without a key, report it and post nothing;
        otherwise post the explicit chain and read the answer. */
    method HandleTranslate(apiKey: string, text: string, languageChain: seq<LanguageCode>,
                           fetch: ChainRequest -> FetchOutcome, decode: Decoder)
      returns (sent: Option<ChainRequest>)
      modifies this
      ensures sent == (if apiKey == "" then None else Some(ExplicitRequest(text, languageChain, apiKey)))
      ensures Snapshot() == AfterRun(old(Snapshot()), apiKey, decode, fetch(ExplicitRequest(text, languageChain, apiKey)))
    {
      if apiKey == "" {
        error := Some(NoApiKeyEntered);
        return None;
      }
      sent := Some(ExplicitRequest(text, languageChain, apiKey));
      Run(sent.value, fetch, decode);
    }

    /** `handleRandomTranslate`: the same, posting a random chain length. */
    method HandleRandomTranslate(apiKey: string, text: string, chainLength: int,
                                 fetch: ChainRequest -> FetchOutcome, decode: Decoder)
      returns (sent: Option<ChainRequest>)
      modifies this
      ensures sent == (if apiKey == "" then None else Some(RandomRequest(text, chainLength, apiKey)))
      ensures Snapshot() == AfterRun(old(Snapshot()), apiKey, decode, fetch(RandomRequest(text, chainLength, apiKey)))
    {
      if apiKey == "" {
        error := Some(NoApiKeyEntered);
        return None;
      }
      sent := Some(RandomRequest(text, chainLength, apiKey));
      Run(sent.value, fetch, decode);
    }

    /** The part both handlers share once a key is present: reset, post,
        read, then record a thrown message and stop loading. */
    method Run(request: ChainRequest, fetch: ChainRequest -> FetchOutcome, decode: Decoder)
      modifies this
      ensures Snapshot() == Settled(Received(Started, decode, fetch(request)))
    {
      isLoading := true;
      error := None;
      result := None;
      progress := None;
      currentStep := None;
      var thrown := Receive(fetch(request), decode);
      if thrown.Some? {
        error := thrown;
        progress := None;
      }
      isLoading := false;
    }

    /** The `try` block: read chunk after chunk and line after line, applying
        each `data: ` message; stop at the first thrown error and return its
        message. */
    method Receive(outcome: FetchOutcome, decode: Decoder) returns (thrown: Option<string>)
      modifies this
      ensures Consumed(Snapshot(), thrown) == Received(old(Snapshot()), decode, outcome)
    {
      match outcome
      case Thrown(message) =>
        return Some(message);
      case ErrorBody(e) =>
        return Some(if e.None? || e.value == "" then TranslationFailed else e.value);
      case NoBody =>
        return Some(ReadFailed);
      case Streamed(chunks) =>
        var i := 0;
        while i < |chunks|
          invariant 0 <= i <= |chunks|
          invariant ConsumeChunks(Snapshot(), decode, chunks[i..]) == ConsumeChunks(old(Snapshot()), decode, chunks)
        {
          var lines := Split(chunks[i], '\n');
          ghost var atChunk := Snapshot();
          assert chunks[i..][0] == chunks[i] && chunks[i..][1..] == chunks[i + 1..];
          for j := 0 to |lines|
            invariant ConsumeLines(Snapshot(), decode, lines[j..]) == ConsumeLines(atChunk, decode, lines)
          {
            assert lines[j..][0] == lines[j] && lines[j..][1..] == lines[j + 1..];
            var line := lines[j];
            if StartsWith(line, DataPrefix) {
              var data := decode(line[6..]);
              if data.Err? {
                return Some(data.error);
              }
              var m := data.value;
              match m.kind
              case ProgressType =>
                progress := Some(Progress(m.currentStep, m.totalSteps));
                if m.step.Some? {
                  currentStep := m.step;
                }
              case CompleteType =>
                result := m.result;
                progress := None;
                currentStep := None;
              case ErrorType =>
                return Some(m.error.GetOr(""));
            }
          }
          assert lines[|lines|..] == [];
          i := i + 1;
        }
        assert chunks[|chunks|..] == [];
        thrown := None;
    }

    /** `handleReset`: clear everything but the loading flag. */
    method HandleReset()
      modifies this
      ensures Snapshot() == old(Snapshot()).(result := None, error := None, progress := None, currentStep := None)
    {
      result := None;
      error := None;
      progress := None;
      currentStep := None;
    }
  }

  // ---------------------------------------------------------------------
  // What reading guarantees

  /** A throw stops the reading: the lines after it change nothing. */
  lemma {:induction false} ConsumeLinesAppend(v: View, decode: Decoder, a: seq<string>, b: seq<string>)
    ensures var c := ConsumeLines(v, decode, a);
      ConsumeLines(v, decode, a + b) == if c.thrown.Some? then c else ConsumeLines(c.view, decode, b)
    decreases |a|
  {
    if a != [] {
      assert (a + b)[0] == a[0] && (a + b)[1..] == a[1..] + b;
      var c := ApplyLine(v, decode, a[0]);
      if c.thrown.None? {
        ConsumeLinesAppend(c.view, decode, a[1..], b);
      }
    } else {
      assert a + b == b;
    }
  }

  /** Where a chunk ends does not matter beyond the lines it yields: reading
      the chunks is reading all their lines in order. */
  lemma {:induction false} ChunksAreLines(v: View, decode: Decoder, chunks: seq<string>)
    ensures ConsumeChunks(v, decode, chunks) == ConsumeLines(v, decode, AllLines(chunks))
    decreases |chunks|
  {
    if chunks != [] {
      var lines := Split(chunks[0], '\n');
      ConsumeLinesAppend(v, decode, lines, AllLines(chunks[1..]));
      var c := ConsumeLines(v, decode, lines);
      if c.thrown.None? {
        ChunksAreLines(c.view, decode, chunks[1..]);
      }
    }
  }

  /** Reading never touches the error or the loading flag; only the
      `catch` and `finally` blocks do. */
  lemma {:induction false} ConsumeLinesKeeps(v: View, decode: Decoder, lines: seq<string>)
    ensures ConsumeLines(v, decode, lines).view.error == v.error
    ensures ConsumeLines(v, decode, lines).view.isLoading == v.isLoading
    decreases |lines|
  {
    if lines != [] {
      var c := ApplyLine(v, decode, lines[0]);
      if c.thrown.None? {
        ConsumeLinesKeeps(c.view, decode, lines[1..]);
      }
    }
  }

  /** A frame whose payload has no line break is read as the `data: ` line
      holding exactly that payload, then an empty line. */
  lemma FrameLines(payload: string, rest: string)
    requires '\n' !in payload
    ensures Split(Frame(payload) + rest, '\n') == [DataPrefix + payload, ""] + Split(rest, '\n')
    ensures (DataPrefix + payload)[6..] == payload && StartsWith(DataPrefix + payload, DataPrefix)
  {
    var line := DataPrefix + payload;
    assert '\n' !in line by {
      assert forall k :: 0 <= k < |DataPrefix| ==> line[k] == DataPrefix[k];
      assert forall k :: |DataPrefix| <= k < |line| ==> line[k] == payload[k - |DataPrefix|];
    }
    assert Frame(payload) + rest == line + ['\n'] + ([] + ['\n'] + rest);
    SplitPrefix(line, '\n', [] + ['\n'] + rest);
    SplitPrefix([], '\n', rest);
    assert [] + ['\n'] + rest == [] + ['\n'] + rest;
  }

  /** `JSON.stringify` as the route uses it and `JSON.parse` as the page uses
      it: parsing gives the message back, and the text has no line break
      (JSON escapes those inside strings). */
  ghost predicate LineSafe(serialize: TranslationProgress -> string, decode: Decoder) {
    forall m :: decode(serialize(m)) == Ok(m) && '\n' !in serialize(m)
  }

  /** The route's framing read back by the page: the frames run together
      into one chunk are read as the messages themselves, in order. */
  lemma {:induction false} FramesRoundTrip(v: View, serialize: TranslationProgress -> string, decode: Decoder,
                                           events: seq<TranslationProgress>)
    requires LineSafe(serialize, decode)
    ensures ConsumeLines(v, decode, Split(Frames(serialize, events), '\n')) == ApplyMessages(v, events)
    decreases |events|
  {
    if events == [] {
      assert Split([], '\n') == [[]];
    } else {
      var payload := serialize(events[0]);
      var rest := Frames(serialize, events[1..]);
      FrameLines(payload, rest);
      var lines := [DataPrefix + payload, ""] + Split(rest, '\n');
      assert lines[0] == DataPrefix + payload;
      assert lines[1..][0] == "" && lines[1..][1..] == Split(rest, '\n');
      assert decode(payload) == Ok(events[0]);
      var c := ApplyMessage(v, events[0]);
      if c.thrown.None? {
        FramesRoundTrip(c.view, serialize, decode, events[1..]);
      }
    }
  }

  /** The same for the frames as the route enqueues them, one chunk each. */
  lemma {:induction false} EnqueuedRoundTrip(v: View, serialize: TranslationProgress -> string, decode: Decoder,
                                             events: seq<TranslationProgress>)
    requires LineSafe(serialize, decode)
    ensures ConsumeChunks(v, decode, Enqueued(serialize, events)) == ApplyMessages(v, events)
    decreases |events|
  {
    if events != [] {
      var chunks := Enqueued(serialize, events);
      var payload := serialize(events[0]);
      FrameLines(payload, []);
      assert Frame(payload) + [] == Frame(payload);
      assert Split([], '\n') == [[]];
      var lines := [DataPrefix + payload, "", ""];
      assert lines[1..][1..] == [""];
      assert decode(payload) == Ok(events[0]);
      var c := ApplyMessage(v, events[0]);
      assert chunks[0] == Frame(payload) && chunks[1..] == Enqueued(serialize, events[1..]);
      assert Split(chunks[0], '\n') == lines;
      if c.thrown.None? {
        assert ConsumeLines(c.view, decode, [""]) == Consumed(c.view, None);
        assert ConsumeLines(c.view, decode, lines[1..]) == Consumed(c.view, None);
        assert ConsumeLines(v, decode, lines) == Consumed(c.view, None);
        EnqueuedRoundTrip(c.view, serialize, decode, events[1..]);
      }
    }
  }

  /** A well-formed stream of the route read from `v`: progress messages keep
      `result`, then a complete message sets it and clears the progress, or an
      error message is thrown with `result` untouched. */
  lemma {:induction false} StreamView(v: View, events: seq<TranslationProgress>)
    requires WellFormedStream(events)
    ensures var c := ApplyMessages(v, events);
            var last := events[|events| - 1];
      && c.view.error == v.error && c.view.isLoading == v.isLoading
      && (last.kind == CompleteType ==>
            c.thrown.None? && c.view.result == last.result && c.view.progress.None? && c.view.currentStep.None?)
      && (last.kind == ErrorType ==> c.thrown == Some(last.error.GetOr("")) && c.view.result == v.result)
    decreases |events|
  {
    var c := ApplyMessage(v, events[0]);
    if |events| > 1 {
      assert events[0].kind == ProgressType;
      var tail := events[1..];
      assert tail[|tail| - 1] == events[|events| - 1];
      assert forall i :: 0 <= i < |tail| - 1 ==> tail[i].kind == ProgressType by {
        forall i | 0 <= i < |tail| - 1 ensures tail[i].kind == ProgressType {
          assert tail[i] == events[i + 1];
        }
      }
      assert WellFormedStream(tail);
      StreamView(c.view, tail);
    }
  }

  /** Every run a handler starts ends with loading off; the error is set
      exactly when something was thrown, with that message, and `progress`
      is then cleared. */
  lemma RunSettles(v: View, apiKey: string, decode: Decoder, outcome: FetchOutcome)
    ensures apiKey == "" ==> AfterRun(v, apiKey, decode, outcome) == v.(error := Some(NoApiKeyEntered))
    ensures apiKey != "" ==>
      var r := Received(Started, decode, outcome);
      var after := AfterRun(v, apiKey, decode, outcome);
      && !after.isLoading
      && after.error == r.thrown
      && (r.thrown.Some? ==> after.progress.None?)
    ensures apiKey != "" && outcome.ErrorBody? ==>
      AfterRun(v, apiKey, decode, outcome).error
        == Some(if outcome.error.None? || outcome.error.value == "" then TranslationFailed else outcome.error.value)
  {
    if outcome.Streamed? {
      ChunksAreLines(Started, decode, outcome.chunks);
      ConsumeLinesKeeps(Started, decode, AllLines(outcome.chunks));
    }
  }

  /** A run over a stream the route enqueued settles exactly as reading its
      messages does. */
  lemma ReadsEnqueued(serialize: TranslationProgress -> string, decode: Decoder, apiKey: string,
                      events: seq<TranslationProgress>)
    requires LineSafe(serialize, decode) && apiKey != ""
    ensures AfterRun(Initial, apiKey, decode, Streamed(Enqueued(serialize, events)))
         == Settled(ApplyMessages(Started, events))
  {
    EnqueuedRoundTrip(Started, serialize, decode, events);
  }

  /** Settling after a well-formed stream: loading ends and progress is
      cleared; after a complete message the page shows its result with no
      error; after an error message it shows that message and no result. */
  lemma SettlesStream(events: seq<TranslationProgress>)
    requires WellFormedStream(events)
    ensures var after := Settled(ApplyMessages(Started, events));
            var last := events[|events| - 1];
      && !after.isLoading && after.progress.None?
      && (last.kind == CompleteType ==>
            after.result == last.result && after.error.None? && after.currentStep.None?)
      && (last.kind == ErrorType ==> after.error == Some(last.error.GetOr("")) && after.result.None?)
  {
    StreamView(Started, events);
  }

  /** End to end: when every hop succeeds, the page ends showing the route's
      chain result, whose final text is the last back-translation. */
  lemma ShowsCompletedChain(p: Provider, lib: Library, original: string, start: LanguageCode, chain: seq<LanguageCode>,
                            serialize: TranslationProgress -> string, decode: Decoder, apiKey: string)
    requires LineSafe(serialize, decode) && apiKey != ""
    requires RunHops(p, lib, original, start, chain, |chain|).failure.None?
    ensures var steps := RunHops(p, lib, original, start, chain, |chain|).steps;
            var after := AfterRun(Initial, apiKey, decode, Streamed(Enqueued(serialize, StreamEvents(p, lib, original, start, chain))));
      && !after.isLoading && after.error.None? && after.progress.None?
      && |steps| == |chain|
      && after.result == Some(TranslationChainResult(original, start, lib.languageName(start), steps,
                                                     FinalText(original, steps), |chain|))
  {
    var events := StreamEvents(p, lib, original, start, chain);
    StreamEventsShape(p, lib, original, start, chain);
    CompletedRunEvents(p, lib, original, start, chain);
    ReadsEnqueued(serialize, decode, apiKey, events);
    SettlesStream(events);
  }

  /** End to end: when hop `k + 1` fails, the page ends showing the failing
      call's message and no result. */
  lemma ShowsFailedChain(p: Provider, lib: Library, original: string, start: LanguageCode, chain: seq<LanguageCode>,
                         serialize: TranslationProgress -> string, decode: Decoder, apiKey: string)
    requires LineSafe(serialize, decode) && apiKey != ""
    requires RunHops(p, lib, original, start, chain, |chain|).failure.Some?
    ensures var run := RunHops(p, lib, original, start, chain, |chain|);
            var after := AfterRun(Initial, apiKey, decode, Streamed(Enqueued(serialize, StreamEvents(p, lib, original, start, chain))));
      && !after.isLoading && after.progress.None?
      && after.error == run.failure && after.result.None?
  {
    var events := StreamEvents(p, lib, original, start, chain);
    StreamEventsShape(p, lib, original, start, chain);
    FailedRunEvents(p, lib, original, start, chain);
    ReadsEnqueued(serialize, decode, apiKey, events);
    SettlesStream(events);
  }
}
