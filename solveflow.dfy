/**
  The `solveQuiz` flow of src/ai/flows/solve-quiz-flow.ts: fetch the quiz page,
  extract its text, ask the analysis prompt for the question and the
  submission details, ask the answer prompt for an answer, fill in the
  submission template, post it and report the verdict. Every step appends to
  one log; the first step that throws ends the run with an error result.

  The network and the two prompts are not modelled: what each of them does in
  a given run is a parameter (`Outcomes`), and the run records the requests it
  makes (`Request`) so that what is and is not asked for can be stated.
*/
module SolveFlow {
  import opened Wrappers
  import opened JsValues
  import opened PageExtraction
  import Decimal
  import Base64

  /** `SolveQuizInput`: who is solving, their secret and the quiz URL. */
  datatype SolveInput = SolveInput(email: string, secret: string, url: string)

  /** What an awaited call did: returned a value or threw an error with a message. */
  datatype Call<T> = Returned(value: T) | Threw(message: string)

  /**
    An HTTP response: its status code and what reading its body with
    `response.text()` gives, the text or the error that read throws.
  */
  datatype HttpResponse = HttpResponse(status: nat, body: Call<string>)

  /** The structured output of the analysis prompt. */
  datatype Analysis = Analysis(question: string, submissionUrl: string, jsonFormat: string)

  /**
    The structured output of the answer prompt. The answer field accepts any
    value, so it may also be missing: `None` stands for `undefined`.
  */
  datatype Generation = Generation(answer: Option<Json>, reasoning: string)

  /**
    What the outside world does in one run: the page fetch, the two prompts
    (whose structured output may be missing), the submission POST and the
    reading of the submission response as JSON.
  */
  datatype Outcomes = Outcomes(
    page: Call<HttpResponse>,
    analysis: Call<Option<Analysis>>,
    generation: Call<Option<Generation>>,
    submission: Call<HttpResponse>,
    verdict: Call<Json>)

  /**
    The library steps the flow relies on: text decoding, `JSON.stringify`, and
    `JSON.parse` of the template (an object template as its map of keys).
  */
  datatype Env = Env(text: TextCodec, stringify: Json -> string, parseTemplate: string -> Option<map<string, Json>>)

  /** A request the flow makes to the outside world. */
  datatype Request =
    | Get(url: string)
    | Analyze(content: string)
    | Generate(question: string, context: string)
    | Post(target: string, payload: Json)

  /** `SolveQuizOutput`: the success fields, or the error, and always the log. */
  datatype SolveOutput =
    | Solved(finalAnswer: Option<Json>, finalUrl: string, isCorrect: Option<Json>, log: seq<string>)
    | Failed(error: string, log: seq<string>)

  /** A whole run: its result and the requests it made, in order. */
  datatype Trace = Trace(output: SolveOutput, requests: seq<Request>)

  const ErrorPrefix := "An error occurred: "
  const FetchedMsg := "Successfully fetched HTML."
  const DecodedMsg := "Decoded content successfully."
  const AnalyzingMsg := "Analyzing content to extract question and submission details..."
  const GeneratingMsg := "Generating answer..."
  const PreparingMsg := "Preparing submission payload..."
  const NoAnalysisMsg := "Could not analyze quiz content."
  const NoAnswerMsg := "Could not generate an answer."
  const BadTemplateMsg := "Failed to parse submission JSON format."
  /** What reading `.correct` off a `null` submission response throws. */
  const NullVerdictMsg := "Cannot read properties of null (reading 'correct')"

  /** `response.ok`. */
  predicate IsOk(status: nat)
  {
    200 <= status <= 299
  }

  const HttpErrorPrefix := "HTTP error! status: "
  const SubmissionPrefix := "Submission failed with status "

  /** What `fetchAndDecode` throws on a status outside 200-299: the status can be read back from it. */
  function HttpErrorMsg(status: nat): (m: string)
    ensures HttpErrorPrefix <= m
    ensures Decimal.AllDigits(m[|HttpErrorPrefix|..]) && Decimal.Value(m[|HttpErrorPrefix|..]) == status
  {
    Decimal.ValueOfShow(status);
    var m := HttpErrorPrefix + Decimal.Show(status);
    assert m[|HttpErrorPrefix|..] == Decimal.Show(status);
    m
  }

  /** Distinct statuses give distinct fetch errors. */
  lemma HttpErrorMsgInjective(s: nat, t: nat)
    requires HttpErrorMsg(s) == HttpErrorMsg(t)
    ensures s == t
  {
  }

  /**
    What a rejected submission throws: the prefix, the status, then ": " and
    the response body, each of which can be read back from it.
  */
  function SubmissionFailedMsg(status: nat, body: string): (m: string)
    ensures SubmissionPrefix <= m && |m| >= |SubmissionPrefix| + 3 + |body|
    ensures m[|m| - |body| - 2..] == ": " + body
    ensures var d := m[|SubmissionPrefix| .. |m| - |body| - 2];
      Decimal.AllDigits(d) && Decimal.Value(d) == status
  {
    Decimal.ValueOfShow(status);
    var m := SubmissionPrefix + Decimal.Show(status) + (": " + body);
    assert m[|SubmissionPrefix| .. |m| - |body| - 2] == Decimal.Show(status);
    assert m[|m| - |body| - 2..] == ": " + body;
    m
  }

  /**
    Distinct statuses or distinct bodies give distinct submission errors: the
    status digits end at the first ':' after the prefix.
  */
  lemma SubmissionFailedMsgInjective(s: nat, b: string, t: nat, c: string)
    requires SubmissionFailedMsg(s, b) == SubmissionFailedMsg(t, c)
    ensures s == t && b == c
  {
    var d, e := Decimal.Show(s), Decimal.Show(t);
    var x, y := ": " + b, ": " + c;
    assert SubmissionPrefix + (d + x) == SubmissionPrefix + (e + y);
    assert d + x == (SubmissionPrefix + (d + x))[|SubmissionPrefix|..];
    assert e + y == (SubmissionPrefix + (e + y))[|SubmissionPrefix|..];
    DigitRunsAlign(d, x, e, y);
    Decimal.ShowInjective(s, t);
    assert b == x[2..] && c == y[2..];
  }

  /** Two runs of digits, each followed by ':', that spell the same string are the same run. */
  lemma DigitRunsAlign(d: string, x: string, e: string, y: string)
    requires Decimal.AllDigits(d) && Decimal.AllDigits(e)
    requires |x| > 0 && x[0] == ':' && |y| > 0 && y[0] == ':'
    requires d + x == e + y
    ensures d == e && x == y
  {
    assert |d| == |e| by {
      assert (d + x)[|d|] == ':' && (e + y)[|e|] == ':';
    }
    assert d == (d + x)[..|d|] && e == (e + y)[..|e|];
    assert x == (d + x)[|d|..] && y == (e + y)[|e|..];
  }

  /** The keys the flow writes into the template. */
  const Injected: set<string> := {"email", "secret", "url", "answer"}

  /**
    The submission payload as posted: the parsed template with `email`,
    `secret`, `url` and `answer` set to the run's values, whether or not the
    template had them. An undefined answer is assigned as well, and
    `JSON.stringify` then leaves the `answer` key out of the body.
  */
  function Assemble(template: map<string, Json>, input: SolveInput, answer: Option<Json>): (p: map<string, Json>)
    ensures p.Keys == template.Keys + Injected - (if answer.None? then {"answer"} else {})
    ensures p["email"] == JStr(input.email) && p["secret"] == JStr(input.secret)
    ensures p["url"] == JStr(input.url)
    ensures answer.Some? ==> p["answer"] == answer.value
    ensures forall k :: k in template && k !in Injected ==> p[k] == template[k]
  {
    var p := template["email" := JStr(input.email)]["secret" := JStr(input.secret)]["url" := JStr(input.url)];
    match answer
    case Some(v) => p["answer" := v]
    case None => p - {"answer"}
  }

  /** The answer as the log line shows it: `JSON.stringify` of it, or "undefined". */
  function ShowAnswer(env: Env, answer: Option<Json>): (t: string)
    ensures answer.None? ==> t == "undefined"
    ensures answer.Some? ==> t == env.stringify(answer.value)
  {
    match answer
    case Some(v) => env.stringify(v)
    case None => "undefined"
  }

  /** The result of `fetchAndDecode`: the text or the error it throws, and the lines it logs. */
  datatype Fetched = Fetched(content: Call<string>, log: seq<string>)

  /** `fetchAndDecode`: fetch the page, fail on a status outside 200-299, else extract its text. */
  function FetchAndDecode(url: string, page: Call<HttpResponse>, codec: TextCodec): (f: Fetched)
    ensures |f.log| >= 1 && f.log[0] == "Fetching content from " + url
    ensures f.content.Returned? <==> page.Returned? && IsOk(page.value.status) && page.value.body.Returned?
    ensures page.Threw? ==> f.content == Threw(page.message) && |f.log| == 1
    ensures page.Returned? && !IsOk(page.value.status) ==> f.content == Threw(HttpErrorMsg(page.value.status)) && |f.log| == 1
    ensures page.Returned? && IsOk(page.value.status) && page.value.body.Threw? ==>
      f.content == Threw(page.value.body.message) && |f.log| == 1
    ensures f.content.Returned? ==>
      f.content.value == DecodedText(page.value.body.value, codec) && |f.log| >= 2 && f.log[1] == FetchedMsg
  {
    var log := ["Fetching content from " + url];
    match page
    case Threw(m) => Fetched(Threw(m), log)
    case Returned(r) =>
      if !IsOk(r.status) then Fetched(Threw(HttpErrorMsg(r.status)), log)
      else match r.body
        case Threw(m) => Fetched(Threw(m), log)
        case Returned(html) => Fetched(Returned(DecodedText(html, codec)), log + [FetchedMsg] + ExtractionLog(html))
  }

  /**
    The catch clause: a run that threw `message` fails with it, its log keeps
    every line so far and gains the error line, and no request is added.
  */
  function Abort(log: seq<string>, requests: seq<Request>, message: string): (t: Trace)
    ensures t.output.Failed? && t.output.error == message && t.requests == requests
    ensures log <= t.output.log && |t.output.log| == |log| + 1 && ErrorLineLast(t)
  {
    Trace(Failed(message, log + [ErrorPrefix + message]), requests)
  }

  /** What a run does, stage by stage; SolveQuiz performs it step by step. */
  function Run(input: SolveInput, o: Outcomes, env: Env): Trace
  {
    var f := FetchAndDecode(input.url, o.page, env.text);
    var log := ["Starting quiz at " + input.url] + f.log;
    var calls := [Get(input.url)];
    match f.content
    case Threw(m) => Abort(log, calls, m)
    case Returned(content) => AnalysisStage(input, o, env, content, log + [DecodedMsg], calls)
  }

  /** From the analysis prompt on, with the page text `content` and the log and requests so far. */
  function AnalysisStage(input: SolveInput, o: Outcomes, env: Env, content: string, log: seq<string>, calls: seq<Request>): Trace
  {
    var log := log + [AnalyzingMsg];
    var calls := calls + [Analyze(content)];
    match o.analysis
    case Threw(m) => Abort(log, calls, m)
    case Returned(None) => Abort(log, calls, NoAnalysisMsg)
    case Returned(Some(a)) =>
      AnswerStage(input, o, env, content, a, log + ["Question: " + a.question] + ["Submission URL: " + a.submissionUrl], calls)
  }

  /** From the answer prompt on, given the analysis `a`. */
  function AnswerStage(input: SolveInput, o: Outcomes, env: Env, content: string, a: Analysis, log: seq<string>, calls: seq<Request>): Trace
  {
    var log := log + [GeneratingMsg];
    var calls := calls + [Generate(a.question, content)];
    match o.generation
    case Threw(m) => Abort(log, calls, m)
    case Returned(None) => Abort(log, calls, NoAnswerMsg)
    case Returned(Some(g)) =>
      SubmissionStage(input, o, env, a, g, log + ["AI Answer: " + ShowAnswer(env, g.answer)] + ["AI Reasoning: " + g.reasoning], calls)
  }

  /** From the template on, given the analysis `a` and the answer `g`. */
  function SubmissionStage(input: SolveInput, o: Outcomes, env: Env, a: Analysis, g: Generation, log: seq<string>, calls: seq<Request>): Trace
  {
    var log := log + [PreparingMsg];
    match env.parseTemplate(a.jsonFormat)
    case None => Abort(log, calls, BadTemplateMsg)
    case Some(template) =>
      var log := log + ["Submitting answer to " + a.submissionUrl];
      var calls := calls + [Post(a.submissionUrl, JObj(Assemble(template, input, g.answer)))];
      match o.submission
      case Threw(m) => Abort(log, calls, m)
      case Returned(r) =>
        if !IsOk(r.status) then
          match r.body
          case Threw(m) => Abort(log, calls, m)
          case Returned(text) => Abort(log, calls, SubmissionFailedMsg(r.status, text))
        else
          match o.verdict
          case Threw(m) => Abort(log, calls, m)
          case Returned(v) =>
            var log := log + ["Submission response: " + env.stringify(v)];
            if v.JNull? then Abort(log, calls, NullVerdictMsg)
            else Trace(Solved(g.answer, input.url, Property(v, "correct"), log), calls)
  }

  /**
    The flow itself: one log that only grows, a `try` block (the labelled
    block, left by `break` where the source throws) and the catch clause after it.
  */
  method SolveQuiz(input: SolveInput, o: Outcomes, env: Env) returns (output: SolveOutput, requests: seq<Request>)
    ensures Trace(output, requests) == Run(input, o, env)
  {
    var log: seq<string> := [];
    requests := [];
    var message := "";
    var currentUrl := input.url;
    label attempt: {
      log := log + ["Starting quiz at " + currentUrl];
      requests := requests + [Get(currentUrl)];
      assert log == ["Starting quiz at " + input.url] && requests == [Get(input.url)];
      var fetched := FetchAndDecode(currentUrl, o.page, env.text);
      log := log + fetched.log;
      if fetched.content.Threw? {
        message := fetched.content.message;
        break attempt;
      }
      var content := fetched.content.value;
      log := log + [DecodedMsg];

      log := log + [AnalyzingMsg];
      requests := requests + [Analyze(content)];
      if o.analysis.Threw? {
        message := o.analysis.message;
        break attempt;
      }
      if o.analysis.value.None? {
        message := NoAnalysisMsg;
        break attempt;
      }
      var analysis := o.analysis.value.value;
      log := log + ["Question: " + analysis.question];
      log := log + ["Submission URL: " + analysis.submissionUrl];

      log := log + [GeneratingMsg];
      requests := requests + [Generate(analysis.question, content)];
      if o.generation.Threw? {
        message := o.generation.message;
        break attempt;
      }
      if o.generation.value.None? {
        message := NoAnswerMsg;
        break attempt;
      }
      var generation := o.generation.value.value;
      log := log + ["AI Answer: " + ShowAnswer(env, generation.answer)];
      log := log + ["AI Reasoning: " + generation.reasoning];

      log := log + [PreparingMsg];
      var parsed := env.parseTemplate(analysis.jsonFormat);
      if parsed.None? {
        message := BadTemplateMsg;
        break attempt;
      }
      var payload := parsed.value;
      payload := payload["email" := JStr(input.email)];
      payload := payload["secret" := JStr(input.secret)];
      payload := payload["url" := JStr(currentUrl)];
      // An undefined answer is assigned too, but leaves no key in the posted body.
      if generation.answer.Some? {
        payload := payload["answer" := generation.answer.value];
      } else {
        payload := payload - {"answer"};
      }

      log := log + ["Submitting answer to " + analysis.submissionUrl];
      requests := requests + [Post(analysis.submissionUrl, JObj(payload))];
      if o.submission.Threw? {
        message := o.submission.message;
        break attempt;
      }
      var response := o.submission.value;
      if !IsOk(response.status) {
        if response.body.Threw? {
          message := response.body.message;
          break attempt;
        }
        message := SubmissionFailedMsg(response.status, response.body.value);
        break attempt;
      }
      if o.verdict.Threw? {
        message := o.verdict.message;
        break attempt;
      }
      var verdict := o.verdict.value;
      log := log + ["Submission response: " + env.stringify(verdict)];
      if verdict.JNull? {
        message := NullVerdictMsg;
        break attempt;
      }
      output := Solved(generation.answer, currentUrl, Property(verdict, "correct"), log);
      return;
    }
    log := log + [ErrorPrefix + message];
    output := Failed(message, log);
  }

  /** The page fetch went through with a status in 200-299, and its body was read. */
  predicate Fetches(o: Outcomes)
  {
    o.page.Returned? && IsOk(o.page.value.status) && o.page.value.body.Returned?
  }

  /** The text the fetched page yields; it is what both prompts are given. */
  function PageText(o: Outcomes, env: Env): string
    requires Fetches(o)
  {
    DecodedText(o.page.value.body.value, env.text)
  }

  /** The log lines written up to and including the request for analysis. */
  function AnalysisLog(input: SolveInput, o: Outcomes): seq<string>
    requires Fetches(o)
  {
    ["Starting quiz at " + input.url]
      + (["Fetching content from " + input.url] + [FetchedMsg] + ExtractionLog(o.page.value.body.value))
      + [DecodedMsg] + [AnalyzingMsg]
  }

  /** A fetched page leads to the analysis stage, with the log written so far. */
  lemma RunReachesAnalysis(input: SolveInput, o: Outcomes, env: Env)
    requires Fetches(o)
    ensures var log := ["Starting quiz at " + input.url]
        + (["Fetching content from " + input.url] + [FetchedMsg] + ExtractionLog(o.page.value.body.value)) + [DecodedMsg];
      && Run(input, o, env) == AnalysisStage(input, o, env, PageText(o, env), log, [Get(input.url)])
      && log + [AnalyzingMsg] == AnalysisLog(input, o)
  {
  }

  /**
    A fetch that throws, answers with a status outside 200-299, or whose body
    cannot be read ends the run at once: nothing but the page was requested,
    and the log is the two opening lines and the error line.
  */
  lemma FetchFailureStops(input: SolveInput, o: Outcomes, env: Env)
    requires !Fetches(o)
    ensures var message :=
        if o.page.Threw? then o.page.message
        else if !IsOk(o.page.value.status) then HttpErrorMsg(o.page.value.status)
        else o.page.value.body.message;
      && Run(input, o, env).requests == [Get(input.url)]
      && Run(input, o, env).output
        == Failed(message, ["Starting quiz at " + input.url, "Fetching content from " + input.url, ErrorPrefix + message])
  {
  }

  /** A trace that failed closes its log with the error line. */
  predicate ErrorLineLast(t: Trace)
  {
    t.output.Failed? ==> |t.output.log| > 0 && t.output.log[|t.output.log| - 1] == ErrorPrefix + t.output.error
  }

  /** The submission stage keeps the log and the requests so far and only appends. */
  lemma SubmissionStageAppends(input: SolveInput, o: Outcomes, env: Env, a: Analysis, g: Generation, log: seq<string>, calls: seq<Request>)
    ensures var t := SubmissionStage(input, o, env, a, g, log, calls);
      log + [PreparingMsg] <= t.output.log && calls <= t.requests && ErrorLineLast(t)
  {
  }

  /** The answer stage keeps the log and the requests so far and only appends. */
  lemma AnswerStageAppends(input: SolveInput, o: Outcomes, env: Env, content: string, a: Analysis, log: seq<string>, calls: seq<Request>)
    ensures var t := AnswerStage(input, o, env, content, a, log, calls);
      && log + [GeneratingMsg] <= t.output.log
      && calls + [Generate(a.question, content)] <= t.requests
      && ErrorLineLast(t)
  {
    if o.generation.Returned? && o.generation.value.Some? {
      var g := o.generation.value.value;
      var log' := log + [GeneratingMsg] + ["AI Answer: " + ShowAnswer(env, g.answer)] + ["AI Reasoning: " + g.reasoning];
      SubmissionStageAppends(input, o, env, a, g, log', calls + [Generate(a.question, content)]);
    }
  }

  /** The analysis stage keeps the log and the requests so far and only appends. */
  lemma AnalysisStageAppends(input: SolveInput, o: Outcomes, env: Env, content: string, log: seq<string>, calls: seq<Request>)
    ensures var t := AnalysisStage(input, o, env, content, log, calls);
      && log + [AnalyzingMsg] <= t.output.log
      && calls + [Analyze(content)] <= t.requests
      && ErrorLineLast(t)
  {
    if o.analysis.Returned? && o.analysis.value.Some? {
      var a := o.analysis.value.value;
      var log' := log + [AnalyzingMsg] + ["Question: " + a.question] + ["Submission URL: " + a.submissionUrl];
      AnswerStageAppends(input, o, env, content, a, log', calls + [Analyze(content)]);
    }
  }

  /** A fetched page is analysed as the text extracted from it, after the extraction's log lines. */
  lemma FetchedTextAnalyzed(input: SolveInput, o: Outcomes, env: Env)
    requires Fetches(o)
    ensures |Run(input, o, env).requests| >= 2
    ensures Run(input, o, env).requests[..2] == [Get(input.url), Analyze(PageText(o, env))]
    ensures AnalysisLog(input, o) <= Run(input, o, env).output.log
  {
    var f := FetchAndDecode(input.url, o.page, env.text);
    var log := ["Starting quiz at " + input.url] + f.log + [DecodedMsg];
    AnalysisStageAppends(input, o, env, PageText(o, env), log, [Get(input.url)]);
    assert log + [AnalyzingMsg] == AnalysisLog(input, o);
  }

  /**
    Without analysis output the run fails with "Could not analyze quiz
    content.": the answer prompt is never called and nothing is posted.
  */
  lemma MissingAnalysisStops(input: SolveInput, o: Outcomes, env: Env)
    requires Fetches(o) && o.analysis == Returned(None)
    ensures Run(input, o, env).requests == [Get(input.url), Analyze(PageText(o, env))]
    ensures Run(input, o, env).output == Failed(NoAnalysisMsg, AnalysisLog(input, o) + [ErrorPrefix + NoAnalysisMsg])
  {
    RunReachesAnalysis(input, o, env);
  }

  /** Without an answer the run fails with "Could not generate an answer." and nothing is posted. */
  lemma MissingAnswerStops(input: SolveInput, o: Outcomes, env: Env)
    requires Fetches(o) && o.analysis.Returned? && o.analysis.value.Some? && o.generation == Returned(None)
    ensures var a := o.analysis.value.value;
      && Run(input, o, env).requests == [Get(input.url), Analyze(PageText(o, env)), Generate(a.question, PageText(o, env))]
      && Run(input, o, env).output == Failed(NoAnswerMsg, AnalysisLog(input, o)
        + ["Question: " + a.question] + ["Submission URL: " + a.submissionUrl] + [GeneratingMsg] + [ErrorPrefix + NoAnswerMsg])
  {
    RunReachesAnalysis(input, o, env);
    var a := o.analysis.value.value;
    var content := PageText(o, env);
    var log1 := AnalysisLog(input, o) + ["Question: " + a.question] + ["Submission URL: " + a.submissionUrl];
    assert Run(input, o, env) == AnswerStage(input, o, env, content, a, log1, [Get(input.url)] + [Analyze(content)]);
  }

  /** A template that does not parse fails the run before anything is posted. */
  lemma BadTemplateStops(input: SolveInput, o: Outcomes, env: Env)
    requires Fetches(o) && o.analysis.Returned? && o.analysis.value.Some?
    requires o.generation.Returned? && o.generation.value.Some?
    requires env.parseTemplate(o.analysis.value.value.jsonFormat).None?
    ensures Run(input, o, env).output.Failed? && Run(input, o, env).output.error == BadTemplateMsg
    ensures forall r :: r in Run(input, o, env).requests ==> !r.Post?
  {
  }

  /** The POST the run makes once the analysis `a`, the answer `g` and the template are in hand. */
  function PostFor(input: SolveInput, env: Env, a: Analysis, g: Generation): Option<Request>
  {
    match env.parseTemplate(a.jsonFormat)
    case None => None
    case Some(template) => Some(Post(a.submissionUrl, JObj(Assemble(template, input, g.answer))))
  }

  /**
    The requests of a run, stage by stage: the page; the analysis of its text
    if it was fetched; the answer prompt if the analysis came back; the POST if
    the answer came back and the template parsed.
  */
  function RequestsMade(input: SolveInput, o: Outcomes, env: Env): seq<Request>
  {
    if !Fetches(o) then [Get(input.url)]
    else
      var content := PageText(o, env);
      [Get(input.url), Analyze(content)]
        + if o.analysis.Threw? || o.analysis.value.None? then []
          else
            var a := o.analysis.value.value;
            [Generate(a.question, content)]
              + if o.generation.Threw? || o.generation.value.None? then []
                else match PostFor(input, env, a, o.generation.value.value)
                  case None => []
                  case Some(post) => [post]
  }

  lemma SubmissionStageRequests(input: SolveInput, o: Outcomes, env: Env, a: Analysis, g: Generation, log: seq<string>, calls: seq<Request>)
    ensures SubmissionStage(input, o, env, a, g, log, calls).requests
      == calls + match PostFor(input, env, a, g) case None => [] case Some(post) => [post]
  {
  }

  lemma AnswerStageRequests(input: SolveInput, o: Outcomes, env: Env, content: string, a: Analysis, log: seq<string>, calls: seq<Request>)
    ensures AnswerStage(input, o, env, content, a, log, calls).requests
      == calls + [Generate(a.question, content)]
        + if o.generation.Threw? || o.generation.value.None? then []
          else match PostFor(input, env, a, o.generation.value.value) case None => [] case Some(post) => [post]
  {
    if o.generation.Returned? && o.generation.value.Some? {
      var g := o.generation.value.value;
      var log' := log + [GeneratingMsg] + ["AI Answer: " + ShowAnswer(env, g.answer)] + ["AI Reasoning: " + g.reasoning];
      SubmissionStageRequests(input, o, env, a, g, log', calls + [Generate(a.question, content)]);
    }
  }

  /** The run makes exactly the requests RequestsMade lists, in that order. */
  lemma RunRequests(input: SolveInput, o: Outcomes, env: Env)
    ensures Run(input, o, env).requests == RequestsMade(input, o, env)
  {
    if Fetches(o) {
      var f := FetchAndDecode(input.url, o.page, env.text);
      var content := PageText(o, env);
      var log := ["Starting quiz at " + input.url] + f.log + [DecodedMsg] + [AnalyzingMsg];
      var calls := [Get(input.url), Analyze(content)];
      assert [Get(input.url)] + [Analyze(content)] == calls;
      if o.analysis.Returned? && o.analysis.value.Some? {
        var a := o.analysis.value.value;
        AnswerStageRequests(input, o, env, content, a, log + ["Question: " + a.question] + ["Submission URL: " + a.submissionUrl], calls);
      }
    }
  }

  /**
    Every POST is the run's last request, goes to the extracted submission URL
    and carries the assembled payload; so no POST happens unless the analysis,
    the answer and the template all came through.
  */
  lemma PostCarriesPayload(input: SolveInput, o: Outcomes, env: Env, i: nat)
    requires i < |Run(input, o, env).requests| && Run(input, o, env).requests[i].Post?
    ensures i == |Run(input, o, env).requests| - 1
    ensures Fetches(o) && o.analysis.Returned? && o.analysis.value.Some?
    ensures o.generation.Returned? && o.generation.value.Some?
    ensures var a, g := o.analysis.value.value, o.generation.value.value;
      && env.parseTemplate(a.jsonFormat).Some?
      && Run(input, o, env).requests[i] == Post(a.submissionUrl, JObj(Assemble(env.parseTemplate(a.jsonFormat).value, input, g.answer)))
  {
    RunRequests(input, o, env);
  }

  /**
    A submission answered with a status outside 200-299 fails with that status
    and the response body, or with the error that reading the body throws.
  */
  lemma SubmissionRejected(input: SolveInput, o: Outcomes, env: Env)
    requires Fetches(o) && o.analysis.Returned? && o.analysis.value.Some?
    requires o.generation.Returned? && o.generation.value.Some?
    requires env.parseTemplate(o.analysis.value.value.jsonFormat).Some?
    requires o.submission.Returned? && !IsOk(o.submission.value.status)
    ensures Run(input, o, env).output.Failed?
    ensures var r := o.submission.value;
      r.body.Returned? ==> Run(input, o, env).output.error == SubmissionFailedMsg(r.status, r.body.value)
    ensures var r := o.submission.value;
      r.body.Threw? ==> Run(input, o, env).output.error == r.body.message
  {
  }

  /** Every stage went right: the page, both prompts, the template, the POST, and a non-null JSON verdict. */
  predicate AllStagesSucceed(o: Outcomes, env: Env)
  {
    && Fetches(o)
    && o.analysis.Returned? && o.analysis.value.Some?
    && o.generation.Returned? && o.generation.value.Some?
    && env.parseTemplate(o.analysis.value.value.jsonFormat).Some?
    && o.submission.Returned? && IsOk(o.submission.value.status)
    && o.verdict.Returned? && !o.verdict.value.JNull?
  }

  /**
    A run succeeds exactly when every stage does; its result then holds the
    answer, the input URL (never reassigned) and the verdict's `correct` field.
  */
  lemma SuccessShape(input: SolveInput, o: Outcomes, env: Env)
    ensures Run(input, o, env).output.Solved? <==> AllStagesSucceed(o, env)
    ensures AllStagesSucceed(o, env) ==>
      var out := Run(input, o, env).output;
      && out.finalAnswer == o.generation.value.value.answer
      && out.finalUrl == input.url
      && out.isCorrect == Property(o.verdict.value, "correct")
  {
  }

  /** The log lines a submission stage adds when the POST is accepted and its response is not null. */
  lemma SubmissionSolvedLog(input: SolveInput, o: Outcomes, env: Env, a: Analysis, g: Generation, log: seq<string>, calls: seq<Request>)
    requires env.parseTemplate(a.jsonFormat).Some?
    requires o.submission.Returned? && IsOk(o.submission.value.status)
    requires o.verdict.Returned? && !o.verdict.value.JNull?
    ensures SubmissionStage(input, o, env, a, g, log, calls).output.log
      == log + [PreparingMsg] + ["Submitting answer to " + a.submissionUrl] + ["Submission response: " + env.stringify(o.verdict.value)]
  {
  }

  /** The full log of a successful run, one line per step, in order. */
  lemma SuccessLog(input: SolveInput, o: Outcomes, env: Env)
    requires AllStagesSucceed(o, env)
    ensures var a, g := o.analysis.value.value, o.generation.value.value;
      Run(input, o, env).output.log == AnalysisLog(input, o)
        + ["Question: " + a.question] + ["Submission URL: " + a.submissionUrl] + [GeneratingMsg]
        + ["AI Answer: " + ShowAnswer(env, g.answer)] + ["AI Reasoning: " + g.reasoning] + [PreparingMsg]
        + ["Submitting answer to " + a.submissionUrl] + ["Submission response: " + env.stringify(o.verdict.value)]
  {
    RunReachesAnalysis(input, o, env);
    var a, g := o.analysis.value.value, o.generation.value.value;
    var content := PageText(o, env);
    var log1 := AnalysisLog(input, o) + ["Question: " + a.question] + ["Submission URL: " + a.submissionUrl];
    var calls1 := [Get(input.url)] + [Analyze(content)];
    assert Run(input, o, env) == AnswerStage(input, o, env, content, a, log1, calls1);
    var log2 := log1 + [GeneratingMsg] + ["AI Answer: " + ShowAnswer(env, g.answer)] + ["AI Reasoning: " + g.reasoning];
    var calls2 := calls1 + [Generate(a.question, content)];
    assert Run(input, o, env) == SubmissionStage(input, o, env, a, g, log2, calls2);
    SubmissionSolvedLog(input, o, env, a, g, log2, calls2);
  }

  /**
    An answer prompt that leaves the answer undefined still gets through: the
    log shows "AI Answer: undefined", the posted payload has no `answer` key,
    and the result carries no final answer.
  */
  lemma UndefinedAnswerOmitted(input: SolveInput, o: Outcomes, env: Env)
    requires AllStagesSucceed(o, env) && o.generation.value.value.answer.None?
    ensures "AI Answer: " + "undefined" in Run(input, o, env).output.log
    ensures Run(input, o, env).output.Solved? && Run(input, o, env).output.finalAnswer.None?
    ensures var r := Run(input, o, env).requests;
      |r| > 0 && r[|r| - 1].Post? && r[|r| - 1].payload.JObj? && "answer" !in r[|r| - 1].payload.fields
  {
    SuccessShape(input, o, env);
    UndefinedAnswerLogged(input, o, env);
    UndefinedAnswerNotPosted(input, o, env);
  }

  lemma UndefinedAnswerLogged(input: SolveInput, o: Outcomes, env: Env)
    requires AllStagesSucceed(o, env) && o.generation.value.value.answer.None?
    ensures "AI Answer: " + "undefined" in Run(input, o, env).output.log
  {
    SuccessLog(input, o, env);
    var a, g := o.analysis.value.value, o.generation.value.value;
    var upTo := AnalysisLog(input, o) + ["Question: " + a.question] + ["Submission URL: " + a.submissionUrl] + [GeneratingMsg]
      + ["AI Answer: " + ShowAnswer(env, g.answer)];
    assert "AI Answer: " + "undefined" in upTo;
  }

  lemma UndefinedAnswerNotPosted(input: SolveInput, o: Outcomes, env: Env)
    requires AllStagesSucceed(o, env) && o.generation.value.value.answer.None?
    ensures var r := Run(input, o, env).requests;
      |r| > 0 && r[|r| - 1].Post? && r[|r| - 1].payload.JObj? && "answer" !in r[|r| - 1].payload.fields
  {
    RunRequests(input, o, env);
  }


  /** A failed run keeps its opening line and closes its log with the error line. */
  lemma FailureShape(input: SolveInput, o: Outcomes, env: Env)
    requires Run(input, o, env).output.Failed?
    ensures var out := Run(input, o, env).output;
      && |out.log| >= 3
      && out.log[0] == "Starting quiz at " + input.url
      && out.log[|out.log| - 1] == ErrorPrefix + out.error
  {
    if Fetches(o) {
      FetchedTextAnalyzed(input, o, env);
      var f := FetchAndDecode(input.url, o.page, env.text);
      AnalysisStageAppends(input, o, env, PageText(o, env), ["Starting quiz at " + input.url] + f.log + [DecodedMsg], [Get(input.url)]);
    }
  }

  /** A null submission response fails the run after its "Submission response: null" style line is logged. */
  lemma NullVerdictFails(input: SolveInput, o: Outcomes, env: Env)
    requires Fetches(o) && o.analysis.Returned? && o.analysis.value.Some?
    requires o.generation.Returned? && o.generation.value.Some?
    requires env.parseTemplate(o.analysis.value.value.jsonFormat).Some?
    requires o.submission.Returned? && IsOk(o.submission.value.status)
    requires o.verdict == Returned(JNull)
    ensures var out := Run(input, o, env).output;
      && out == Failed(NullVerdictMsg, out.log)
      && |out.log| >= 2
      && out.log[|out.log| - 2] == "Submission response: " + env.stringify(JNull)
  {
  }

  /** On the worked example page the analysis prompt is given the decoded JSON text {"q":1}. */
  lemma WorkedExampleAnalyzed(input: SolveInput, o: Outcomes, env: Env, page: string, e: string, json: seq<Base64.byte>, text: string)
    requires e == "eyJxIjoxfQ=="
    requires page == ScriptOpen + ("const x = " + CallOpen + e + CallClose + ";") + ScriptClose
    requires json == [123, 34, 113, 34, 58, 49, 125]
    requires text == "{\"q\":1}"
    requires ReadsAscii(env.text)
    requires o.page == Returned(HttpResponse(200, Returned(page)))
    ensures var r := Run(input, o, env).requests;
      |r| >= 2 && r[1] == Analyze(text)
  {
    WorkedExamplePage(page, e, json, text, env.text);
    assert Fetches(o);
    assert PageText(o, env) == text;
    FetchedTextAnalyzed(input, o, env);
    var r := Run(input, o, env).requests;
    assert r[1] == r[..2][1];
  }
}
