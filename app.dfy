/**
 * The request workflow of app.py: check the declared language of a code
 * snippet with one chat-model call, then ask the model for test cases and
 * show the first `n` lines of its answer.
 *
 * The chat model is the module-level client every call goes through; here it
 * is a function from the prompt to the reply (its text, or the exception it
 * raised). The UI widgets are reduced to their values: whether the button was
 * pressed, the two text fields and the requested count.
 */
module App {
  import opened Wrappers
  import opened Text

  /** What a prompt embeds: the code alone, or the declared language and the code. */
  datatype Prompt =
    | DetectPrompt(code: string)
    | GeneratePrompt(language: string, code: string)

  /** One call of the chat model: the reply's content, or the message of the exception raised. */
  datatype Reply = Answered(content: string) | Failed(cause: string)

  /** The two exception classes the controller tells apart. `ValueError` is caught first. */
  datatype PyError = ValueError(message: string) | GenericException(message: string)

  const NEWLINE: char := '\n'
  const DETECT_FAILURE_LEAD: string := "Error during language detection: "
  const GENERATE_FAILURE_LEAD: string := "Error during test case generation: "
  const MISMATCH_LEAD: string := "The input programming language '"
  const MISMATCH_MIDDLE: string := "' does not match the detected language '"
  const MISMATCH_END: string := "'."
  const DEFAULT_MAX_TEST_CASES: int := 10

  /** Both classes store the engine name they are given and never read it. */
  datatype LanguageValidator = LanguageValidator(openaiEngine: string)
  datatype TestCaseGenerator = TestCaseGenerator(openaiEngine: string)
  datatype TestCaseApp = TestCaseApp(validator: LanguageValidator, generator: TestCaseGenerator, maxTestCases: int)

  /** The message of the `ValueError` raised on a mismatch. */
  function MismatchMessage(expected: string, detected: string): (r: string)
    ensures MISMATCH_LEAD <= r
    ensures |r| == |MISMATCH_LEAD| + |expected| + |MISMATCH_MIDDLE| + |detected| + |MISMATCH_END|
    ensures r[|r| - |MISMATCH_END|..] == MISMATCH_END
  {
    MISMATCH_LEAD + expected + MISMATCH_MIDDLE + detected + MISMATCH_END
  }

  /** The mismatch message quotes both the declared and the detected language. */
  lemma MismatchMessageQuotesBoth(expected: string, detected: string)
    ensures Infix(expected, MismatchMessage(expected, detected))
    ensures Infix(detected, MismatchMessage(expected, detected))
  {
    var m := MismatchMessage(expected, detected);
    var i := |MISMATCH_LEAD|;
    var j := i + |expected| + |MISMATCH_MIDDLE|;
    assert m[i..][..|expected|] == expected;
    assert m[j..][..|detected|] == detected;
  }

  /**
   * `detect_language`: the reply's content with surrounding whitespace
   * removed and lower-cased; any failure of the call is re-raised as a
   * generic exception.
   */
  function DetectLanguage(reply: Reply): (r: Result<string, PyError>)
    ensures r.Ok? <==> reply.Answered?
    ensures r.Ok? ==> Trimmed(r.value) && Lower(r.value) == r.value
    ensures r.Ok? ==> exists t :: StrippedFrom(t, reply.content) && Lower(t) == r.value
    ensures r.Err? ==> r.error == GenericException(DETECT_FAILURE_LEAD + reply.cause)
  {
    match reply
    case Answered(c) =>
      LowerKeepsTrimmed(Strip(c));
      LowerIdempotent(Strip(c));
      Ok(Normalize(c))
    case Failed(cause) => Err(GenericException(DETECT_FAILURE_LEAD + cause))
  }

  /** A detected language is a fixed point of `strip().lower()`. */
  lemma DetectedIsNormal(reply: Reply)
    requires DetectLanguage(reply).Ok?
    ensures Normalize(DetectLanguage(reply).value) == DetectLanguage(reply).value
  {
    NormalizeIdempotent(reply.content);
  }

  /**
   * `validate_language`: succeeds, returning the detected language, exactly
   * when it equals the lower-cased declared language; a mismatch raises a
   * `ValueError`, a failed detection the generic exception of `DetectLanguage`.
   */
  function ValidateLanguage(expected: string, reply: Reply): (r: Result<string, PyError>)
    ensures r.Ok? <==> DetectLanguage(reply).Ok? && DetectLanguage(reply).value == Lower(expected)
    ensures r.Ok? ==> r.value == Lower(expected)
    ensures r.Err? && r.error.ValueError? <==>
              DetectLanguage(reply).Ok? && DetectLanguage(reply).value != Lower(expected)
    ensures r.Err? && r.error.ValueError? ==>
              r.error.message == MismatchMessage(expected, DetectLanguage(reply).value)
    ensures r.Err? && r.error.GenericException? <==> reply.Failed?
    ensures reply.Failed? ==> r == DetectLanguage(reply)
  {
    match DetectLanguage(reply)
    case Err(e) => Err(e)
    case Ok(detected) =>
      if detected != Lower(expected) then Err(ValueError(MismatchMessage(expected, detected)))
      else Ok(detected)
  }

  /** The comparison ignores case: declared names with the same lower case pass or fail together. */
  lemma ValidationIgnoresCase(expected1: string, expected2: string, reply: Reply)
    requires Lower(expected1) == Lower(expected2)
    ensures ValidateLanguage(expected1, reply).Ok? <==> ValidateLanguage(expected2, reply).Ok?
    ensures ValidateLanguage(expected1, reply).Ok? ==> ValidateLanguage(expected1, reply) == ValidateLanguage(expected2, reply)
  {
  }

  /** A declared language with whitespace at an end never validates, since the detected one is stripped. */
  lemma ValidationNeedsTrimmedName(expected: string, reply: Reply)
    requires ValidateLanguage(expected, reply).Ok?
    ensures Trimmed(expected)
  {
    assert Trimmed(DetectLanguage(reply).value);
    assert DetectLanguage(reply).value == Lower(expected);
    LowerKeepsTrimmed(expected);
  }

  /**
   * `generate_test_cases`: the reply's content with surrounding whitespace
   * removed; any failure of the call is re-raised as a generic exception.
   */
  function GenerateTestCases(reply: Reply): (r: Result<string, PyError>)
    ensures r.Ok? <==> reply.Answered?
    ensures r.Ok? ==> Trimmed(r.value) && Strip(r.value) == r.value
    ensures r.Ok? ==> StrippedFrom(r.value, reply.content)
    ensures r.Err? ==> r.error == GenericException(GENERATE_FAILURE_LEAD + reply.cause)
  {
    match reply
    case Answered(c) =>
      StripTrimmed(Strip(c));
      Ok(Strip(c))
    case Failed(cause) => Err(GenericException(GENERATE_FAILURE_LEAD + cause))
  }

  /**
   * The text shown for a request of `n` test cases: the first `n` lines of
   * `s`, joined again by newlines. It is a prefix of `s`; for `n >= 1` its
   * lines are exactly the first `min(n, lines of s)` lines of `s`, and when
   * `n` covers every line it is `s` itself.
   */
  function Truncate(s: string, n: int): (r: string)
    ensures r <= s
    ensures n >= 1 ==> Split(r, NEWLINE) == SliceTo(Split(s, NEWLINE), n)
    ensures n >= 1 ==> |Split(r, NEWLINE)| == Min(n, |Split(s, NEWLINE)|)
    ensures n >= |Split(s, NEWLINE)| ==> r == s
    ensures n == 0 ==> r == []
  {
    var lines := Split(s, NEWLINE);
    var kept := SliceTo(lines, n);
    assert kept == lines[..|kept|];
    JoinPrefix(lines, |kept|, NEWLINE);
    JoinSplit(s, NEWLINE);
    if n >= 1 then
      SplitJoin(kept, NEWLINE);
      Join(kept, NEWLINE)
    else
      Join(kept, NEWLINE)
  }

  /** The result of one request cycle, one case per branch of the controller. */
  datatype Outcome =
    | Idle                                   // the button was not pressed
    | EmptyLanguage
    | EmptyCode
    | Mismatch(message: string)              // the `ValueError` of validation
    | DetectFail(message: string)            // any other exception of validation
    | TooMany(max: int)
    | GenFail(message: string)
    | Shown(text: string, language: string)  // the text and the language it is tagged with

  /** The button was pressed and neither field is empty (the language after stripping). */
  predicate Submitted(pressed: bool, languageInput: string, codeInput: string) {
    pressed && Strip(languageInput) != [] && codeInput != []
  }

  /**
   * `TestCaseApp.run` for one request. `asked` lists the prompts sent to the
   * chat model, in order.
   */
  method Run(app: TestCaseApp, pressed: bool, languageInput: string, codeInput: string,
             numTestCases: int, llm: Prompt -> Reply)
    returns (outcome: Outcome, asked: seq<Prompt>)
    ensures !pressed ==> outcome == Idle && asked == []
    ensures pressed && Strip(languageInput) == [] ==> outcome == EmptyLanguage && asked == []
    ensures pressed && Strip(languageInput) != [] && codeInput == [] ==> outcome == EmptyCode && asked == []
    ensures Submitted(pressed, languageInput, codeInput) ==>
              var language := Strip(languageInput);
              var detect := DetectPrompt(codeInput);
              var generate := GeneratePrompt(language, codeInput);
              match ValidateLanguage(language, llm(detect))
              case Err(ValueError(m)) => outcome == Mismatch(m) && asked == [detect]
              case Err(GenericException(m)) => outcome == DetectFail(m) && asked == [detect]
              case Ok(_) =>
                if numTestCases > app.maxTestCases then
                  outcome == TooMany(app.maxTestCases) && asked == [detect]
                else
                  asked == [detect, generate] &&
                  match GenerateTestCases(llm(generate))
                  case Err(e) => outcome == GenFail(e.message)
                  case Ok(s) => outcome == Shown(Truncate(s, numTestCases), language)
    // generation is asked for only once validation passed and the count is within the maximum
    ensures |asked| <= 2
    ensures |asked| >= 1 ==> asked[0] == DetectPrompt(codeInput)
    ensures |asked| == 2 <==> outcome.GenFail? || outcome.Shown?
    ensures |asked| == 2 ==> asked[1] == GeneratePrompt(Strip(languageInput), codeInput)
    ensures outcome.Mismatch? || outcome.DetectFail? || outcome.TooMany? ==> asked == [DetectPrompt(codeInput)]
    ensures outcome.Shown? ==>
              && numTestCases <= app.maxTestCases
              && Lower(outcome.language) == DetectLanguage(llm(DetectPrompt(codeInput))).value
              && llm(GeneratePrompt(outcome.language, codeInput)).Answered?
              && outcome.text <= Strip(llm(GeneratePrompt(outcome.language, codeInput)).content)
  {
    if !pressed {
      return Idle, [];
    }
    var language := Strip(languageInput);
    if language == [] {
      return EmptyLanguage, [];
    }
    if codeInput == [] {
      return EmptyCode, [];
    }

    var detect := DetectPrompt(codeInput);
    asked := [detect];
    var validation := ValidateLanguage(language, llm(detect));
    match validation {
      case Err(ValueError(m)) =>
        return Mismatch(m), asked;
      case Err(GenericException(m)) =>
        return DetectFail(m), asked;
      case Ok(_) =>
    }

    if numTestCases > app.maxTestCases {
      return TooMany(app.maxTestCases), asked;
    }
    var generate := GeneratePrompt(language, codeInput);
    asked := asked + [generate];
    var generated := GenerateTestCases(llm(generate));
    match generated {
      case Err(e) =>
        outcome := GenFail(e.message);
      case Ok(s) =>
        outcome := Shown(Truncate(s, numTestCases), language);
    }
  }

  /** With the declared name "Python" and the model answering "python", validation returns "python". */
  lemma PythonScenario()
    ensures ValidateLanguage("Python", Answered("python")) == Ok("python")
  {
    assert Lower("Python") == "python";
    StripTrimmed("python");
  }

  /** With the declared name "Java" and the model answering "python", validation raises the mismatch. */
  lemma JavaScenario()
    ensures ValidateLanguage("Java", Answered("python")) == Err(ValueError(MismatchMessage("Java", "python")))
  {
    StripTrimmed("python");
    assert Lower("python") == "python";
    assert DetectLanguage(Answered("python")) == Ok("python");
    assert Lower("Java")[0] == 'j';
  }

  /**
   * An application built with the default maximum of 10 refuses a request
   * for 11 test cases once the language is validated, without asking for
   * generation.
   */
  method DefaultMaximumScenario(validator: LanguageValidator, generator: TestCaseGenerator,
                                code: string, llm: Prompt -> Reply)
    returns (outcome: Outcome, asked: seq<Prompt>)
    requires code != []
    requires llm(DetectPrompt(code)) == Answered("python")
    ensures outcome == TooMany(10) && asked == [DetectPrompt(code)]
  {
    StripTrimmed("Python");
    PythonScenario();
    outcome, asked := Run(TestCaseApp(validator, generator, DEFAULT_MAX_TEST_CASES), true, "Python", code, 11, llm);
  }
}
