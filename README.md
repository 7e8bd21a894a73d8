# TestCaseGenerator: a Dafny model of its credential cache and request workflow

The program is a small Streamlit front-end. A user pastes code and names its
programming language. One chat-model call checks that name. A second call
drafts test cases, and the first `n` lines of the answer are shown. Both calls
go through an Azure OpenAI client, which authenticates with a bearer token.
An `AzureAI` object caches that token and renews it through an OAuth2
client-credentials exchange.

This project models three pieces of that logic and proves properties of them.

- **Credential cache** (`credentials.dfy`, module `Credentials`). `AzureAI` is
  a class with the two mutable fields of the source, `token` and
  `tokenExpiresAt`. `GetToken(now)` either returns the cached token or makes
  exactly one exchange at the token endpoint, and then stores what the
  endpoint answered. The endpoint is a class `OAuth2Session`, which each `AzureAI` creates
  for itself. Its `answer(k)` is what its k-th exchange returns, and its `exchanges` field
  counts the exchanges made so far. So "no fetch" and "exactly one fetch" are
  statements about that counter. Time is an integer argument.
- **Language check and generation** (`app.dfy`, module `App`).
  `DetectLanguage`, `ValidateLanguage` and `GenerateTestCases` are functions
  of the chat model's reply. A reply is either the content text or the
  exception the call raised. The two exception classes the controller tells
  apart are modelled as `ValueError` and `GenericException`.
- **Request controller** (`App.Run`). `TestCaseApp.run` is a method with the
  source's early returns. It returns an `Outcome`, with one case per branch,
  and `asked`, the prompts sent to the chat model in order. The chat model is
  a function from `Prompt` to `Reply`. A prompt records only what it embeds:
  the code, or the declared language and the code.

`text.dfy` (module `Text`) models the Python string operations these rely on:
`strip()` (with Python's whitespace set), `lower()`, `split("\n")`,
`"\n".join(...)` and the slice `[:n]`. `wrappers.dfy` holds `Option` and
`Result`.

## Notes on behaviour

The model follows the code in each of these points.

- The cached token is used while `expires_at + LEEWAY > now`
  (azureai.py:25). The leeway is added, not subtracted. So a token stays in
  use for up to `LEEWAY` seconds after it has expired. It is never renewed
  early. With `expires_at` 1000 and leeway 100, the cached token is still
  used at 950, and it is replaced from 1100 on (`LeewayScenario`).
- Python truthiness applies to the cached token. `None` (the initial value)
  and `""` both force an exchange.
- The answer is read only after the exchange returns, so a failed exchange
  leaves both fields unchanged. An answer with no `expires_at` behaves
  differently. `expires_at` is absent when the answer carries
  neither `expires_in` nor `expires_at`. In that case `_token` is assigned (line 36), and then reading
  `expires_at` raises `KeyError` (line 37). The new token is kept with the
  old expiry. The model has this as `Granted(t, None)`, which yields
  `MissingExpiresAt`.
- The count check `num_test_cases > max_test_cases` runs after the
  validation call (app.py:120). It never runs before any external call.
- Only the declared language is stripped (app.py:88). Code made only of
  whitespace passes the emptiness check (app.py:100).
- The generation prompt gets the user's stripped language, not the detected
  one (app.py:124). Splitting and truncating happen in `run`
  (app.py:127-129); the generator only strips the reply (app.py:66).
- The number widget limits the requested count to 1..`max_test_cases`
  (app.py:92-94), so the too-many branch (app.py:120-122) cannot be reached
  from the page. `Run` takes any integer count, so that branch and counts
  below 1 stay reachable in the model; `Truncate` gives the empty text for 0
  and Python's slice for negative counts.
- A declared language with whitespace at an end can never validate
  (`ValidationNeedsTrimmedName`). `run` strips it first, so this never
  happens there.
- Both `LanguageValidator` and `TestCaseGenerator` store `openai_engine`
  and never read it (app.py:14-15, 49-50). Every call goes through the
  module-level `llm` created once at app.py:8. No member of the model
  depends on the engine name.

## Model

| member | source | states |
|---|---|---|
| `Credentials.Truthy` | azureai.py:25 | Python truthiness of the cached token: false exactly for `None` and `""` |
| `Credentials.CacheHit` | azureai.py:25 | the cache is used only for a truthy token, and then exactly while `expires_at + leeway > now`; `EmptyTokenNeverHits`, `LeewayExtendsValidity`, `CacheHitMonotone` and `LeewayScenario` characterise it |
| `Credentials.OAuth2Session.constructor` | azureai.py:20-22 | a new session has made no exchange and answers with the given function |
| `Credentials.OAuth2Session.FetchToken` | azureai.py:30-35 | one exchange: the counter goes up by one, and the result is the endpoint's answer for that exchange |
| `Credentials.AzureAI.constructor` | azureai.py:14-22 | a new instance holds no token and expiry 0, so no time counts as a cache hit, and has its own new session, which has made no exchange |
| `Credentials.AzureAI.GetToken` | azureai.py:24-38 | with a non-empty token and `expires_at + leeway > now`: returns it, changes nothing, makes no exchange; otherwise exactly one exchange: a refusal propagates and changes nothing, a grant stores token and expiry and returns the new token, a grant without `expires_at` stores the token only and raises |
| `Credentials.AzureAI.GetClient` | azureai.py:52-64 | has exactly the effect of one `GetToken`, and the handle's API key is the token it returned |
| `Credentials.EmptyTokenNeverHits` | azureai.py:25 | an absent or empty cached token forces an exchange at any time |
| `Credentials.LeewayExtendsValidity` | azureai.py:25 | a token with `expires_at <= now < expires_at + leeway` is still returned from the cache |
| `Credentials.CacheHitMonotone` | azureai.py:25 | a cache hit stays a hit at every earlier time and for every larger leeway |
| `Credentials.LeewayScenario` | azureai.py:25 | expiry 1000, leeway 100: cached at 850, 950 and 1099; exchanged at 1100 |
| `Credentials.FirstGetTokenExchanges` | azureai.py:14-38 | the first `GetToken` of a new instance makes exactly one exchange, its session's first; when it succeeds, the cache becomes the granted token and expiry |
| `Credentials.GetTokenTwice` | azureai.py:24-38 | two calls at the same time return the same token with at most one exchange, whenever the token was already usable, or the endpoint granted a non-empty token with an `expires_at` whose sum with the leeway lies after `now` |
| `Text.Strip` | app.py:88 | Python `strip()`: the result has no whitespace at either end, and `s` is the result with only whitespace before and after it |
| `Text.StripUnique` | app.py:88 | those two properties determine `strip()`'s result uniquely |
| `Text.StripIdempotent` | app.py:66 | stripping twice is stripping once |
| `Text.LowerChar` | app.py:28 | `lower()` of one character: an ASCII or Latin-1 capital becomes its small letter, as given by a separate table of small letters; every other character is kept; the result is never such a capital |
| `Text.Lower` | app.py:38 | `lower()` keeps the length and maps each character by `LowerChar`; `LowerIdempotent` and `LowerKeepsTrimmed` characterise it further |
| `Text.LowerIdempotent` | app.py:38 | lower-casing twice is lower-casing once |
| `Text.LowerKeepsTrimmed` | app.py:28 | a string has whitespace at its ends exactly when its lower case does |
| `Text.Normalize` | app.py:28 | `strip().lower()`: the result is the lower case of `s` with whitespace runs removed from its ends; it has no whitespace at its ends, is its own lower case and is no longer than the input |
| `Text.NormalizeIdempotent` | app.py:28 | `strip().lower()` of a `strip().lower()` result changes nothing |
| `Text.Split` | app.py:127 | `split("\n")` yields at least one piece, and no piece holds the separator |
| `Text.Join` | app.py:129 | `"\n".join(parts)`: the first piece starts the result, a separator follows it when there is a second piece, and there are at least as many characters as separators; `JoinSplit`, `SplitJoin` and `JoinPrefix` characterise it |
| `Text.JoinSplit` | app.py:127-129 | joining the pieces of a split gives back the original text |
| `Text.SplitJoin` | app.py:127-129 | splitting a join of separator-free pieces gives back the pieces |
| `Text.JoinPrefix` | app.py:127-129 | joining the first `k` pieces gives a prefix of joining them all |
| `Text.SliceTo` | app.py:127 | Python `l[:n]` is a prefix of `l` with `min(n, len(l))` elements for `n >= 0`, and drops the last `-n` for `n < 0` |
| `App.MismatchMessage` | app.py:39-41 | the mismatch message starts with its fixed lead, ends with `'.`, and its length is that of the fixed text plus both names |
| `App.MismatchMessageQuotesBoth` | app.py:39-41 | the mismatch message contains both the declared and the detected language |
| `App.DetectLanguage` | app.py:17-31 | a reply yields a result with no surrounding whitespace that is already lower case, namely the lower case of the reply with its whitespace ends removed; a failed call becomes the generic exception "Error during language detection: ..." |
| `App.DetectedIsNormal` | app.py:28 | a detected language is a fixed point of `strip().lower()` |
| `App.ValidateLanguage` | app.py:33-42 | returns normally iff the detected language equals the lower-cased declared one, and then returns it; a mismatch raises `ValueError` with the message built from the original declared and the detected string; only a failed call raises the generic exception, and it is the exception of `DetectLanguage` unchanged |
| `App.ValidationIgnoresCase` | app.py:38 | declared names with the same lower case pass or fail together, with the same result |
| `App.ValidationNeedsTrimmedName` | app.py:38 | validation can only pass when the declared name has no whitespace at its ends |
| `App.PythonScenario` | app.py:33-42 | declared "Python", model answers "python": validation returns "python" |
| `App.JavaScenario` | app.py:33-42 | declared "Java", model answers "python": `ValueError` with the message for ("Java", "python") |
| `App.GenerateTestCases` | app.py:52-68 | a reply yields its text with whitespace ends removed; a failed call becomes the generic exception "Error during test case generation: ..." |
| `App.Truncate` | app.py:127-129 | the shown text is a prefix of the generated text; for `n >= 1` its lines are the first `min(n, lines)` lines; if `n` covers every line it is the whole text; for `n == 0` it is empty |
| `App.Run` | app.py:80-132 | not pressed, empty language (after strip) or empty code: no model call. Otherwise one detection call; a mismatch or a detection failure ends the run before any generation call, and so does a count above the maximum, checked after that call. Only then one generation call, whose failure is reported; on success the truncated stripped reply is shown, tagged with the declared language |
| `App.DefaultMaximumScenario` | app.py:120-121 | with the default maximum of 10, a request for 11 test cases whose language validates ends as too many, after the detection call only |

## Left out

- Streamlit rendering: titles, widgets, spinners, the success line with `capitalize()`, and the exact `st.error` texts (app.py:84-96, 106-132). Only the outcome of each branch is modelled, and the button press is a boolean argument.
- The prompt texts and the LangChain/HTTP calls (app.py:21-27, 56-65; azureai.py:54-63). These are foreign calls. A prompt is modelled only by what it embeds, and the model's reply is an arbitrary function of it. The prompt's own ceiling of 20 test cases is part of that text and is not modelled.
- The `logger.info` line written before each exchange (azureai.py:29). Logging has no effect on the result or the cache.
- The OAuth2 client-credentials exchange itself (section 4.4 of RFC 6749, via requests_oauthlib; azureai.py:20-22, 30-35). Only its outcome is modelled: a refusal, or a token with or without `expires_at`.
- `datetime.now()` and the float conversions of `LEEWAY` and of the timestamps (azureai.py:25). Time, expiry and leeway are integers passed in.
- appconfig.py. It handles environment and `.env` loading and configuration parsing; the model receives the leeway and the maximum count as values.
- `get_embedding_client`, `get_Chain`, `get_serpapi`, `authenticate_twitter` (azureai.py:41-97). These are thin wrappers over external SDKs.
- `Credentials.ChatClient`: the handle records only its API key. The API version, deployment, endpoint, temperature and token budget from configuration are not modelled.
- The module-level start-up code (app.py:5-8) and the `__main__` block (app.py:135-142). `Run` takes the application values and the chat model as arguments. `DEFAULT_MAX_TEST_CASES` is the default maximum of 10.
- The race on `_token` and `_token_expires_at` between concurrent requests. The code has no locking, and each call is modelled as one atomic step.
- `Text.Lower`: maps only the ASCII and Latin-1 capitals. Python's full Unicode lower-casing, including characters that lower-case to two characters, is not modelled.
- Reply contents that are not strings, and token answers whose `access_token` is not a string. These are outside the types of the model.
