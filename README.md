# AgroPredict input checks, modelled in Dafny

AgroPredict serves crop recommendations from pre-trained models through a REST API. This project
models the plain logic in app/utils and proves properties about it:

- **`validate_crop_params`** (app/utils/validators.py) is the one helper the application uses.
  Both prediction endpoints call it before inference. The POST route passes the JSON request body
  (app/routes/predict.py:40). The GET route passes a dictionary of the seven parameters, which it
  has already converted to floats itself (app/routes/predict.py:98-122).
  - The seven agronomic parameters `N`, `P`, `K`, `temperature`, `humidity`, `ph` and `rainfall` must be present.
  - Each must convert to a number that lies in a closed range.
  - An optional `model_type` must name one of the three models.
  - The validator answers `None` or a dictionary from key to French error message.
  - Module `Validators` (validators.dfy) holds it. `ValidateCropParams` is a method with the
    source's two loops and its early return. It is proved equal to the declarative function
    `Validation`, and the lemmas are stated about `Validation`.
- **The helpers of app/utils/security.py** are defined, but no route applies them. The served
  routes limit their request rates with flask_limiter's `limiter.limit(...)` decorators instead.
  The helpers are modelled as written:
  - `validate_input` (a whole-string regex match) and `sanitize_input` (a regex deletion) are
    recursive functions over strings in module `Security` (security.dfy).
  - The same module holds `ApiKeyAccepted`, a plain boolean function for the key check in
    `require_api_key`.
  - The sliding-window limiter inside `rate_limit` is module `RateLimit` (rate_limit.dfy).
    Class `RateLimiter` has the two module-level dictionaries as `map` fields. Its `Check`
    method updates them in place, as the source does, and is proved equal to the pure
    transition `Step`.
  - On top of `Step`, `SlidingWindowLimit` proves the limiter's purpose. If the clock does not
    go back, no IP is ever allowed more than `max_requests` requests in any window.

Abstractions:
- A payload value is a JSON value (`Value`: null, boolean, number, string, or an array or object).
- `Validators.ToFloat` is Python's `float()` as the validator uses it (validators.py:38, :44).
  - A number converts to itself.
  - `True` and `False` convert to 1.0 and 0.0.
  - A string goes through the parameter `parse`, which stands for Python's string-to-float parser.
  - `None`, an array or an object raises TypeError, which the validator catches. It is `None` here.
- `Validators.Truthy` is Python truthiness, used for `model_type` (validators.py:49).
  - `None`, `False`, zero, the empty string and an empty array or object are false.
  - Everything else is true.
- `Security.MatchesSafePattern` is `re.match` with the anchored pattern (security.py:22-24).
  Python's `$` also matches just before a final line feed. The model includes that case.
  `ValidateInputIff` proves that it changes nothing, because a line feed is whitespace.
- Python's Unicode `\w` and `\s` are a parameter `CharClasses`. `PythonClasses` states only
  what Python fixes about their ASCII part.
- Timestamps are exact `real`s read once per request (`now`).
- The client address is an `IP` string, and the HTTP 429 abort is the verdict `Rejected`.

Module `Wrappers` (wrappers.dfy) defines `Option`.

## Model

| member | source | states |
|---|---|---|
| `Validators.Validation` | app/utils/validators.py:11-52 | a non-`None` answer is a non-empty map whose keys are parameter names or `model_type`; a payload missing a parameter always gets errors and never a `model_type` error |
| `Validators.ValidateCropParams` | app/utils/validators.py:11-52 | the two loops with the early return and the `model_type` check compute exactly `Validation` |
| `Validators.MissingNoneIffAllPresent` | app/utils/validators.py:14-21 | the first loop records nothing exactly when all seven parameters are present |
| `Validators.MissingParamsReturnEarly` | app/utils/validators.py:14-21 | with a parameter missing, the answer maps exactly the missing parameters to their "est requis" messages, so no range, conversion or `model_type` error |
| `Validators.RangeTable` | app/utils/validators.py:24-32 | the table has one row per parameter, with N, P, K in [0,300], temperature in [-10,60], humidity in [0,100], ph in [0,14], rainfall in [0,500] |
| `Validators.RangeErrorIff` | app/utils/validators.py:35-43 | for a numeric value, the parameter's range error is recorded iff the value is below the minimum or above the maximum; inside the closed range nothing is recorded |
| `Validators.NonNumericGetsNumberError` | app/utils/validators.py:36-45 | a value `float()` rejects gets "doit être un nombre" for its key, which is never the range message |
| `Validators.RangeMessagesAreNotNumberMessages` | app/utils/validators.py:24-45 | no range message coincides with the conversion message of its key |
| `Validators.ErrorsAreLocal` | app/utils/validators.py:35-45 | changing the value of one present key leaves the error recorded for every other key unchanged |
| `Validators.ModelTypeErrorIff` | app/utils/validators.py:48-50 | with all parameters present, `model_type` has its error iff it is present, truthy and not one of 'gradient_boosting', 'tensorflow', 'tensorflow_lite' |
| `Validators.AbsentModelTypeNeverAnError` | app/utils/validators.py:48-50 | an absent or falsy `model_type` never gets an error |
| `Validators.AcceptedIffAcceptable` | app/utils/validators.py:11-52 | `None` is returned exactly when every parameter is present, numeric and in range and `model_type` is acceptable |
| `Validators.SampleInRange` | test/test_predict.py:17-26 | every value of the test payload lies in its range |
| `Validators.SamplePayloadAccepted` | test/test_predict.py:15-34 | the test's well-formed payload with `model_type` 'gradient_boosting' is accepted |
| `Validators.MissingPotassiumRejected` | test/test_predict.py:41-60 | the payload without K is rejected with the single error "Le paramètre 'K' est requis" |
| `Validators.HighTemperatureRejected` | test/test_predict.py:62-79 | temperature 100 is rejected with the temperature range error only |
| `Security.ValidateInput` | app/utils/security.py:11-26 | only a non-empty string can be accepted; non-strings are rejected |
| `Security.AllSafeIff` | app/utils/security.py:22-24 | the left-to-right scan accepts exactly the strings whose every character is in `[a-zA-Z0-9_\-.,\s]` |
| `Security.ValidateInputIff` | app/utils/security.py:22-26 | `validate_input(s)` holds iff `s` has at least one character and all of them are ASCII letters or digits, `_`, `-`, `.`, `,` or whitespace (the `$`-before-newline case adds nothing) |
| `Security.ValidateInputRejects` | app/utils/security.py:24-26 | a non-string and the empty string are rejected |
| `Security.Keep` | app/utils/security.py:41-42 | the filtered string is no longer than the input and consists of characters of `[\w\-.,\s]` only |
| `Security.SanitizeInput` | app/utils/security.py:28-43 | a non-string is returned as its `str()` without filtering; a string never grows |
| `Security.KeepIsSubsequence` | app/utils/security.py:41-42 | the result is a subsequence of the input: nothing inserted or reordered |
| `Security.KeepCounts` | app/utils/security.py:41-42 | each kept character occurs in the result exactly as often as in the input; no other character occurs |
| `Security.KeepUnchangedIff` | app/utils/security.py:41-42 | a string is returned unchanged iff all its characters are in the kept class |
| `Security.SanitizeIdempotent` | app/utils/security.py:28-43 | sanitizing twice equals sanitizing once |
| `Security.ValidatedIsUnchanged` | app/utils/security.py:11-43 | every string `validate_input` accepts is returned unchanged by `sanitize_input`, because `[a-zA-Z0-9_]` is part of `\w` |
| `Security.SanitizedAsciiValidates` | app/utils/security.py:11-43 | on ASCII input, `validate_input(sanitize_input(s))` holds iff the sanitized string is non-empty |
| `Security.ApiKeyAccepted` | app/utils/security.py:54-60 | a request passes only with a non-empty header equal to the configured key, always does then, and never passes when no key, or an empty key, is configured |
| `RateLimit.Prune` | app/utils/security.py:86-87 | the pruned list keeps exactly the timestamps younger than the window, each as many times as it occurs in the input, drops all others, and never grows |
| `RateLimit.Step` | app/utils/security.py:73-98 | a blocked IP is rejected and nothing changes; otherwise other IPs are untouched, every stored timestamp is inside the window or is `now`, the request is allowed iff the pruned list is shorter than `max_requests` and is then appended, otherwise the IP is blocked until `now + 600` without recording it; the per-IP length bound is preserved |
| `RateLimit.RateLimiter.constructor` | app/utils/security.py:8-9 | both dictionaries start empty |
| `RateLimit.RateLimiter.Check` | app/utils/security.py:73-98 | the in-place updates of `request_counts` and `blocked_ips` and the verdict are exactly those of `Step` |
| `RateLimit.PruneTwice` | app/utils/security.py:86-87 | pruning at an earlier time and then at a later one equals pruning at the later one |
| `RateLimit.StepSummarises` | app/utils/security.py:73-98 | one request keeps the stored timestamps of every IP equal, within any later window, to its allowed requests |
| `RateLimit.RunSummarises` | app/utils/security.py:63-100 | after any chronological sequence of requests from empty dictionaries, the stored timestamps summarise the allowed requests and respect the length bound |
| `RateLimit.PrunedAllowedCount` | app/utils/security.py:86-87 | pruning the allowed times at `t` counts the allowed requests in `(t - window, t]` |
| `RateLimit.SlidingWindowLimit` | app/utils/security.py:63-100 | with a non-decreasing clock and one window and limit, no IP gets more than `max_requests` allowed requests in any window ending at or after its last request |

## Left out

- Floating point: values are exact `real`s, so NaN and infinities are not modelled. In the source a NaN passes the range check because both comparisons are false. `float()` of a huge JSON integer raises an uncaught OverflowError, which is not modelled either.
- Python's string-to-float parser (accepting `"12"`, `" 1e3 "`, `"nan"`, ...) is the parameter `parse` of the validator. It is not defined here.
- Payloads are JSON objects: a body that is a JSON list or `null` is not modelled. On such a body the source's `param not in data` would test list membership or raise.
- Unicode `\w` and `\s` are the parameter `CharClasses`. Only their ASCII part is fixed, and only where a lemma needs it.
- `str()` of a non-string argument of `sanitize_input` is carried in `Input.Other`. It is not computed.
- RateLimit.SlidingWindowLimit: proved only for a clock that never goes back and for one window and limit shared by all requests. In the source, the dictionaries would be shared by every endpoint the decorator wrapped, whatever their parameters. No route applies the decorator. `Step` and `Check` themselves take any `now`, window and limit per call.
- The limiter reads `time.time()` twice (lines 78 and 86). The model reads one `now` for the whole request.
- The module-level dictionaries are shared between request threads without locking. Concurrency is not modelled.
- The Flask decorator plumbing is not modelled: `request.remote_addr`, `request.headers`, `current_app.config`, `abort` and the call of the wrapped endpoint become parameters and results.
- The predictor service (model loading, scaling, inference), the crop statistics service (CSV and pandas aggregation) and the HTTP routes are not part of this model. They consist of calls into machine-learning, data-frame and web libraries.
