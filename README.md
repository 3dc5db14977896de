# HIBP MCP server: rate limiter and tool logic in Dafny

This project models the core of the Have I Been Pwned MCP server. The server
exposes three tools over MCP:

- "HIBP-Breaches" and "HIBP-Pastes" call the HIBP v3 API. Each needs the API key
  and passes through a shared sliding-window rate limiter before its request.
- "HIBP-PwnedPasswords" checks a password against the Pwned Passwords range API.
  It uses k-anonymity: only the first five hex digits of the password's SHA-1
  digest leave the machine.

The modules follow the program's structure:

| module | file | models |
|---|---|---|
| `Wrappers` | `wrappers.dfy` | `Option` and `Result` |
| `Text` | `text.dfy` | the JavaScript string and number primitives the handlers use: `toString(16)`, `padStart`, `toUpperCase`, `substring`, `split`, `parseInt`, decimal rendering |
| `RateLimiting` | `rate_limiter.dfy` | `RateLimitConfig`, `SUBSCRIPTION_PLANS`, the pruning filter, one `throttle()` call as the specification function `Admit`, and the `RateLimiter` class whose `Throttle` method updates its timestamp list in place and is proved equal to `Admit` |
| `RateLimitRuns` | `rate_limiter_runs.dfy` | sequences of `throttle()` calls: the quota over every 60-second window of the admission history, a driver loop that ties the object to the run function, and the two scenarios of the limiter's unit tests |
| `PlanSelection` | `plan_selection.dfy` | choosing the plan from `HIBP_SUBSCRIPTION_PLAN`, the fallback, the warning, and the lookup exactly as written (see Findings) |
| `HibpTools` | `hibp_tools.dfy` | the breaches and pastes handlers: API-key check, exactly one `throttle()`, request URL construction, HTTP status classification |
| `PwnedPasswords` | `pwned_passwords.dfy` | the range query derived from the digest, the scan of the `SUFFIX:COUNT` response lines, the handler |

Clock model. `Date.now()` is not a global here. `Throttle(now, resumeLag, appendLag)`
receives its first clock read `now`. The read after a possible suspension is
`now + wait + resumeLag`, which models a suspend primitive that lets at least
`wait` milliseconds pass. The read that is pushed onto the list is the previous
read plus `appendLag`. The injected `setTimeout` becomes a `Suspender` object. It
records each duration it is asked to wait, like the jest mock's call log.

The tool handlers are modelled as follows:

- The HTTP response is an input.
- The SHA-1 digest of the password is an input: a sequence of bytes.
- `encodeURIComponent` and the form encoding `URLSearchParams` applies are
  parameters (`encode`, `formEncode`).

## Model

| member | source | states |
|---|---|---|
| `RateLimiting.PlanTable` | src/rate-limiter.ts:8-14 | The table has exactly the keys "Pwned 1".."Pwned 5" with 10, 50, 100, 500 and 1000 requests per minute. Every entry's `plan` equals its key. |
| `RateLimiting.Prune` | src/rate-limiter.ts:32-34 | An entry survives the filter if and only if it is at least `now - 60000`. The result is never longer than the input. |
| `RateLimiting.PruneAppend` | src/rate-limiter.ts:32-34 | The filter works element by element and distributes over concatenation, so surviving entries keep their relative order. |
| `RateLimiting.PruneKeepsAll` | src/rate-limiter.ts:32-34 | A list lying entirely inside the window is returned unchanged. |
| `RateLimiting.PruneTwice` | src/rate-limiter.ts:49-51 | Pruning at `now` and then at a later `newNow` equals pruning once at `newNow`. |
| `RateLimiting.PruneShrinks` | src/rate-limiter.ts:49-51 | A later clock never keeps more entries. |
| `RateLimiting.PruneSortedSuffix` | src/rate-limiter.ts:32-34 | On a chronologically ordered list, pruning drops only a prefix (the oldest entries). |
| `RateLimiting.PruneSorted` | src/rate-limiter.ts:32-34 | Pruning an ordered list leaves it ordered. |
| `RateLimiting.WaitTime` | src/rate-limiter.ts:37-39 | `max(0, oldest + 60000 - now)` is never negative. Waiting it brings the clock at least to the instant the oldest retained entry reaches the edge of the window, and exactly to that instant when the entry is not already past it. |
| `RateLimiting.Admit` | src/rate-limiter.ts:27-56 | One `throttle()` call: prune, check the quota, wait, prune again, append. A suspension is always for a positive duration, and the last prune happens exactly that duration plus the resumption lag after `now`. The lemmas below state the rest. |
| `RateLimiting.AdmitAppendsOne` | src/rate-limiter.ts:27-56 | Every call appends exactly one entry, at the end, equal to the last clock read. What precedes it is the old list pruned at the last prune's clock read, which is never earlier than `now`. |
| `RateLimiting.AdmitSuspension` | src/rate-limiter.ts:37-45 | The suspend primitive is called if and only if the window is full and `oldest + 60000 - now > 0`, and it is called with exactly that duration. With no future entries, the duration is at most 60000 ms. |
| `RateLimiting.AdmitImmediate` | src/rate-limiter.ts:36-55 | Below quota there is no suspension. The new list is the pruned list plus one clock read. |
| `RateLimiting.AdmitWindow` | src/rate-limiter.ts:27-56 | After the call, every entry is at least `(last prune's clock) - 60000`. With no future entries, none is later than the appended one. |
| `RateLimiting.AdmitKeepsSorted` | src/rate-limiter.ts:55 | With a clock that does not run backwards, an ordered list stays ordered. |
| `RateLimiting.AdmitQuota` | src/rate-limiter.ts:37-55 | If the resumption comes strictly after `oldest + 60000`, the oldest entry is evicted. The list is below quota before the append, and a list of at most `rpm` entries stays at most `rpm` long. |
| `RateLimiting.AdmitExactResumeOverflows` | src/rate-limiter.ts:49-51 | On an exactly full ordered window, resuming at exactly `oldest + 60000` evicts nothing, because the filter uses `>=`. The list grows to `rpm + 1` entries. |
| `RateLimiting.GrowsWithoutWait` | src/rate-limiter.ts:37-51 | Once the oldest entry is exactly one window old, a call at that instant on a full window waits 0 ms, does not suspend, evicts nothing and appends. The longer list satisfies the same conditions again, so repeated calls grow it without bound. |
| `RateLimiting.CorrectedWaitTime` | src/rate-limiter.ts:39 | The corrected wait is one millisecond longer. On a non-empty window it is always positive and takes the clock strictly past the oldest entry's exit from the window. |
| `RateLimiting.AdmitCorrectedIsStrictResume` | src/rate-limiter.ts:37-51 | The corrected admission suspends on every full window. It leaves exactly the list the written `throttle()` leaves when the written one resumes one millisecond later. |
| `RateLimiting.AdmitCorrectedQuota` | src/rate-limiter.ts:37-55 | With the corrected wait, a list of at most `rpm` entries stays at most `rpm` long, whatever the resumption lag, zero included. |
| `RateLimiting.Suspender.Suspend` | src/rate-limiter.ts:44 | One call of the injected `setTimeout` records its duration and changes nothing else. |
| `RateLimiting.Suspender.constructor` | tests/rate-limiter.test.ts:11-14 | A new suspend primitive has not been called yet. |
| `RateLimiting.RateLimiter.constructor` | src/rate-limiter.ts:16-25 | Stores `config` and the suspend primitive unchanged. The timestamp list starts empty. |
| `RateLimiting.RateLimiter.Throttle` | src/rate-limiter.ts:27-56 | In place: the new list is `Admit(old list, ...)`, and the suspender's log gains exactly the suspension `Admit` calls for. `config` and the suspender are never reassigned. |
| `RateLimitRuns.RunWindowQuota` | src/rate-limiter.ts:27-56 | Over any sequence of calls on a fresh limiter with strict resumption, no closed 60-second window of the admission history holds more than `requestsPerMinute` admissions. Every call is admitted exactly once, in call order, and the stored list never exceeds the quota. |
| `RateLimitRuns.StepKeepsInv` | src/rate-limiter.ts:27-56 | One call preserves the run invariant: the list is the pruned history, the history is ordered and inside the clock, and every window is within quota. |
| `RateLimitRuns.RunInv` | src/rate-limiter.ts:27-56 | The run invariant holds after every prefix of calls. |
| `RateLimitRuns.StepCorrectedIsLateStep` | src/rate-limiter.ts:37-51 | One corrected call equals one written call that resumes one millisecond later. |
| `RateLimitRuns.RunCorrectedIsLateRun` | src/rate-limiter.ts:27-56 | A run with the corrected wait equals the written run in which every resumption comes one millisecond late. |
| `RateLimitRuns.CorrectedRunWindowQuota` | src/rate-limiter.ts:27-56 | With the corrected wait, for every sequence of calls and every clock behaviour: no closed 60-second window of the admission history holds more than `rpm` admissions, every call is admitted exactly once and in call order, and the stored list never exceeds the quota. |
| `RateLimitRuns.WindowWithinPrune` | src/rate-limiter.ts:32-34 | A window ending at or after a prune instant holds no more admissions than that prune keeps. |
| `RateLimitRuns.WindowAppend` | src/rate-limiter.ts:55 | Appending an admission adds it to exactly the windows that contain its instant. |
| `RateLimitRuns.ThrottleInSequence` | src/rate-limiter.ts:27-56 | Calling `Throttle` once per call on an object with an empty list makes the object follow `Run` step by step. It records exactly the run's admission history. |
| `RateLimitRuns.UnderLimitScenario` | tests/rate-limiter.test.ts:49-59 | Five calls on "Pwned 1" with a frozen clock never call the suspend primitive and store five entries. |
| `RateLimitRuns.AtLimitScenario` | tests/rate-limiter.test.ts:61-80 | Ten calls fill the "Pwned 1" window. The eleventh asks for a single 60000 ms wait, and because the clock then advances by exactly that, the list ends with eleven entries. |
| `RateLimitRuns.FillPwned1` | tests/rate-limiter.test.ts:61-67 | Ten calls at one instant on a new "Pwned 1" limiter fill the window with ten entries and never suspend. |
| `RateLimitRuns.BoundaryInstantScenario` | src/rate-limiter.ts:37-55 | The unit-test trace continued with `extra` calls at the instant the clock resumed at. None suspends, and the 10-per-minute limiter holds `11 + extra` admissions inside one closed 60-second window. |
| `PlanSelection.SelectPlan` | src/main.ts:18-19 | An unset or empty variable selects "Pwned 1". A table key selects its entry. Any other name selects the "Pwned 1" entry. A warning is raised if and only if the name is not a key. The chosen config is always a table entry with at least 10 requests per minute. |
| `PlanSelection.LookupAsWritten` | src/main.ts:19 | `SUBSCRIPTION_PLANS[name]` finds a table entry if and only if the name is a key. It is undefined if and only if the name is neither a key nor a member inherited from `Object.prototype`. |
| `PlanSelection.SelectPlanAsWritten` | src/main.ts:18-19 | The selection as written warns if and only if the lookup is undefined, and then falls back to "Pwned 1". Otherwise it hands over whatever the lookup found. The limiter never receives `undefined`. |
| `PlanSelection.AsWrittenAgreesOnOrdinaryNames` | src/main.ts:370-373 | For every name that is not an inherited object member, the lookup as written chooses the same config and warns exactly as `SelectPlan` does. |
| `PlanSelection.InheritedNameEscapesFallback` | src/main.ts:19 | "toString" is not a plan, yet the written lookup returns the inherited member, applies no fallback and raises no warning. The corrected selection falls back and warns. |
| `HibpTools.QueryPairsOrderAndPresence` | src/main.ts:70-82 | Each optional query parameter is present exactly when it was provided: a domain only when non-empty, a flag whenever defined (`false` included). The value is the one provided. The order is always domain, includeUnverified, truncateResponse. |
| `HibpTools.QueryPairs` | src/main.ts:70-82 | At most three parameters. There are none if and only if no domain was given and neither flag is defined. |
| `HibpTools.FormSerialize` | src/main.ts:84 | The serialized query string is empty if and only if no parameter was appended. |
| `HibpTools.RequestUrl` | src/main.ts:61-110 | URL construction fails if and only if the operation's required argument (`account` or `name`) is missing or empty. It fails with that operation's error. |
| `HibpTools.AccountUrlQueryMark` | src/main.ts:66-86 | An account lookup's URL is the account path plus `?` and the serialized parameters when at least one parameter was appended. Otherwise it is the bare path. |
| `HibpTools.BuildRequestUrl` | src/main.ts:58-110 | Building the URL by reassigning `url` and appending to the parameter list gives exactly `RequestUrl`. |
| `HibpTools.Classify` | src/main.ts:123-146 | 404 means "no results" if and only if the lookup has a no-results meaning, and otherwise is a not-found error naming the URL. 429 is a rate-limit error carrying `retry-after`, or "Unknown" when it is absent or empty. Any other non-2xx status is an API error with the status and body. A 2xx returns the body. |
| `HibpTools.BreachesNoResults` | src/main.ts:123-136 | A 404 means "no results" only for an account lookup, and the message names the account. |
| `HibpTools.Message` | src/main.ts:43-145 | The not-found text ends with the URL. The rate-limit text carries the `retry-after` value. The API-error text ends with the response body. |
| `HibpTools.ApiErrorStatusReadsBack` | src/main.ts:145 | The status in an API-error text reads back with `parseInt` right after the opening parenthesis. |
| `HibpTools.BreachesTool` | src/main.ts:41-146 | Without an API key: the key error, no request, and the limiter untouched. With a key: exactly one `Throttle`, then the URL or its error, then the status classification, where only an account lookup turns a 404 into "no breaches". |
| `HibpTools.PastesTool` | src/main.ts:186-236 | Without an API key: the key error, no request, and the limiter untouched. With a key: exactly one `Throttle`, a request to the paste-account URL, and a 404 that means "no pastes found for account". |
| `Text.ByteHex` | src/main.ts:286 | `b.toString(16).padStart(2, '0')` is always two lower-case digits, high nibble first. |
| `Text.Radix16Value` | src/main.ts:286 | `n.toString(16)` is lower-case hex digits worth `n`, with no leading zero. It is a single digit exactly when `n < 16`. |
| `Text.PadStartShape` | src/main.ts:286 | `padStart(width, fill)` is the input preceded by just enough copies of `fill` to reach `width`, and is never shorter than the input. |
| `Text.Hex` | src/main.ts:285-286 | The hex rendering is twice as long as the digest: 40 characters for 20 bytes. |
| `Text.HexAt` | src/main.ts:286 | Byte `i` occupies positions `2i` and `2i + 1`. |
| `Text.HexIsLowerHex` | src/main.ts:286 | The rendering contains only lower-case hex digits. |
| `Text.UnhexHex` | src/main.ts:286 | The rendering loses nothing: it decodes back to the digest. |
| `Text.UnhexUpperHex` | src/main.ts:289-290 | The upper-cased rendering also decodes back to the digest. |
| `Text.HexDigitRoundTrip` | src/main.ts:286 | Each digit `toString(16)` produces is a lower-case hex digit of the right value. |
| `Text.UpperHexDigitRoundTrip` | src/main.ts:289-290 | An upper-cased hex digit keeps its value. |
| `Text.ToUpperCaseAppend` | src/main.ts:289-290 | Upper-casing the prefix and the suffix separately equals upper-casing the whole. |
| `Text.Substring` | src/main.ts:289-290 | `substring` with clamped bounds never returns more than its input. |
| `Text.FindFrom` | src/main.ts:313-320 | Finds the first occurrence of the separator at or after the start, and reports none only when there is none. |
| `Text.Split` | src/main.ts:313-320 | `split` with a non-empty separator always returns at least one piece. `SplitPiecesFree` and `JoinSplit` state that the pieces hold no separator and join back to the input. |
| `Text.SplitPiecesFree` | src/main.ts:313-320 | No piece produced by `split` contains the separator. |
| `Text.JoinSplit` | src/main.ts:313-320 | `split` loses nothing: joining the pieces with the separator gives the input back. |
| `Text.DecimalString` | src/main.ts:145 | The decimal rendering of a status is non-empty, all digits, and has no leading zero. |
| `Text.LeadingDigits` | src/main.ts:324 | `parseInt` reads the longest run of leading decimal digits. |
| `Text.ParseInt` | src/main.ts:324 | Text that starts with neither a sign nor a digit parses to NaN. Text that starts with a digit parses to a non-negative number. `ParseIntDecimal` gives the value. |
| `Text.DigitsValueDecimal` | src/main.ts:324 | The digits of a decimal rendering are worth the number rendered. |
| `Text.LeadingDigitsStops` | src/main.ts:324 | The digit run stops at the first non-digit. |
| `Text.ParseIntDecimal` | src/main.ts:324 | `parseInt` reads back any decimal count followed by non-digit text. |
| `PwnedPasswords.RangeQueryFor` | src/main.ts:285-297 | Prefix followed by suffix is the upper-cased hex digest. A 20-byte digest yields a 5-character prefix and a 35-character suffix. |
| `PwnedPasswords.RangeQueryKeepsDigest` | src/main.ts:289-290 | Prefix and suffix together determine the digest: they decode back to it. |
| `PwnedPasswords.RangeUrlDependsOnlyOnPrefix` | src/main.ts:289-297 | k-anonymity: the request URL depends only on the first five hex digits. Two digests that agree on their first two bytes and the high nibble of the third produce the same request. |
| `PwnedPasswords.LineSuffix` | src/main.ts:320-322 | A line's suffix field is a prefix of the line that contains no `:`. |
| `PwnedPasswords.LineCount` | src/main.ts:320-324 | A line without `:` has no count field and parses to NaN. |
| `PwnedPasswords.ScanRange` | src/main.ts:313-327 | `found` holds if and only if some line's first `:` field equals the suffix. The count is the parsed second field of the first such line (`None` for NaN). With no match, the result is not found with count 0. |
| `PwnedPasswords.RangeLineReadsBack` | src/main.ts:320-324 | A `SUFFIX:COUNT` line reads back as exactly that suffix and that count. |
| `PwnedPasswords.PwnedPasswordsTool` | src/main.ts:274-335 | The request is the range URL, with no throttle. A non-2xx status is an API error with status and body. A 2xx reports "exposed" with the first matching line's count if and only if some line's suffix matches, and "not exposed" otherwise. |

## Left out

- Network I/O (`fetch`), `response.text()`, `JSON.parse` and `JSON.stringify`: the response status, `retry-after` header and body are inputs, and the pretty-printed result text is not modelled.
- The MCP server, its stdio transport, the zod argument schemas and tool registration: framework wiring. The zod enum also makes the `Unsupported operation` default branch of the operation switch unreachable, so `Operation` has exactly four cases.
- `main()`'s start-up check of `HIBP_API_KEY` and the transport connection: only the per-handler key check is modelled.
- SHA-1 (`crypto.subtle.digest`, FIPS 180-4) and `TextEncoder`: the digest is an input byte sequence.
- `encodeURIComponent` and `URLSearchParams`' percent-encoding: arbitrary string functions passed in.
- `toLocaleString` and the final result sentences of the Pwned Passwords tool: the reply carries the count, not its formatted text.
- The logger (`src/logger.ts`, file appends with wall-clock timestamps): output only.
- `Date.now()`, `setTimeout` and promises: replaced by the clock parameters and the `Suspender` log. Interleaved concurrent `throttle()` calls are not modelled.
- `build/rate-limiter.js` and `build/logger.js` are compiled copies; tests/server.test.ts only wires mocks.
- JavaScript numbers are doubles; the model uses unbounded integers, which agree with the source for every timestamp and count below 2^53.
- `Text.ParseInt`: does not model `parseInt`'s skipping of leading whitespace or its `0x` prefix; a count field the endpoint writes has neither.
- `RateLimiting.AdmitQuota` and `RateLimitRuns.RunWindowQuota`: hold only when, on every call that finds its window full (a zero wait included), the clock read before the second prune is strictly later than `now + wait`. When it is not, the written limiter exceeds the quota without bound at that instant (`AdmitExactResumeOverflows`, `GrowsWithoutWait`, `BoundaryInstantScenario`; see Findings). `RateLimitRuns.CorrectedRunWindowQuota` states the quota with no such condition for the corrected wait.
- `RateLimiting.WaitTime`: when a full window is empty (a quota of zero or less, which no table entry has), the source's wait is NaN and nothing is suspended; the model uses 0, which gives the same behaviour.

## Findings

| source | as written | input that shows it | evidently intended | confidence | as-written member | corrected member |
|---|---|---|---|---|---|---|
| src/main.ts:19 | `SUBSCRIPTION_PLANS[name]` (here and in the warning check at line 371) also finds the members every object inherits, such as `toString`, which are truthy | `HIBP_SUBSCRIPTION_PLAN=toString`: no fallback to "Pwned 1" and no warning; the limiter receives a function whose `requestsPerMinute` is undefined, so `length >= undefined` is never true and it never throttles | unknown names, inherited member names included, fall back to "Pwned 1" with a warning | medium, not executed | `PlanSelection.InheritedNameEscapesFallback` | `PlanSelection.SelectPlan` |
| src/rate-limiter.ts:39 | the wait ends exactly when the oldest entry reaches the edge of the window, and the filter at line 50 keeps an entry exactly one window old, so a full window evicts nothing when the clock resumes at that instant | "Pwned 1": ten calls at `t0`, then calls at `t0 + 60000` with a clock that only advances by the requested wait. The first of them waits 60000 ms and every later one waits 0 ms, so the window `[t0, t0 + 60000]` ends up holding 11, 12, ... admissions | a full window always waits until its oldest entry has left, so that no 60-second window ever holds more than `requestsPerMinute` admissions | medium, not executed | `RateLimiting.GrowsWithoutWait` | `RateLimitRuns.CorrectedRunWindowQuota` |
