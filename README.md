# Recommendation API request path, modelled in Dafny

This project models three pieces of the request-serving path of a small
recommendation service (a Next.js application):

- **The in-memory rate limiter and client identity** (`lib/rate-limiter.ts`).
  There is one table from client identity to `{count, resetTime}`. It is
  shared by every limiter that `rateLimit(config)` returns. A call on a
  missing or expired entry starts a fixed window of one request. A call on a
  live entry under the limit counts one more request. Any other call is
  refused with a retry hint in whole seconds. A ten-minute interval deletes
  expired entries. `getClientIdentifier` picks the client identity from three
  proxy headers.
- **The input sanitizers** (`lib/sanitize.ts`): `sanitizeUserId`,
  `sanitizeNumber` (with the radix-10 part of ECMAScript's `parseInt`,
  section 19.2.5 of ECMA-262), `sanitizeDataType` and `sanitizeString`.
  Each returns its value or the error it throws.
- **The pre-computed recommendations endpoint**
  (`app/api/recommend-simple/route.ts`). Its checks run in a fixed order:
  rate-limit gate, body validation, dataset file existence, user lookup, then
  the top-K prefix of the stored list.

## Layout

| file | module | contents |
|---|---|---|
| `wrappers.dfy` | `Wrappers` | `Option`, `Result` |
| `js_string.dfy` | `JsString` | ECMAScript white space, `trim`, `parseInt(s, 10)`, `toString` of an integer below 10^21, JavaScript truthiness of an optional string |
| `sanitize.dfy` | `Sanitize` | the four sanitizers and their lemmas |
| `rate_limiter.dfy` | `RateLimiter` | `Step` (one limiter call) and `Swept` (the sweep) as specifications; class `Table` (the shared map, with methods `Admit` and `Sweep`); class `Limiter` (the closure); `ClientIdentifier` |
| `recommend_simple.dfy` | `RecommendSimple` | `Respond` (the check cascade after the limiter); class `Route` whose `Post` runs the limiter and then `Respond` |

The shared table is the class `RateLimiter.Table`. Its field is
`entries: map<string, Entry>`. `Admit` and `Sweep` reassign that field. Each
method's postcondition equates the new table with the pure specification,
`Step` or `Swept`. The lemmas state what the source promises about those two
functions. The clock is not read: `now` is a parameter.

The handler does not read files or parse JSON. The request body is an input
(`Body`): either the fields the handler destructures, or the message of an
exception thrown before the fields are read. That is either `request.json()`
failing, or the destructuring at app/api/recommend-simple/route.ts:36 failing
on a body of `null`. Both end in the 500 branch. The dataset directory is also an input:
a `map` from file name to file content (`DatasetFile`). Content is either the
parsed object or the message of the exception that `readFileSync` or
`JSON.parse` threw.

Some of what the source does may not be what a reader expects:

- `sanitizeUserId("../../etc/passwd")` returns `etcpasswd`, although
  lib/sanitize.ts:4 says the function prevents path traversal. Removing `..`,
  `/` and `\` leaves a string that passes both checks
  (`Sanitize.TraversalPathFlattened`).
- `slice(0, topK)` with a negative `topK` counts back from the end of the
  list, so the served length is `min(topK, n)` only when `topK >= 0`
  (`RecommendSimple.NegativeTopKDropsFromEnd`).
- A 500 response carries the exception's own message when it has one
  (`error.message || 'Internal server error'`,
  app/api/recommend-simple/route.ts:81-86).
- Every limiter that `rateLimit(config)` returns shares the one table of
  lib/rate-limiter.ts:9. An identity's count is therefore bounded only by the
  most permissive limiter that touches it, and requests counted by one
  endpoint count against another (`RateLimiter.StepKeepsCountsWithin`,
  `RateLimiter.SharedEntryAcrossLimiters`).
- The `'60'` fallback of the `Retry-After` header is unreachable from the real
  limiter: a refusal always carries `retryAfter`, and its rendering is never
  empty (`"0"` is truthy). `Respond` takes the decision as an input, so it
  models both branches.

## Model

| member | source | states |
|---|---|---|
| `RateLimiter.OrDefault` | lib/rate-limiter.ts:27-28 | `value || fallback` on an optional number: `undefined` and `0` take the fallback; no contract of its own, stated through `Configure` |
| `RateLimiter.Configure` | lib/rate-limiter.ts:26-28 | `windowMs` and `maxRequests` become 60000 and 60 when absent or 0; any other value, negative ones included, is kept |
| `RateLimiter.CeilDiv1000` | lib/rate-limiter.ts:50 | the result is the ceiling of `d / 1000`: `(r-1)*1000 < d <= r*1000` |
| `RateLimiter.Step` | lib/rate-limiter.ts:30-52 | one call of the limiter closure: allowed exactly when the entry is missing, expired or under the limit; a hint exactly on refusal; the identity is in the new table; a refusal leaves the table unchanged (the three branches are pinned by the `Step*` lemmas below) |
| `RateLimiter.StepStartsWindow` | lib/rate-limiter.ts:34-41 | no entry, or `now > resetTime`: the call is allowed and the entry becomes exactly `{1, now + windowMs}` |
| `RateLimiter.StepCountsRequest` | lib/rate-limiter.ts:43-47 | a live entry (`now <= resetTime`, so the boundary instant is still live) under the limit: allowed, count + 1, same `resetTime`, nothing else changed |
| `RateLimiter.StepRefuses` | lib/rate-limiter.ts:49-51 | a live entry at or over the limit is refused with `retryAfter = ceil((resetTime - now)/1000) >= 0`, and the table is unchanged |
| `RateLimiter.StepTouchesOnlyItsKey` | lib/rate-limiter.ts:32-47 | a call leaves every other identifier's entry, and its absence, as it was |
| `RateLimiter.StepKeepsCountsWithin` | lib/rate-limiter.ts:34-51 | if every limiter's `maxRequests` is between 1 and `bound`, a call keeps every count in `[1, bound]` |
| `RateLimiter.StepKeepsWindowsBounded` | lib/rate-limiter.ts:36-39 | with a forward-moving clock and windows at most `maxWindowMs`, every window ends within `maxWindowMs` of now |
| `RateLimiter.RetryAfterBounded` | lib/rate-limiter.ts:50 | under that invariant a refusal's `retryAfter` lies in `[0, ceil(maxWindowMs/1000)]` |
| `RateLimiter.RunInLiveWindow` | lib/rate-limiter.ts:43-51 | in a live window already holding `count` requests, exactly the first `maxRequests - count` further calls are allowed |
| `RateLimiter.FixedWindowAdmitsMaxRequests` | lib/rate-limiter.ts:34-51 | from no entry or an expired one, calls within one window are allowed exactly while fewer than `maxRequests` (at least one) came before, and refused after |
| `RateLimiter.ThreePerMinute` | lib/rate-limiter.ts:30-52 | with 3 per 60000 ms, four calls at one instant give allowed, allowed, allowed, refused with `retryAfter` 60 |
| `RateLimiter.Run` | lib/rate-limiter.ts:30-52 | the decisions of successive calls of the closure for one identity, one per call; what they are is stated by `RunInLiveWindow`, `FixedWindowAdmitsMaxRequests` and `SweepKeepsRuns` |
| `RateLimiter.After` | lib/rate-limiter.ts:30-52 | the table a run of calls for one identity leaves behind; no other identity's entry appears, disappears or changes |
| `RateLimiter.LiveWindowCounts` | lib/rate-limiter.ts:43-47 | `k` calls at one instant in a live window with room for them leave the entry at `count + k` with the same `resetTime` |
| `RateLimiter.SharedEntryAcrossLimiters` | lib/rate-limiter.ts:9 | 30 calls at one instant through a 60-per-minute limiter are all allowed and leave the entry `{30, t + 60000}`; on that same table a 20-per-minute limiter refuses the identity with a 60-second hint |
| `RateLimiter.Swept` | lib/rate-limiter.ts:12-19 | the sweep keeps exactly the entries with `now <= resetTime`, each unchanged |
| `RateLimiter.SweepKeepsDecisions` | lib/rate-limiter.ts:12-19 | at any later time, every limiter call decides the same with or without the sweep |
| `RateLimiter.SweptIsSweptFrom` | lib/rate-limiter.ts:14-18 | the swept table is the old one with only entries that had expired left out |
| `RateLimiter.SweptKeepsInvariants` | lib/rate-limiter.ts:14-18 | the sweep keeps every count in `[1, bound]` and every window end by the deadline, so with `StepKeepsCountsWithin` and `StepKeepsWindowsBounded` both hold in every state the table reaches |
| `RateLimiter.StepKeepsSweptFrom` | lib/rate-limiter.ts:12-52 | a call at or after the sweep decides the same on the swept and the full table, and the two tables it leaves differ again only by expired entries |
| `RateLimiter.SweepKeepsRuns` | lib/rate-limiter.ts:12-52 | every run of calls at or after the sweep gives the same decisions on the swept and the full table, and leaves tables that differ only by expired entries |
| `RateLimiter.Table.Admit` | lib/rate-limiter.ts:30-52 | the in-place update of the shared map: decision and new table are those of `Step` on the old table |
| `RateLimiter.Table.Sweep` | lib/rate-limiter.ts:14-18 | the loop over a snapshot of the entries deletes the expired ones: the new table is `Swept` of the old one |
| `RateLimiter.Table.constructor` | lib/rate-limiter.ts:9 | the table starts empty |
| `RateLimiter.Limiter.constructor` | lib/rate-limiter.ts:26-30 | a limiter keeps the defaulted settings and the shared table |
| `RateLimiter.Limiter.Check` | lib/rate-limiter.ts:30-52 | one call of the closure: `Step` with the limiter's own settings, on the shared table |
| `RateLimiter.FirstSegment` | lib/rate-limiter.ts:62 | `split(',')[0]`: the longest comma-free prefix, stopped by a comma or the end |
| `RateLimiter.ClientIdentifier` | lib/rate-limiter.ts:56-63 | non-empty result; a non-empty `cf-connecting-ip` wins, else a non-empty `x-real-ip`, else a non-empty first `x-forwarded-for` segment, else `"unknown"` |
| `JsString.TrimStart` | lib/sanitize.ts:70 | removes exactly the leading white space: a suffix of the input, the cut part all white space, the result not starting with white space |
| `JsString.TrimEnd` | lib/sanitize.ts:70 | the same for trailing white space |
| `JsString.Trim` | lib/sanitize.ts:70 | `trim()`: a slice of the input, starting where `TrimStart` stops; what is cut off before and after it is all white space, and it has no white space at either end |
| `JsString.TrimOfUnpadded` | lib/sanitize.ts:70 | a non-empty string that neither starts nor ends with white space is its own `trim()` |
| `JsString.ParseInt10` | lib/sanitize.ts:31 | `parseInt(value, 10)`: no contract of its own (it is `ParseSigned` after `TrimStart`); stated by `ParseIntOfDecimal`, `ParseIntOfToString`, `ParseIntWithoutDigits` and `ParseIntSignWithoutDigits` |
| `JsString.ParseSigned` | lib/sanitize.ts:31 | one optional sign, then the digits: no contract of its own; stated by `ParseSignedCases` and `ParseSignedOfDecimal` |
| `JsString.ParseSignedCases` | lib/sanitize.ts:31 | after the blanks, `parseInt` is NaN exactly when no digit follows the one optional sign; a `-` gives a value `<= 0`, otherwise `>= 0` |
| `JsString.ParseDigits` | lib/sanitize.ts:31 | the value of the longest digit prefix: no contract of its own; stated by `ParseDigitsOfDecimal` and `ParseSignedCases` |
| `JsString.ParseDigitsOfDecimal` | lib/sanitize.ts:31 | the digits of `m` followed by a tail that does not start with a digit are read as `m` |
| `JsString.NatToDecimal` | app/api/recommend-simple/route.ts:28 | the decimal digits of a natural number: one digit exactly below 10, and a leading `0` only for 0 itself |
| `JsString.IntToDecimal` | app/api/recommend-simple/route.ts:28 | `toString()` of an integer below 10^21 in magnitude: non-empty, a `-` exactly for negative numbers, then only digits, with no leading zero (and no `-0`); read back by `ParseIntOfToString` |
| `JsString.LeadingDigits` | lib/sanitize.ts:31 | the longest decimal-digit prefix that `parseInt` reads |
| `JsString.ParseIntOfDecimal` | lib/sanitize.ts:31 | `parseInt(ws + n.toString() + tail, 10) == n` for leading white space and any tail not starting with a digit |
| `JsString.ParseIntOfToString` | lib/sanitize.ts:31 | `parseInt(n.toString(), 10) == n`, with `toString` in plain decimal (JavaScript's exponent notation from 10^21 is not modelled) |
| `JsString.ParseIntWithoutDigits` | lib/sanitize.ts:31 | when the first non-blank character is neither a sign nor a digit, `parseInt` is NaN |
| `JsString.ParseIntSignWithoutDigits` | lib/sanitize.ts:31 | a sign after the blanks with no digit after it (`"-"`, `"+x"`, `" -abc"`) is NaN |
| `Sanitize.StripDotPairs` | lib/sanitize.ts:12 | `replace(/\.\./g, '')`: never longer, leaves no `..`, keeps a leading non-dot; with the three lemmas below it is determined on every input |
| `Sanitize.StripDotPairsKeepsText` | lib/sanitize.ts:12 | a dot-free prefix is kept as it is, in front of the processed rest |
| `Sanitize.StripDotPairsDropsPair` | lib/sanitize.ts:12 | a leading `..` is removed as one match |
| `Sanitize.StripDotPairsKeepsLoneDot` | lib/sanitize.ts:12 | a dot not followed by a dot is kept |
| `Sanitize.RemoveSeparators` | lib/sanitize.ts:12 | `replace(/[\/\\]/g, '')`: never longer, leaves no `/` or `\` |
| `Sanitize.Clean` | lib/sanitize.ts:12 | the chained replacements: never longer than the input and free of `/` and `\` |
| `Sanitize.IsIdentifier` | lib/sanitize.ts:20 | `/^[a-zA-Z0-9_-]+$/.test`: at least one character, each in `[a-zA-Z0-9_-]`; a predicate with no contract of its own, used by the `SanitizeUserId` contract |
| `Sanitize.SanitizeUserId` | lib/sanitize.ts:6-25 | empty input fails first; success exactly when the cleaned string is `[A-Za-z0-9_-]{1,100}`, returning it (so no `.`, `/`, `\`); otherwise "too long" when over 100 characters, else "invalid characters" |
| `Sanitize.SanitizeUserIdIdentity` | lib/sanitize.ts:12-24 | an input already of the form `[A-Za-z0-9_-]{1,100}` is returned unchanged |
| `Sanitize.SanitizeUserIdIdempotent` | lib/sanitize.ts:12-24 | sanitizing an accepted id again returns it again |
| `Sanitize.SeparatorsDoNotCountTowardLength` | lib/sanitize.ts:12-17 | stripping precedes the length cap: a valid id followed by any number of separators is accepted as that id |
| `Sanitize.LongInputAccepted` | lib/sanitize.ts:12-17 | a 201-character input whose cleaned form is `a` is accepted |
| `Sanitize.SlashBetweenDotsRejected` | lib/sanitize.ts:12-22 | `./.` cleans to `..` and is rejected for its characters |
| `Sanitize.ParentSegmentsFlattened` | lib/sanitize.ts:12-24 | leading `../` segments are removed rather than refused: only the rest, without separators, decides |
| `Sanitize.TraversalPathJoined` | lib/sanitize.ts:12-24 | `k` leading `../` segments before `a/b`, for identifiers `a` and `b` of total length at most 100, are accepted as `ab` |
| `Sanitize.TraversalPathFlattened` | lib/sanitize.ts:12-24 | the input `../../etc/passwd` is accepted as `etcpasswd` |
| `Sanitize.ToNumber` | lib/sanitize.ts:31 | the ternary: a string goes through `parseInt(value, 10)`, anything else is used as it is; no contract of its own, stated by `SanitizeNumberOfDecimal` and `SanitizeNumberRejectsNonNumeric` |
| `Sanitize.IsFinite` | lib/sanitize.ts:33 | `isFinite` of the double nearest to an integer: magnitude below 2^1024 - 2^970; a predicate used by the `SanitizeNumber` contract and `OverflowingDecimalRejected` |
| `Sanitize.SanitizeNumber` | lib/sanitize.ts:30-46 | NaN or a value that is not finite as a double is exactly the "Invalid number" case; a result is finite and satisfies `min <= r` and `r <= max` where given; a finite value below `min` fails with that minimum; one that meets `min` but is above `max` fails with that maximum; an in-range number is returned unchanged |
| `Sanitize.OverflowingDecimalRejected` | lib/sanitize.ts:31-35 | a decimal string whose value is at least 2^1024 - 2^970 in magnitude, which `parseInt` reads as an infinity, is "Invalid number" whatever the bounds |
| `Sanitize.SanitizeNumberOfDecimal` | lib/sanitize.ts:31 | the decimal text of an integer is sanitized exactly as the integer |
| `Sanitize.SanitizeNumberRejectsNonNumeric` | lib/sanitize.ts:31-35 | a string with no digit after the blanks and one optional sign (`"abc"`, `"-"`, `" +x"`) is "Invalid number" |
| `Sanitize.SanitizeDataType` | lib/sanitize.ts:51-59 | accepts exactly `ott`, `social`, `media`, returning the argument; anything else is "Invalid data type" |
| `Sanitize.AfterClose` | lib/sanitize.ts:73 | the text after the first `>`, a strictly shorter suffix |
| `Sanitize.StripTags` | lib/sanitize.ts:73 | `replace(/<[^>]*>/g, '')`: never longer, only characters of the input, and no `<` with a `>` after it; `StripTagsKeepsText`, `StripTagsDropsTag` and `StripTagsWithoutTags` (for a final `<` with no `>` after it) together determine it on every input |
| `Sanitize.AfterCloseOf` | lib/sanitize.ts:73 | after a `>`-free text, the first `>` closes right there |
| `Sanitize.StripTagsKeepsText` | lib/sanitize.ts:73 | text without `<` is kept as it is, in front of the processed rest |
| `Sanitize.StripTagsDropsTag` | lib/sanitize.ts:73 | a tag `<...>` (no `>` inside) is removed whole and the rest processed on |
| `Sanitize.StripTagsWithoutTags` | lib/sanitize.ts:73 | on a string without tags, tag removal changes nothing |
| `Sanitize.StripTagsIdempotent` | lib/sanitize.ts:73 | removing tags twice is removing them once |
| `Sanitize.Prefix` | lib/sanitize.ts:70 | `substring(0, maxLength)`: a prefix of length `maxLength` clamped to `[0, n]` |
| `Sanitize.SanitizeString` | lib/sanitize.ts:64-74 | `''` for empty input; otherwise at most `max(maxLength, 0)` and at most the input's length, only the input's characters, no tag left; by its definition the value is `StripTags` of the trimmed text cut to `maxLength`, and the lemmas below state what survives for plain text, for clean text and for a tag after plain text |
| `Sanitize.SanitizeStringKeepsPlainText` | lib/sanitize.ts:64-74 | a non-empty string without `<` comes back as its trimmed text cut to `maxLength` |
| `Sanitize.SanitizeStringIdentity` | lib/sanitize.ts:64-74 | a string already trimmed, free of tags and within `maxLength` comes back unchanged |
| `Sanitize.SanitizeStringOfTrimmed` | lib/sanitize.ts:70-73 | a non-empty string already trimmed and within `maxLength` is only stripped of tags |
| `Sanitize.StripTagsAfterText` | lib/sanitize.ts:73 | `a + "<" + t + ">" + b`, with no `<` in `a` and no `>` in `t`, becomes `a` followed by `b` with its tags removed |
| `Sanitize.SanitizeStringDropsTag` | lib/sanitize.ts:64-74 | a string within `maxLength` that neither starts nor ends with white space, of the form `a<t>b` sanitizes to `a` followed by `b` with its tags removed (`<b>hi</b>` gives `hi`) |
| `Sanitize.SanitizedStringHasNoTags` | lib/sanitize.ts:73 | removing tags from a sanitized string changes nothing |
| `RecommendSimple.DatasetFileName` | app/api/recommend-simple/route.ts:51 | `${dataType}_recommendations.json`; distinct data types name distinct files (`DatasetFileNameInjective`) |
| `RecommendSimple.DatasetFileNameInjective` | app/api/recommend-simple/route.ts:51 | two data types with the same file name are equal |
| `RecommendSimple.DatasetMissingMessage` | app/api/recommend-simple/route.ts:57 | the 404 text for a missing file, ending in the data type; it names the data type (`DatasetMissingMessageInjective`) |
| `RecommendSimple.DatasetMissingMessageInjective` | app/api/recommend-simple/route.ts:57 | two data types with the same message are equal |
| `RecommendSimple.UserMissingMessage` | app/api/recommend-simple/route.ts:69 | `User ${userId} not found`; it names the user (`UserMissingMessageInjective`) |
| `RecommendSimple.UserMissingMessageInjective` | app/api/recommend-simple/route.ts:69 | two user ids with the same message are equal, since `toString` is read back by `parseInt` |
| `RecommendSimple.RetryAfterHeader` | app/api/recommend-simple/route.ts:28 | the hint's `toString()`, else `'60'`: never empty, so the `'60'` stands only for a missing hint; read back by `RetryAfterHeaderReadsBack` |
| `RecommendSimple.ServerErrorMessage` | app/api/recommend-simple/route.ts:83 | the exception's message, else `'Internal server error'`: never empty, and a non-empty message is passed through |
| `RecommendSimple.SliceEnd` | app/api/recommend-simple/route.ts:75 | the end `slice(0, k)` stops at, never past the list; its meaning is stated by `StoredListServed` and `NegativeTopKDropsFromEnd` |
| `RecommendSimple.Respond` | app/api/recommend-simple/route.ts:19-86 | 429 exactly when the limiter refused, with its hint or `'60'`; an unreadable body is 500; a falsy `dataType` or non-number `userId` is 400; a 200 echoes `userId` and serves a prefix of the stored list of a present, parsed dataset |
| `RecommendSimple.RefusedBeforeBodyIsRead` | app/api/recommend-simple/route.ts:19-32 | a refusal gives 429 whatever the body and the files are |
| `RecommendSimple.RetryAfterHeaderReadsBack` | app/api/recommend-simple/route.ts:28 | the `Retry-After` text of a refusal parses back to its `retryAfter` |
| `RecommendSimple.InvalidBodyIgnoresFiles` | app/api/recommend-simple/route.ts:38-44 | a bad body gives 400 and the answer does not depend on the files |
| `RecommendSimple.MissingDatasetNotFound` | app/api/recommend-simple/route.ts:54-61 | no `<dataType>_recommendations.json` gives 404 |
| `RecommendSimple.UnparsableDatasetServerError` | app/api/recommend-simple/route.ts:63-65 | a file that cannot be read or parsed gives 500 with the exception's message, or the generic one |
| `RecommendSimple.MissingUserNotFound` | app/api/recommend-simple/route.ts:67-72 | an absent or `null` user key gives 404 "User <id> not found" |
| `RecommendSimple.StoredListServed` | app/api/recommend-simple/route.ts:36-80 | a stored list, empty included, gives 200 with its first `min(topK, n)` records in stored order (`topK` 10 when absent) and echoes `userId` |
| `RecommendSimple.NegativeTopKDropsFromEnd` | app/api/recommend-simple/route.ts:75-80 | a negative `topK` drops that many records from the end, and leaves none when it is at least the list's length |
| `RecommendSimple.UnknownDataTypeNotFound` | app/api/recommend-simple/route.ts:47-61 | `{dataType: "ghost", userId: 1, topK: 5}` without `ghost_recommendations.json` is 404 |
| `RecommendSimple.Route.constructor` | app/api/recommend-simple/route.ts:6 | the route's limiter is 20 requests per 60000 ms on the shared table |
| `RecommendSimple.Route.Post` | app/api/recommend-simple/route.ts:17-36 | the limiter is called first and counts the call whatever the body holds; the answer is `Respond` with its decision |

## Left out

- The clock and the scheduling of the sweep (`Date.now()`, `setInterval`): `now` is a parameter of `Admit` and `Sweep`. Requests can interleave at `await request.json()` (app/api/recommend-simple/route.ts:35), but the limiter closure (lib/rate-limiter.ts:30-52) and the sweep callback (lib/rate-limiter.ts:12-19) contain no `await` and run to completion, so each call of `Admit` or `Sweep` is one atomic step. `Route.Post` runs the limiter and then `Respond` as one step; the interleaving of other requests between the limiter call and the file reads is not modelled (it does not change the limiter's decision, which is taken before the body is read).
- JavaScript numbers are doubles. Counts, times, `userId`, `topK`, `min` and `max` are modelled as unbounded integers. Rounding to the nearest double is not modelled: a magnitude beyond 2^53 is exact in the model, and fractional values do not occur. Only whether a value is finite as a double is modelled (`Sanitize.IsFinite`).
- JsString.IntToDecimal: every integer is rendered in plain decimal; JavaScript writes magnitudes of 10^21 and more in exponent notation (`"1e+21"`, which `parseInt` reads as 1), so the `Retry-After` and error-message renderings and `ParseIntOfToString` match JavaScript only below 10^21.
- Sanitize.SanitizeNumber: an integer argument whose magnitude is at least 2^1024 - 2^970 stands for the infinity it rounds to; `parseInt` values below that bound are kept exact rather than rounded.
- Inputs of the wrong runtime type are not modelled: a non-string `sanitizeUserId` or `sanitizeString` argument, or a non-string, non-number `sanitizeNumber` argument. Neither is a `dataType` that is truthy but not a string, nor a `topK` that is `null` or not a number.
- Strings are sequences of Unicode scalar values, not UTF-16 code units. So `length`, `substring` and the regular expressions count characters.
- `Headers.get` joining repeated headers is not modelled: each header is one optional string.
- File access is reduced to a map from the file name `<dataType>_recommendations.json` to its content. Path resolution by `path.join` (including a `dataType` holding `..` or `/`, which the handler does not pass through `sanitizeDataType`) is not modelled.
- `JSON.parse` results other than an object keyed by integer user ids are not modelled. A user value is either `null` or a list: other JSON values are left out, as are keys that are not the canonical decimal of an integer.
- The JSON wrapping of responses (`NextResponse.json`) is not modelled. The constant 429 body text is also left out.
- `Sanitize.Message`: the thrown messages are given but no property is stated about them.
- These files are not part of this model:
  - the Python-backed `app/api/recommend/route.ts`;
  - `app/api/stats/route.ts`;
  - `app/api/ncf/[userId]/route.ts`, with its synthetic fallback;
  - the UI pages;
  - the Python training, data-generation and precompute scripts;
  - `next.config.js`.
