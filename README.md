# ListKdo security helpers, modelled in Dafny

ListKdo is a gift-list sharing web application. This project models and verifies four of
its small library modules:

- **Input sanitisation** (`lib/sanitize.ts`, module `Sanitize`). `escapeHtml` escapes the
  five HTML-special characters. `sanitizeUrl` trims a link, refuses the `javascript:`,
  `data:`, `vbscript:` and `file:` schemes, keeps `http://`, `https://` and relative links,
  and prefixes scheme-less links with `https://`. `sanitizeText` truncates a text and drops
  control characters. `sanitizeUrls` keeps at most ten usable links. `sanitizeGiftData` and
  `sanitizeListData` clamp and default the fields of the gift and list forms.
- **Password policy** (`lib/password-validator.ts`, module `PasswordValidator`). Five rules
  are checked in a fixed order: at least 12 characters, an upper-case letter, a lower-case
  letter, a digit, and a special character. The first rule that fails picks the message.
- **Fixed-window rate limiter** (`lib/rate-limit.ts`, module `RateLimit`). The class
  `RateLimiter` keeps a table from key to `{count, resetAt}`. `Check`, `Reset` and `Cleanup`
  update it in place, and `Remaining` reads it. Five keyed presets sit on top: login,
  register, password reset, general API use and mutations.
- **Security event log** (`lib/security-logger.ts`, module `SecurityLog`). The class
  `SecurityLogger` keeps the last 1000 events. `Log` appends one and drops the oldest on
  overflow. Pure functions give an event type's log level and format an event as one line.
  Two queries return the recent events and the suspicious ones. The `logSecurityEvent`
  helpers log one event of a fixed type.

Two small shared modules complete the project. `Wrappers` holds `Option`. `Collections`
holds `StartsWith`, `Filter` and the ordered sub-sequence relation.

The clock is a parameter. Every operation that reads `Date.now()` or `new Date()` takes
`now` in milliseconds. `SecurityLogger.Log` returns the console stream and line it would
write instead of printing them.

Some behaviours of the code are stated as proved facts rather than smoothed over:

- A link made only of white space is not refused. It trims to the empty string, which holds
  no `://`, so `sanitizeUrl` returns the bare `https://` (`SanitizeUrlBlank`).
- `sanitizeText` with a negative `maxLength` follows `slice(0, end)`. It cuts that many
  characters off the end, so it is idempotent only for bounds of zero or more.
- `check` always admits the request that opens a window, even with a limit of 0 or less.
- `getRecentEvents(0)` returns every event, because `slice(-0)` is `slice(0)`. A negative
  limit drops that many of the oldest events.

## Model

| member | source | states |
|---|---|---|
| `Collections.StartsWith` | lib/sanitize.ts:37-39 | `s.startsWith(p)` holds exactly when `p` is no longer than `s` and agrees with it position by position |
| `Collections.Filter` | lib/security-logger.ts:126 | the result is no longer than the input, and everything in it comes from the input and passes the test |
| `Collections.FilterCounts` | lib/security-logger.ts:126 | every element that passes the test is kept exactly as often as it occurs in the input, and every other element is dropped |
| `Sanitize.Includes` | lib/sanitize.ts:42 | `s.includes(p)` holds exactly when `p` occurs in `s` at some position |
| `Sanitize.Trim` | lib/sanitize.ts:24 | the result is a slice of the input; every character before and after that slice is one `trim` removes; the result neither starts nor ends with such a character |
| `Sanitize.SkipLeading` | lib/sanitize.ts:24 | the left scan of `trim` stops at the first character it keeps (or at the end) and every character it passed over is trimmable |
| `Sanitize.SkipTrailing` | lib/sanitize.ts:24 | the right scan of `trim` stops just past the last kept character and never crosses the left scan's stop; every character it passed over is trimmable |
| `Sanitize.ToLower` | lib/sanitize.ts:28 | lower-casing keeps the length and folds each character on its own |
| `Sanitize.ReplaceAll` | lib/sanitize.ts:10-14 | a global one-character replacement with a non-empty replacement never shortens the string |
| `Sanitize.ReplaceAllAvoids` | lib/sanitize.ts:10-14 | the replaced character, or one absent before, is absent after, unless the replacement brings it in |
| `Sanitize.EscapeHtml` | lib/sanitize.ts:8-15 | the output holds no `<`, `>`, `"` or `'`, and it is never shorter than the input |
| `Sanitize.EscapeHtmlOne` | lib/sanitize.ts:9-14 | the chain of five replacements turns one character into its entity, or leaves it as it is |
| `Sanitize.EscapeHtmlIsPerCharacter` | lib/sanitize.ts:9-14 | the chained replacements, `&` first, equal escaping each character on its own |
| `Sanitize.EscapeHtmlAmpersandsStartEntities` | lib/sanitize.ts:8-15 | every `&` in the output starts one of `&amp; &lt; &gt; &quot; &#039;`, so no entity is escaped twice |
| `Sanitize.EscapeHtmlRoundTrip` | lib/sanitize.ts:8-15 | decoding the five entities gives the input back, so escaping loses nothing |
| `Sanitize.EscapeHtmlFixpoint` | lib/sanitize.ts:9-14 | the output equals the input exactly when the input holds none of the five special characters |
| `Sanitize.StartsWithAnyIff` | lib/sanitize.ts:30-34 | the loop over the refused schemes succeeds exactly when some scheme is a prefix |
| `Sanitize.NotDangerousByFirstChar` | lib/sanitize.ts:27-34 | a string starting with `h` or `/` never matches a refused scheme |
| `Sanitize.SanitizeUrl` | lib/sanitize.ts:20-47 | the result is empty, or starts with `http://`, `https://` or `/`, has no refused scheme, and has no surrounding white space |
| `Sanitize.SanitizeUrlCases` | lib/sanitize.ts:21-46 | empty input gives `''`; a refused scheme after trimming gives `''`; an allowed prefix keeps the trimmed link; no `://` gets `https://` prepended; any other scheme gives `''` |
| `Sanitize.SanitizeUrlIdempotent` | lib/sanitize.ts:20-47 | sanitising a sanitised URL changes nothing |
| `Sanitize.SanitizeUrlBlank` | lib/sanitize.ts:24-44 | a non-empty link of white space only becomes `https://` |
| `Sanitize.SliceTo` | lib/sanitize.ts:56 | `slice(0, end)` keeps a prefix of length `min(end, n)`, or `max(n + end, 0)` for a negative end |
| `Sanitize.RemoveControl` | lib/sanitize.ts:59 | the result holds no character in 0x00-0x1F or 0x7F; it keeps every other character as often as it occurs in the input, in input order; it equals the input when the input held none |
| `Sanitize.SanitizeText` | lib/sanitize.ts:52-60 | empty input gives `''`; the result is at most `maxLength` long for a bound of zero or more; it holds no control character; it is `slice(0, maxLength)` with exactly the control characters removed, so an ordered sub-sequence of that slice that keeps every other character as often as it occurs |
| `Sanitize.SanitizeTextFixpoint` | lib/sanitize.ts:52-60 | for a bound of zero or more, a text is unchanged exactly when it fits the bound and holds no control character |
| `Sanitize.SanitizeTextIdempotent` | lib/sanitize.ts:52-60 | for a bound of zero or more, sanitising twice equals sanitising once |
| `Sanitize.SanitizeEach` | lib/sanitize.ts:70 | the mapped list has one sanitised URL per input, at the same position |
| `Sanitize.SanitizedNonEmpty` | lib/sanitize.ts:68-71 | each kept URL is non-empty and is `sanitizeUrl` of some input; every non-empty sanitised URL is kept as often as it occurs, in input order |
| `Sanitize.SanitizeUrls` | lib/sanitize.ts:65-73 | at most 10 links, none empty, each with an allowed prefix and no refused scheme, each `sanitizeUrl` of some input link |
| `Sanitize.SanitizeUrlsKeepsOrder` | lib/sanitize.ts:68-72 | the kept links are an ordered sub-sequence of the sanitised inputs |
| `Sanitize.SanitizeUrlsKeepsAllUsable` | lib/sanitize.ts:68-72 | when at most ten links survive, every usable link is kept |
| `Sanitize.SanitizeUrlsIdempotent` | lib/sanitize.ts:65-73 | sanitising a sanitised list of links changes nothing |
| `Sanitize.ClampQuantity` | lib/sanitize.ts:86 | the quantity lies in [1, 100]; a quantity in range is kept; NaN, zero or anything below 1 gives 1; anything above 100 gives 100 |
| `Sanitize.SanitizeGiftData` | lib/sanitize.ts:78-88 | name and description are the input texts (empty when missing) passed through `SanitizeText` with bounds 200 and 2000, links are `SanitizeUrls` of the input links, the priority is the input when listed and `MOYEN` otherwise, and the quantity is `ClampQuantity` of the parsed value, in [1, 100] and 1 when missing |
| `Sanitize.SanitizeListData` | lib/sanitize.ts:93-99 | title and description are the input texts (empty when missing) passed through `SanitizeText` with bounds 200 and 2000, so at most that long and free of control characters; public only when `isPublic` is `true` |
| `PasswordValidator.ValidatePassword` | lib/password-validator.ts:1-23 | valid exactly when all five rules hold; valid exactly when there is no message; an invalid result carries the message of a rule that fails |
| `PasswordValidator.FirstFailing` | lib/password-validator.ts:2-20 | the position of the first failing rule: every earlier rule holds, and the rule at that position fails |
| `PasswordValidator.ValidateReportsFirstFailure` | lib/password-validator.ts:2-22 | the validator returns the message of the first failing rule, in the order length, upper case, lower case, digit, special; it accepts when none fails |
| `PasswordValidator.ShortPasswordRejected` | lib/password-validator.ts:2-4 | a password under 12 characters gets the length message, whatever it holds |
| `PasswordValidator.MessagesIdentifyRule` | lib/password-validator.ts:2-20 | different rules have different messages |
| `PasswordValidator.GetPasswordRequirements` | lib/password-validator.ts:25-33 | five requirements, one per rule, in the order the validator checks the rules |
| `RateLimit.CheckStep` | lib/rate-limit.ts:28-43 | other keys are untouched; the request is allowed exactly when the key has no entry, its window has closed, or its count is below the limit; a refusal changes nothing; an allowed request opens a window `{1, now}` or adds exactly 1 to the count |
| `RateLimit.BoundaryBelongsToOldWindow` | lib/rate-limit.ts:32 | at exactly `windowMs` after the window opened, the old window still applies |
| `RateLimit.CheckKeepsCountBound` | lib/rate-limit.ts:33-41 | for a limit of at least 1, `1 <= count <= limit` holds after every check with that limit |
| `RateLimit.RemainingIn` | lib/rate-limit.ts:69-73 | a key without an entry has its whole limit; for a key with an entry the result is never negative; in a table whose counts are all at least 1, it lies in [0, limit] for a limit of zero or more and is below the limit unless it is 0 |
| `RateLimit.CheckAgreesWithRemaining` | lib/rate-limit.ts:37-42 | inside an open window, `check` allows exactly when `remaining` is positive |
| `RateLimit.RemainingAfterReset` | lib/rate-limit.ts:48-50 | after `reset(key)` the key has its whole limit again, and other keys keep their remaining quota |
| `RateLimit.OpenWindowAdmitsRemainingQuota` | lib/rate-limit.ts:37-42 | while a window stays open, exactly the next `remaining` requests get through and the window does not move |
| `RateLimit.AtMostLimitPerWindow` | lib/rate-limit.ts:28-43 | a burst within `windowMs` of its first request, starting without an open window, gets exactly `min(n, limit)` requests through |
| `RateLimit.Pruned` | lib/rate-limit.ts:55-64 | the entries kept are exactly those not older than one hour, with their values unchanged |
| `RateLimit.CleanupIsUnobservable` | lib/rate-limit.ts:55-64 | for windows of at most an hour, a cleanup never changes a later check's verdict or the entry it leaves |
| `RateLimit.RateLimiter.constructor` | lib/rate-limit.ts:11-20 | the limiter starts with an empty table |
| `RateLimit.RateLimiter.Check` | lib/rate-limit.ts:28-43 | the new table and the verdict are those of `CheckStep` on the old table |
| `RateLimit.RateLimiter.Reset` | lib/rate-limit.ts:48-50 | exactly the key's entry is removed |
| `RateLimit.RateLimiter.Cleanup` | lib/rate-limit.ts:55-64 | the loop leaves exactly `Pruned` of the old table |
| `RateLimit.RateLimiter.Remaining` | lib/rate-limit.ts:69-73 | a read-only query returning `RemainingIn`, in [0, limit] for a limit of zero or more |
| `RateLimit.PresetKey` | lib/rate-limit.ts:82-91 | a preset's key is its prefix followed by the IP or user id |
| `RateLimit.PresetLimit` | lib/rate-limit.ts:82-91 | every preset allows at least 1 and at most the default 100 requests per window; the three authentication presets allow at most 5; general API use gets the default 100 |
| `RateLimit.PresetWindowMs` | lib/rate-limit.ts:82-91 | every preset window is positive and at most the hour `cleanup` keeps entries for; the two API presets use the default one-minute window |
| `RateLimit.PresetKeyInjective` | lib/rate-limit.ts:82-91 | no two presets, and no two ids under one preset, share a counter key |
| `RateLimit.CheckPreset` | lib/rate-limit.ts:82-91 | a preset check is `check` under the preset's prefixed key, limit and window |
| `SecurityLog.GetLogLevel` | lib/security-logger.ts:65-83 | `error` exactly for the five error types, `warn` exactly for the three warn types |
| `SecurityLog.LogLevelTable` | lib/security-logger.ts:65-83 | the level of each of the twelve event types, one by one |
| `SecurityLog.Join` | lib/security-logger.ts:94 | the joined string starts with the first part, and is longer than it by at least a separator when there are more parts |
| `SecurityLog.JoinCons` | lib/security-logger.ts:94 | joining a head in front of a non-empty list of parts puts exactly one separator between the head and the join of the rest |
| `SecurityLog.Parts` | lib/security-logger.ts:86-92 | the type is the first part; it is the only part exactly when no field is shown; a shown email is the second part; shown details are the last part |
| `SecurityLog.FormatEvent` | lib/security-logger.ts:85-95 | the line starts with the event type, and is the bare type exactly when no field is present and non-empty |
| `SecurityLog.FormatEventIsConcatenation` | lib/security-logger.ts:85-95 | the whole line is the type followed by the shown fields in the order email, userId, ip, details; each shown field adds the separator, its label (`email=`, `userId=`, `ip=`, `details=`) and its value, and a hidden field adds nothing |
| `SecurityLog.FormatEventShowsFields` | lib/security-logger.ts:86-92 | every present, non-empty field appears as `email=`, `userId=`, `ip=` or `details=` followed by its value |
| `SecurityLog.FormatEventOrder` | lib/security-logger.ts:86-94 | the line starts with the type and the email piece when the email is shown, or with the type and the userId piece when only the userId is |
| `SecurityLog.PushBounded` | lib/security-logger.ts:54-57 | the buffer grows by one below 1000 events and keeps its length otherwise; the new event is last; the events before it are the latest old events, in order |
| `SecurityLog.PushBoundedSpec` | lib/security-logger.ts:54-57 | the buffer length becomes `min(old + 1, 1000)`; the new event is last; the others keep their order, less the oldest on overflow |
| `SecurityLog.SliceFrom` | lib/security-logger.ts:110 | `slice(start)` returns a suffix of the events |
| `SecurityLog.ErrorEventsAreSuspicious` | lib/security-logger.ts:116-127 | every error-level type is one of the suspicious types |
| `SecurityLog.SecurityLogger.constructor` | lib/security-logger.ts:31-33 | the log starts empty |
| `SecurityLog.SecurityLogger.Log` | lib/security-logger.ts:35-63 | the buffer becomes `PushBounded` of the old one and the new stamped event; the level and console line are those of `GetLogLevel` and `FormatEvent` |
| `SecurityLog.SecurityLogger.GetRecentEvents` | lib/security-logger.ts:109-111 | for a limit of 1 or more, the last `min(limit, n)` events in order; all events for 0; the events after the first `-limit` for a negative limit |
| `SecurityLog.SecurityLogger.GetSuspiciousEvents` | lib/security-logger.ts:116-127 | exactly the suspicious events of the buffer, each as often as it occurs there, in the order they were logged |
| `SecurityLog.SuspiciousAfterLog` | lib/security-logger.ts:54-57 | logging appends a suspicious event to the suspicious ones and adds nothing otherwise, after dropping the oldest event when the buffer was full |
| `SecurityLog.LogAuthSuccess` | lib/security-logger.ts:135-141 | logs exactly one `AUTH_SUCCESS` event with the email and ip |
| `SecurityLog.LogAuthFailure` | lib/security-logger.ts:143-150 | logs exactly one `AUTH_FAILURE` event with the email, ip and details |
| `SecurityLog.LogRegisterSuccess` | lib/security-logger.ts:152-159 | logs exactly one `REGISTER_SUCCESS` event with the email, user id and ip |
| `SecurityLog.LogPasswordResetRequest` | lib/security-logger.ts:161-167 | logs exactly one `PASSWORD_RESET_REQUEST` event with the email and ip |
| `SecurityLog.LogPasswordResetSuccess` | lib/security-logger.ts:169-176 | logs exactly one `PASSWORD_RESET_SUCCESS` event with the email, user id and ip |
| `SecurityLog.LogInvalidResetToken` | lib/security-logger.ts:178-184 | logs exactly one `PASSWORD_RESET_INVALID_TOKEN` event with the ip and the fixed details text |
| `SecurityLog.LogRateLimitExceeded` | lib/security-logger.ts:186-192 | logs exactly one `RATE_LIMIT_EXCEEDED` event with the ip and details `Endpoint: ` followed by the endpoint |
| `SecurityLog.LogUnauthorizedAccess` | lib/security-logger.ts:194-201 | logs exactly one `UNAUTHORIZED_ACCESS` event with the user id, ip and details |

## Left out

- The route handlers, pages and components lie outside these four modules and are not
  part of this model. The registration and password-reset routes call `validatePassword`,
  and the reset-password page lists `getPasswordRequirements`; the others do not use these
  modules. Among them, the Secret Santa draw
  `assignSecretSanta` in `app/api/secret-santa/[id]/launch/route.ts` is a self-contained
  shuffle-and-repair algorithm that is not modelled. Neither are the mail sending in
  `lib/email.ts` and the request middleware in `middleware.ts`.
- The clock: `Date.now()` and `new Date()` become a `now` parameter.
- The `setInterval` in the `RateLimiter` constructor that runs `cleanup` every five minutes
  is not modelled. `Cleanup` is a method that callers invoke with the current time.
- Console output and `sendToMonitoring` are not modelled. The logger's `NODE_ENV` test
  guards an empty function. `Log` returns the level and the line instead of writing them.
- Strings are sequences of Unicode characters. JavaScript lengths and `slice` count UTF-16
  code units, so a character outside the Basic Multilingual Plane counts as one here where
  the source counts two.
- `toLowerCase` is modelled on the letters A-Z only. This is exact for the scheme test.
  Every other character whose lower case starts with an ASCII letter is U+0130 (capital I
  with dot above) or U+212A (Kelvin sign). U+0130 lower-cases to `i` followed by the
  combining dot U+0307, and that dot then fails the letter after `i` in `javascript:`,
  `vbscript:` and `file:`. U+212A lower-cases to `k`, which none of the refused schemes
  contains.
- Request bodies are untyped in the source. Each field is modelled as an optional value of
  the expected type. Non-string links, non-array link lists, a `quantity` that is not a
  whole number, and truthy values of `isPublic` other than `true` are not modelled. The
  `quantity` field is the result of `parseInt`, with `None` standing for NaN.
- The numeric bounds are modelled as whole numbers only: `maxLength` of `sanitizeText`,
  `limit` and `windowMs` of `check`, `limit` of `remaining`, and `limit` of
  `getRecentEvents`. In the source they
  are JavaScript numbers. `slice` truncates a fractional bound, and `count >= limit`
  compares a whole count with a fractional limit, which in effect rounds the limit up;
  `remaining` then returns a fractional number.
- Counts and timestamps are unbounded integers. JavaScript numbers are exact up to 2^53,
  far beyond any count or millisecond timestamp these modules meet.
- `Cleanup` visits the keys in an arbitrary order, not in insertion order. Its result does
  not depend on the order.
- The five rate-limit presets are one `CheckPreset` method over a `Preset` table instead of
  five closures. Each closure is the same `check` call with its own key prefix, limit and
  window.
- SanitizeUrls: when more than ten links survive, the lemma `SanitizeUrlsKeepsOrder`
  shows that the kept links are an ordered sub-sequence of the sanitised inputs. Neither it
  nor the function's own contract says that they are the first ten. Saying so would only
  repeat the body's `kept[..MaxUrls]`.
