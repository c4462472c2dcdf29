# Shared utilities and demo endpoints of solid-adonis-starter, in Dafny

This project models the shared utility package of the starter, used by both the
AdonisJS backend and the SolidStart frontend. It covers the timestamp formatter,
the mock-user generator, the email validator, the greeting generator and the
response-envelope builder. It also models the backend's `SharedTestController`,
whose four endpoints (`greeting`, `user`, `validate-email`, `all`) check their
query parameter and wrap the utilities' results in the envelope.

Everything is pure, so the model is datatypes, functions and lemmas:

- `wrappers.dfy`: `Option` for `undefined` and `Result` for a thrown error.
- `chars.dfy`: the `\s` class of ECMAScript regular expressions, decimal digit strings and ASCII lower-casing.
- `timestamps.dfy`: `formatTimestamp`. An instant is given as calendar components (year 0..9999).
  `ToIsoString` writes it the way `Date.prototype.toISOString` does. Replacing the first `T` and the
  `/\.\d{3}Z$/` suffix then gives `YYYY-MM-DD HH:mm:ss UTC`. `ParseFormatted` reads that form back.
- `mock_users.dfy`: `generateMockUser` over every safe integer id (at most 2^53 − 1 in magnitude).
  It uses JavaScript's truncating `%`, so an index outside a list reads `undefined`.
- `emails.dfy`: `isValidEmail`. A scanner with seven states, one of them a rejecting sink, is proved
  to accept exactly the strings that split as `[^\s@]+ @ [^\s@]+ . [^\s@]+`.
- `greetings.dfy`: `generateGreeting`, with the local hour and the current instant as parameters.
- `api.dfy`, `responses.dfy`: the `ApiResponse` shape and `createApiResponse`.
  `data` is a map of JSON values; the formatted current time is merged in under `timestamp`.
- `js_numbers.dfy`: what the `user` endpoint needs from `Number(id)`. It decides whether the string
  is a StringNumericLiteral of ECMA-262 (otherwise the result is NaN), and gives the exact value of
  an optionally signed run of decimal digits within ±(2^53 − 1).
- `shared_test_controller.dfy`: each endpoint as a function from its query parameter
  (`None` when absent) and the clock readings to the status and the envelope.

Every clock read of the source is a separate parameter: `greetingTime`, `userTime`, `responseTime`.
The local hour is a parameter too.

The code behaves differently from a plain "modulo" description for negative ids, and the model
follows the code. `-7 % 5` is `-2` in JavaScript, `users[-2]` is `undefined`, and
`name.toLowerCase()` throws. A negative multiple of 5 such as `-5` gives `-0`, which reads
`users[0]` ("Alice"). Its domain is then `domains[-2]`, so the email is `alice-5@undefined`.
Only ids that are also multiples of 3, such as `-15`, get a real domain. The users' endpoint
reaches these cases through `id=-1` or `id=-5`.

## Model

| member | source | states |
|---|---|---|
| `Chars.PadValue` | apps/shared/src/utils/index.ts:20 | a zero-padded field of the ISO rendering reads back as the number written |
| `Chars.PadOfValue` | apps/shared/src/utils/index.ts:20 | a digit string is the zero-padded rendering of its own value |
| `Chars.DecimalValue` | apps/shared/src/utils/index.ts:38 | the decimal numeral interpolated for `${id}` reads back as the id |
| `Timestamps.ToIsoString` | apps/shared/src/utils/index.ts:19-20 | `toISOString` gives 24 characters `YYYY-MM-DDTHH:mm:ss.sssZ`, with `T`, `.` and `Z` at positions 10, 19 and 23 and every field zero-padded |
| `Timestamps.ReplaceFirst` | apps/shared/src/utils/index.ts:21 | `replace('T', ' ')` leaves a string without `T` unchanged; otherwise one character gives way to the replacement |
| `Timestamps.ReplaceFirstAt` | apps/shared/src/utils/index.ts:21 | `replace('T', ' ')` changes the first `T` only and keeps everything around it |
| `Timestamps.ReplaceMillisSuffix` | apps/shared/src/utils/index.ts:22 | where `/\.\d{3}Z$/` matches (a dot, three digits and `Z` followed by the end anchor), the match can only be the last five characters, and it becomes ` UTC` with everything before it kept; a string without a match is unchanged |
| `Timestamps.FormatTimestamp` | apps/shared/src/utils/index.ts:17-23 | the two replacements applied to the ISO rendering give 23 characters: the date `YYYY-MM-DD`, a space, the time `HH:mm:ss` and ` UTC` |
| `Timestamps.FormatTimestampLayout` | apps/shared/src/utils/index.ts:17-23 | the result has 23 characters; the ISO date (first 10) and time (characters 11-18) are kept, position 10 is a space, the milliseconds are dropped and ` UTC` ends it |
| `Timestamps.FormatTimestampExample` | apps/shared/src/utils/index.ts:17-23 | `2024-01-15T10:30:00.000Z` formats as `2024-01-15 10:30:00 UTC` |
| `Timestamps.FormatThenParse` | apps/shared/src/utils/index.ts:17-23 | a formatted timestamp parses back to the same instant, to the second |
| `Timestamps.ParseThenFormat` | apps/shared/src/utils/index.ts:17-23 | every string in the formatted layout that parses is exactly the formatting of its instant |
| `Timestamps.ParseFormatted` | apps/shared/src/utils/index.ts:21-22 | whatever parses has the `YYYY-MM-DD HH:mm:ss UTC` layout, is a valid instant and has no milliseconds |
| `MockUsers.Remainder` | apps/shared/src/utils/index.ts:32-33 | JavaScript `%` lies strictly between `-n` and `n`, equals Dafny's `%` for non-negative ids and is never positive for negative ids |
| `MockUsers.RemainderIsCongruent` | apps/shared/src/utils/index.ts:32-33 | the JavaScript remainder differs from the id by a multiple of the list length |
| `MockUsers.NumberToString` | apps/shared/src/utils/index.ts:38 | `${id}` of a safe integer starts with `-` exactly when the id is negative; the rest is a digit string without leading zeros that reads back as the magnitude |
| `MockUsers.GenerateMockUser` | apps/shared/src/utils/index.ts:28-40 | only a negative id can throw, and what it throws is the TypeError of `name.toLowerCase()`; a user keeps the id, has one of the five listed names and is created at the formatted current time |
| `MockUsers.SelectionOfNonNegativeId` | apps/shared/src/utils/index.ts:29-33 | for `id >= 0` the name is `Names[id % 5]` and the domain is `Domains[id % 3]`, from the fixed lists in their fixed order |
| `MockUsers.MockUserOfNonNegativeId` | apps/shared/src/utils/index.ts:28-40 | for `id >= 0` nothing throws; the id is kept, and the email is lowercase(name) ++ decimal(id) ++ `@` ++ domain; `createdAt` is the formatted current time |
| `MockUsers.MockUserPeriod` | apps/shared/src/utils/index.ts:29-38 | ids `id` and `id + 15` get the same name and the same domain, whatever the clock |
| `MockUsers.MockUserOfNegativeId` | apps/shared/src/utils/index.ts:32-38 | an id `-m` throws exactly when `m` is not a multiple of 5; otherwise the name is Alice, and the domain is `example.com` if `m` is a multiple of 3 and the word `undefined` if not |
| `MockUsers.NegativeIdThrows` | apps/shared/src/utils/index.ts:32-38 | `-m` with `m` not a multiple of 5 throws the TypeError of `name.toLowerCase()` |
| `MockUsers.MockUserExample` | apps/shared/src/utils/index.ts:28-40 | id 1 is `Bob` with email `bob1@test.org` |
| `MockUsers.MockUserEmailIsValid` | apps/shared/src/utils/index.ts:29-38 | for every `id >= 0` the generated email passes `isValidEmail` |
| `MockUsers.UndefinedDomainIsInvalid` | apps/shared/src/utils/index.ts:38 | an email whose domain is `undefined` never passes `isValidEmail` |
| `MockUsers.NegativeIdEmailValidity` | apps/shared/src/utils/index.ts:32-38 | for a negative id that does not throw, the email passes `isValidEmail` exactly when the id is a multiple of 3 |
| `Emails.IsValidEmail` | apps/shared/src/utils/index.ts:61-64 | the validator accepts a string if and only if it is a run of `[^\s@]`, `@`, a run, `.`, a run, with nothing before or after |
| `Emails.ValidEmailShape` | apps/shared/src/utils/index.ts:62-63 | an accepted string has no whitespace and exactly one `@`, and a `.` after it with a character on each side |
| `Emails.RejectsWithoutAt` | apps/shared/src/utils/index.ts:62 | a string without `@` is rejected |
| `Emails.EmailExamples` | apps/backend/tests/functional/routes.spec.ts:73-97 | `test@example.com` is accepted; `invalid-email` and the empty string are rejected |
| `Greetings.TimeOfDay` | apps/shared/src/utils/index.ts:70-79 | morning exactly when hour < 12, afternoon exactly when 12 <= hour < 18, evening exactly when hour >= 18; the initial `day` is never the result |
| `Greetings.GenerateGreeting` | apps/shared/src/utils/index.ts:69-82 | the greeting is `Good `, the bucket, `, `, the name unchanged, `! Current time: ` and the 23-character formatted timestamp, in that order |
| `Greetings.GreetingRecoversNameAndTime` | apps/shared/src/utils/index.ts:81 | the name can be cut back out of the greeting, and its last 23 characters parse back to the instant |
| `Chars.Lower` | apps/shared/src/utils/index.ts:38 | `toLowerCase` keeps the length, turns each ASCII capital into its small letter and keeps every other character, so no capital is left |
| `Responses.CreateApiResponse` | apps/shared/src/utils/index.ts:46-56 | `success` and `message` are copied and `errors` is absent; `data` is absent exactly when none is passed; given data, the result keeps every other field and adds `timestamp` (the formatted current time), which overrides a field of that name |
| `Responses.ResponseTimestampParses` | apps/shared/src/utils/index.ts:54 | the injected `timestamp` parses back to the response instant |
| `JsNumbers.StringToNumber` | apps/backend/app/controllers/shared_test_controller.ts:40 | an integer read from the id is within the safe-integer range, so it is exact |
| `JsNumbers.NaNExactlyNonLiterals` | apps/backend/app/controllers/shared_test_controller.ts:36 | `Number(s)` is NaN if and only if `s` is not a StringNumericLiteral |
| `JsNumbers.DigitsToNumber` | apps/backend/app/controllers/shared_test_controller.ts:36-40 | a run of decimal digits within the safe range reads as its value |
| `JsNumbers.NegativeDigitsToNumber` | apps/backend/app/controllers/shared_test_controller.ts:36-40 | a minus sign and digits read as the negative value |
| `JsNumbers.LiteralFirstChar` | apps/backend/app/controllers/shared_test_controller.ts:36 | every numeric literal starts with a digit, `.`, a sign or the `I` of `Infinity` |
| `JsNumbers.InvalidIsNaN` | apps/backend/tests/functional/routes.spec.ts:63-71 | `Number("invalid")` is NaN |
| `SharedTestController.Greeting` | apps/backend/app/controllers/shared_test_controller.ts:13-28 | the answer is 200 exactly when a non-empty name is given and 400 otherwise; `success` and the presence of `data` go with the 200 |
| `SharedTestController.User` | apps/backend/app/controllers/shared_test_controller.ts:33-44 | a throw happens only for an accepted id that reads as a negative number; otherwise the answer is 200 exactly when the id is present, non-empty and not NaN, else 400; `success` and the presence of `data` go with the 200 |
| `SharedTestController.ValidateEmail` | apps/backend/app/controllers/shared_test_controller.ts:49-65 | the answer is 200 exactly when a non-empty email is given, whether or not it is valid, and 400 otherwise; `success` and the presence of `data` go with the 200 |
| `SharedTestController.All` | apps/backend/app/controllers/shared_test_controller.ts:70-83 | the aggregate needs no parameter and always answers 200 and success, with exactly the keys `greeting`, `user`, `emailValidation` and `timestamp` |
| `SharedTestController.GreetingWithoutName` | apps/backend/app/controllers/shared_test_controller.ts:16-17 | a missing or empty name gives 400, `success` false, "Name parameter is required" and no data |
| `SharedTestController.GreetingWithName` | apps/backend/app/controllers/shared_test_controller.ts:20-27 | a name gives 200 and "Greeting generated successfully"; the data holds `greeting`, `name` and `timestamp`, with `name` the input and `greeting` the generated greeting for it |
| `SharedTestController.UserWithoutValidId` | apps/backend/app/controllers/shared_test_controller.ts:36-37 | an absent, empty or NaN id gives 400 and "Valid ID parameter is required" with no data; the reply does not depend on the generator's clock, so no user is generated |
| `SharedTestController.UserRejectionExamples` | apps/backend/tests/functional/routes.spec.ts:53-71 | no id and `id=invalid` are both rejected with that message |
| `SharedTestController.UserThrowsOnlyInGenerator` | apps/backend/app/controllers/shared_test_controller.ts:40-43 | an id read as an integer (such as `-5` or `+1`) fails exactly when `generateMockUser` throws, with the same error; otherwise the reply is 200 with "Mock user generated successfully" and the user's fields plus `timestamp` as data |
| `SharedTestController.UserWithDecimalId` | apps/backend/app/controllers/shared_test_controller.ts:40-43 | a decimal id gives 200 and "Mock user generated successfully"; the data is the fields of `generateMockUser(id)` plus `timestamp` |
| `SharedTestController.UserExample` | apps/backend/app/controllers/shared_test_controller.ts:40-43 | `id=1` answers 200 with exactly the fields of user 1, Bob with email bob1@test.org, plus `timestamp` |
| `SharedTestController.UserWithNegativeIdThrows` | apps/backend/app/controllers/shared_test_controller.ts:40-41 | `id=-m` with `m` not a multiple of 5 throws inside `generateMockUser`: no reply is built |
| `SharedTestController.ValidateEmailWithoutEmail` | apps/backend/app/controllers/shared_test_controller.ts:52-53 | a missing or empty email gives 400, "Email parameter is required" and no data |
| `SharedTestController.ValidateEmailWithEmail` | apps/backend/app/controllers/shared_test_controller.ts:56-64 | a present email always gives 200 and success, also when it is invalid; `isValid` is the validator's verdict; the inner message is "Valid email format" exactly when it is valid and "Invalid email format" exactly when not |
| `SharedTestController.ValidateEmailExamples` | apps/backend/tests/functional/routes.spec.ts:73-97 | `test@example.com` reports valid; `invalid-email` reports invalid with "Invalid email format" |
| `SharedTestController.AllReports` | apps/backend/app/controllers/shared_test_controller.ts:70-82 | the aggregate always answers 200 and success; its data is exactly the Developer greeting, user 1 (Bob, bob1@test.org), `valid` true, `invalid` false and `timestamp` |

## Left out

- Clock reads (`new Date()`, `getHours()`) are parameters. Time zones are not modelled, so nothing
  relates the local hour to the UTC timestamp.
- Building a `Date` from a string or a number, the epoch-to-calendar conversion and invalid dates
  (where `toISOString` throws) are not modelled. `FormatTimestamp` takes valid calendar components.
- `Timestamps.FormatTimestamp`: years outside 0..9999 are excluded. `toISOString` writes six-digit
  signed years for them.
- `MockUsers.GenerateMockUser`: ids beyond ±(2^53 − 1) are excluded. There a double no longer holds
  every integer, and Number::toString writes the shortest numeral that reads back to the same double
  (exponent notation from 10^21 on), not the exact decimal. An id that is not an integer always throws
  in the source (its remainder is fractional, so the name is `undefined`). Such ids are not
  representable here.
- `SharedTestController.User`: a present id whose `Number(...)` value the model does not compute is
  excluded. These are fractions, exponents, `0x`/`0o`/`0b` literals, `Infinity`, and digit runs
  beyond ±(2^53 − 1), where the double rounds. Their NaN decision is modelled; the value they lead to is not.
- A thrown error is the `Failure` of `User`. The framework's exception handler, which turns it into
  an HTTP 500, is not part of this model.
- Query values that are arrays, and the `String(...)` coercions of them, are not modelled.
  A parameter is absent or one string.
- `createApiResponse` with a falsy non-object `data` (`0`, `""`, `false`, `null`) is not modelled.
  Every caller passes an object or nothing.
- The key order of JSON objects is not modelled (objects are maps), and neither is JSON serialisation.
- `toLowerCase` is modelled for ASCII only; the names it is applied to are ASCII.
- HTTP plumbing (`HttpContext`, `response.status().json()`), the route table in
  apps/backend/start/routes.ts, the request-logging middleware, and the CORS configuration are not modelled.
- The frontend page, its fetch and its configuration are not modelled.
- The type-only declarations in apps/shared/src/types/user.ts and the rest of apps/shared/src/types/api.ts
  have no behaviour. Only the `ApiResponse` shape is modelled.
