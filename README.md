# Holding credential service — a Dafny model

This project models the credential service of the holding operator
console. It is a small HTTP API with two routes:

- `POST /api/login` checks a login and a password against the
  `holding_users` table and stamps `last_login_at`.
- `POST /api/change-password` re-checks the current password and replaces
  `password_hash` with a `sha256:`-tagged digest.

It also models the browser's helper that keeps the signed-in user record in
`localStorage`.

The model follows the program's own structure:

- **JsText and JsValues** give the language rules the service relies on:
  - ECMAScript `trim`;
  - SQLite's ASCII-only `lower()`;
  - the values `JSON.parse` yields, truthiness, `x || fallback`, property
    access and `Number(x)`.
- **SqlLiteral** is `escapeLiteral`. Its partners are the inverse of the
  quote doubling and a model of how SQLite's tokenizer reads a string
  literal. Together they show that a spliced value is read back as exactly
  that value. A value holding U+0000 puts U+0000 in the statement, which
  can then never reach SQLite.
- **Hex** is Node's hex encoding, as `digest('hex')` writes it, and its
  lenient decoding, as `Buffer.from(…, 'hex')` reads it.
- **UserStore** is the user table. `UserTable` is a class whose `rows`
  field the two UPDATE queries reassign. It offers the four queries of the
  server. `online` says whether the sqlite3 command answers. The statement
  is an argument of that command, and an argument cannot carry U+0000, so
  a spliced value holding one makes the query fail.
- **Passwords** is `hashPassword` and the three modes of `verifyPassword`.
- **RequestBody** is `parseRequestBody`. It is a loop over the body's chunks
  with the running size check.
- **Http** is `sendJson`.
- **CredentialService** has the two handlers. Each is a method over the
  user table. Each is proved equal to a function that gives the response
  and the table afterwards, and the lemmas state the service's rules about
  those functions.
- **FrontDoor** is the route dispatch of `createServer`.
- **UserRecord** covers `DEFAULT_USER`, `normalizeUserRecord`,
  `readUserRecord` and `persistUserRecord`. Local storage is a class
  holding a map.

Some behaviour comes from outside the program. Each of these is a
parameter of the model:

- SHA-256 (`sha256: string -> seq<Byte>`);
- `JSON.parse` of the request body and of the stored record;
- `JSON.stringify` of the stored record;
- the clock's ISO timestamp (`now`).

## Model

| member | source | states |
|---|---|---|
| JsText.Trim | server/index.js:160 | the result has no space at either end and is no longer than the input |
| JsText.TrimInfix | server/index.js:160 | the trimmed text is an infix `s[i..j]` of the input, and everything outside it is white space |
| JsText.TrimOfTrimmed | src/data/userRecord.js:13 | text with nothing to trim is left as it is |
| JsText.TrimIdempotent | src/data/userRecord.js:13 | trimming twice is trimming once |
| JsText.TrimEmptyIff | server/index.js:160-163 | the trimmed text is empty exactly when the input is white space only |
| JsText.AsciiLowerChar | server/index.js:54 | `lower()` maps each of `A`-`Z` to the letter 32 code points above it in `a`-`z`, leaves every other character alone, and never yields a capital |
| JsText.AsciiLowerIdempotent | server/index.js:54 | folding an already folded text changes nothing |
| JsText.SameLoginFolded | server/index.js:54 | a login matches its own folded form, and any login matches it exactly when it matches the folded form |
| JsValues.Or | server/index.js:160-161 | `v \|\| fallback` is `v` when it is truthy, otherwise the fallback |
| JsValues.Get | server/index.js:160-161 | a property read gives an object's own field, and `undefined` for a missing field or a non-object |
| JsValues.StringToNumber | server/index.js:191 | blank text is 0. Any other text is a number exactly when, once trimmed, it is an optionally signed run of digits, and then its value is the digits' decimal value, negated under a `-` |
| JsValues.NatTextValue | server/index.js:191 | reading the decimal text of `n` back gives `n` |
| JsValues.StringToNumberNatText | server/index.js:191 | `Number` of the decimal text of a whole number `n` is `n`, and with a `-` in front it is `-n` |
| JsValues.ValueToNumber | server/index.js:191 | a TypeError exactly when converting the value to text throws (an object with its own `toString`, or an array holding one at any depth). null is 0, `true` is 1 and `false` is 0, a number is itself and a string reads by StringToNumber. Any other object is NaN. An empty array is 0, and two or more elements are NaN. A one-element array reads as its element, except that a boolean element is NaN |
| JsValues.ToNumber | server/index.js:191 | `Number(undefined)` is NaN; any other value converts as ValueToNumber says |
| JsValues.WrappedNumber | server/index.js:191 | `[n]` reads as `n`, but `[true]` and `[false]` are NaN, unlike the booleans themselves |
| SqlLiteral.DoubleQuotes | server/index.js:25 | doubling never shortens, and text without quotes is unchanged |
| SqlLiteral.EscapeLiteral | server/index.js:21-26 | the output is `NULL` exactly for null/undefined; otherwise it is a quoted literal |
| SqlLiteral.UndoubleDoubleQuotes | server/index.js:25 | collapsing `''` to `'` in the escaped interior gives the original string back |
| SqlLiteral.DoubleQuotesUndouble | server/index.js:25 | conversely, text without a lone quote is the doubling of its collapse |
| SqlLiteral.EscapedInterior | server/index.js:25 | the escaped interior has no lone quote that could end the literal |
| SqlLiteral.ReadQuotedPlain | server/index.js:25 | proof step: a character other than a quote, in front of readable literal text, is read as itself |
| SqlLiteral.ReadQuotedPair | server/index.js:25 | proof step: a doubled quote in front of readable literal text is read as one quote |
| SqlLiteral.DoubleQuotesCons | server/index.js:25 | proof step: doubling a non-empty text doubles its first character, then the rest |
| SqlLiteral.ReadQuotedDoubledBefore | server/index.js:25 | the SQL tokenizer reads the doubled text, in front of anything it takes for a closing quote, as the original string |
| SqlLiteral.ReadQuotedDoubled | server/index.js:25 | the SQL tokenizer reads the doubled text, up to the closing quote, as the original string |
| SqlLiteral.EscapeReadsBack | server/index.js:21-26 | whatever text follows the literal in the statement, SQLite reads exactly the escaped value and ends the literal where the escaper put the closing quote |
| SqlLiteral.DoubleQuotesNul | server/index.js:25 | the doubled text holds U+0000 exactly when the original does |
| SqlLiteral.EscapedNul | server/index.js:21-31 | the statement holds U+0000, and so cannot be passed to sqlite3, exactly when the escaped value or the rest of the statement does |
| Hex.DigitChar | server/index.js:98 | each digit written for a nibble reads back as that nibble |
| Hex.Encode | server/index.js:98 | two hex digits per byte, and nothing but hex digits |
| Hex.Decode | server/index.js:114 | the lenient reading never yields more bytes than half the text's length |
| Hex.DecodeEncodeAppend | server/index.js:98-114 | reading a digest's hex followed by any text gives the digest's bytes, then what that text reads as on its own |
| Hex.DecodeEncode | server/index.js:98-114 | the hex of some bytes reads back as exactly those bytes |
| UserStore.FirstLoginMatch | server/index.js:50-59 | the position of the first row whose login equals the given login under `lower()` |
| UserStore.FindByLogin | server/index.js:50-59 | none exactly when no row matches under `lower()`; otherwise the first match in storage order (`LIMIT 1`) |
| UserStore.FirstIdMatch | server/index.js:61-70 | the position of the first row whose id equals the number |
| UserStore.FindById | server/index.js:61-70 | none exactly when no row has the id; otherwise the first such row |
| UserStore.FindByLoginUnique | server/index.js:50-59 | with logins unique up to case, any matching row is the one found |
| UserStore.FindByLoginFolded | server/index.js:50-59 | the lookup ignores ASCII case: asking with the folded login finds the same position and the same row (`operator@holding` finds `Operator@Holding`) |
| UserStore.FindByIdUnique | server/index.js:61-70 | with unique ids, the row holding the id is the one found |
| UserStore.SetLastLogin | server/index.js:72-79 | rows with the id take the timestamp; no other field and no other row changes |
| UserStore.SetPasswordHash | server/index.js:81-88 | rows with the id take the hash; no other field and no other row changes |
| UserStore.SetLastLoginOnly | server/index.js:72-79 | with unique ids, stamping row k's id changes row k only |
| UserStore.SetPasswordHashOnly | server/index.js:81-88 | with unique ids, rehashing row k's id changes row k only |
| UserStore.UserTable.ReadUserByLogin | server/index.js:28-59 | the lookup by the escaped login; DB_QUERY_FAILED when the store does not answer or the login holds U+0000 |
| UserStore.UserTable.ReadUserById | server/index.js:61-70 | the lookup by id; DB_QUERY_FAILED when the store does not answer or the id is NaN |
| UserStore.UserTable.UpdateLastLogin | server/index.js:72-79 | the table becomes SetLastLogin of the old table and stays valid; nothing changes when the store fails or the timestamp holds U+0000 |
| UserStore.UserTable.UpdatePasswordHash | server/index.js:81-88 | the table becomes SetPasswordHash of the old table and stays valid; nothing changes when the store fails or the hash holds U+0000 |
| Passwords.HashPassword | server/index.js:97-98 | the hash starts with `sha256:`, its hex part reads back as the password's digest, and it holds no U+0000 |
| Passwords.VerifyPassword | server/index.js:100-121 | a falsy candidate never verifies. With no stored hash, true exactly when the candidate is the stored login, case included. With a tagged hash, true exactly when the digests are equal, and a mismatch is false, not an error. Any other hash is compared as plaintext. A TypeError exactly when a truthy non-string candidate reaches the digest of a tagged hash |
| Passwords.HashThenVerify | server/index.js:97-114 | a record holding `hashPassword(p)` verifies every non-empty `p` |
| Passwords.HashRejectsOthers | server/index.js:97-114 | after `hashPassword(p)` is stored, a password with another digest is refused |
| Passwords.TrailingTextIgnored | server/index.js:110-117 | text after the digest that is not hex does not stop the hash from verifying |
| RequestBody.ConcatPrefixNoLonger | server/index.js:136-143 | the text received so far is never longer than the whole body |
| RequestBody.BodyValue | server/index.js:134-155 | 413 (PAYLOAD_TOO_LARGE) exactly when the text exceeds 51200 characters; within the limit, empty text is `{}`, and any other text is its parse, or INVALID_JSON when the parse throws |
| RequestBody.ReceiveBody | server/index.js:134-155 | reading chunk by chunk with the running check, stopping at the first overflow, resolves or rejects as BodyValue says |
| Http.SendJson | server/index.js:123-132 | the given status and payload under the fixed JSON/CORS headers |
| Http.Failure | server/index.js:164 | a refusal: the envelope with `ok: false` and the message, and no other field |
| CredentialService.ErrorStatus | server/index.js:183 | 413 exactly for PAYLOAD_TOO_LARGE, 400 exactly for INVALID_JSON, 500 for everything else |
| CredentialService.LoginFault | server/index.js:181-184 | the catch block's answer: ErrorStatus of the error, with `ok: false` and "Сервер авторизации недоступен" only |
| CredentialService.NormalizeUser | server/index.js:90-95 | the view has exactly id, name, login and lastLoginAt (never the hash); name falls back to the placeholder when full_name is empty or null |
| CredentialService.ReadLoginInput | server/index.js:160-161 | a TypeError exactly when the body is null or its truthy login is not a string; the login is the trimmed text of a truthy login and `''` otherwise; a truthy password is passed through unchanged and a falsy one becomes `''` |
| CredentialService.Login | server/index.js:157-185 | every response has the JSON/CORS headers and a payload with `ok`, which is true exactly on 200. A refusal carries a text `message`, and a 200 a four-field user. The status is one of 200, 400, 401, 413, 500. The table changes only on 200 |
| CredentialService.HandleLogin | server/index.js:157-185 | the response and the new table are those of Login for the received body; the table stays valid |
| CredentialService.ReadLoginBody | server/index.js:160-161 | a `{login, password}` body reads as the trimmed login and the password |
| CredentialService.LoginNeedsBothFields | server/index.js:163-166 | a blank trimmed login or a falsy password is 400, whatever the table and whether or not the store answers; nothing is written |
| CredentialService.LoginFailuresAlike | server/index.js:168-172 | an unknown login and a wrong password give the identical 401 response, and nothing is written |
| CredentialService.LoginStoreDown | server/index.js:168-184 | a complete request while the store does not answer is 500, and nothing is written |
| CredentialService.LoginNullBody | server/index.js:160-184 | a body that parses to null is 500, and nothing is written |
| CredentialService.LoginNonStringLogin | server/index.js:160-184 | a truthy login that is not a string is 500, and nothing is written |
| CredentialService.LoginNulRefused | server/index.js:168-184 | a login holding U+0000 is 500 even with the store up, and nothing is written |
| CredentialService.LoginNonStringCandidate | server/index.js:169-184 | a truthy non-string password checked against a `sha256:` hash is 500 |
| CredentialService.LoginSucceeds | server/index.js:174-180 | the matching row whose password verifies gets the timestamp, and no other row or field changes; the response carries that row's view with the new timestamp |
| CredentialService.BootstrapLoginAccepted | server/index.js:105-108 | a row without a hash logs in with its own stored login as the password |
| CredentialService.ReadChangeInput | server/index.js:190-193 | a TypeError exactly when the body is null or its userId cannot be converted by `Number`; the id is `Number(body.userId)`; each truthy password field is passed through unchanged and a falsy one becomes `''` |
| CredentialService.ShorterThan | server/index.js:200 | a string or an array compares its own length. An object with a `length` field throws exactly when `Number` of that field throws, and otherwise compares that number: true exactly when it is finite and below the bound (NaN is false). No `length` field, a boolean or a number is false, and null throws |
| CredentialService.ChangeFault | server/index.js:214-217 | the catch block's answer: ErrorStatus of the error, with `ok: false` and "Не удалось обработать запрос" only |
| CredentialService.ChangePassword | server/index.js:188-219 | the same headers and envelope as Login, never a user, and on 200 the message "Пароль обновлен". The status is one of 200, 400, 401, 413, 500. The table changes only on 200 |
| CredentialService.HandlePasswordChange | server/index.js:188-219 | the response and the new table are those of ChangePassword for the received body; the table stays valid |
| CredentialService.ChangeNeedsAllFields | server/index.js:195-198 | a zero or NaN userId, or an empty current or new password, is 400 and nothing is written |
| CredentialService.ChangeRejectsShortPassword | server/index.js:200-203 | a new password shorter than 8 is 400 before the store is read: the same whatever the table and the current password |
| CredentialService.ChangeRejectsWrongCurrent | server/index.js:205-209 | an unknown id or a wrong current password is 401 and nothing is written |
| CredentialService.ChangeStoreDown | server/index.js:205-217 | a complete, long enough request while the store does not answer is 500, and nothing is written |
| CredentialService.ChangeNullBody | server/index.js:190-217 | a body that parses to null is 500, and nothing is written |
| CredentialService.ChangeIdUnconvertible | server/index.js:191-217 | a userId that `Number` cannot convert is 500, whatever else the body holds |
| CredentialService.ChangeLengthUnconvertible | server/index.js:200-217 | a new password whose `length` `Number` cannot convert is 500 |
| CredentialService.ChangeNonStringCurrent | server/index.js:205-217 | a truthy non-string current password checked against a `sha256:` hash makes the digest throw: 500, and nothing is written |
| CredentialService.ChangeNonStringNewPassword | server/index.js:206-217 | a non-string new password that passes the checks is 500 once the current password verifies, and nothing is written |
| CredentialService.ChangeSucceeds | server/index.js:211-213 | only that row's password_hash changes, to `hashPassword(newPassword)`; its last_login_at and all other rows stay; the new password then verifies |
| CredentialService.RotateThenLogin | server/index.js:211-213 | after a rotation the new password logs in, and a password with another digest gets 401 |
| FrontDoor.RouteOf | server/index.js:229-248 | preflight exactly for OPTIONS on a path starting `/api/`; each handler exactly for POST on its exact path; everything else not found |
| FrontDoor.Served | server/index.js:229-248 | every response carries the JSON/CORS headers. The status is one of 200, 204, 400, 401, 404, 413, 500. A 204 has the payload `{}`, which Node does not send since a 204 carries no body, and every other answer has the envelope of Login. The table changes only on 200 |
| FrontDoor.Serve | server/index.js:229-248 | the response and the new table are those of Served; the table stays valid |
| FrontDoor.PreflightAnswered | server/index.js:232-235 | OPTIONS on any `/api/` path is an empty 204, whatever the body, and the table is untouched |
| FrontDoor.UnknownRouteNotFound | server/index.js:247 | any other method or path is 404 "Endpoint not found" and the table is untouched |
| FrontDoor.OversizedBodyRejected | server/index.js:139-142 | a routed POST whose text exceeds the limit is 413 and nothing is written |
| FrontDoor.UnparsableBodyRejected | server/index.js:151-153 | a routed POST whose non-empty text does not parse is 400 and nothing is written |
| FrontDoor.EmptyBodyMissingFields | server/index.js:145-148 | an empty body reads as `{}`, which is a 400 with the route's own message |
| UserRecord.Source | src/data/userRecord.js:12 | an object or array is used as the source; anything else is replaced by DEFAULT_USER |
| UserRecord.PasswordOr | src/data/userRecord.js:19 | the source's password unless it is null or missing, then the login; never null |
| UserRecord.LoginValue | src/data/userRecord.js:13 | the source's login when truthy, else the default login |
| UserRecord.Normalize | src/data/userRecord.js:11-21 | a TypeError exactly when the login to trim is not a string |
| UserRecord.NormalizeKeys | src/data/userRecord.js:15-17 | the record has the default keys and the source's own keys, and no others |
| UserRecord.NormalizeOtherFields | src/data/userRecord.js:15-17 | every other field is the source's when present, else the default |
| UserRecord.NormalizeLogin | src/data/userRecord.js:13 | login is `(source.login \|\| 'operator@holding').trim()` |
| UserRecord.NormalizePassword | src/data/userRecord.js:19 | password is the source's unless it is null or missing, in which case it is the resulting login |
| UserRecord.DefaultLoginTrimmed | src/data/userRecord.js:6 | the default login has nothing to trim |
| UserRecord.DefaultNormalizes | src/data/userRecord.js:3-9 | normalising DEFAULT_USER gives the defaults with the default login as password |
| UserRecord.MergeAbsorbed | src/data/userRecord.js:15-20 | spreading a record that already has every default key and its own login and password gives that record |
| UserRecord.MergeOverwritten | src/data/userRecord.js:15-20 | two sources that differ only on keys written afterwards merge alike |
| UserRecord.NonObjectUsesDefault | src/data/userRecord.js:12 | null, primitives and strings normalise exactly as DEFAULT_USER does |
| UserRecord.EmptyPasswordKept | src/data/userRecord.js:19 | an empty-string password is kept |
| UserRecord.NormalizeIdempotent | src/data/userRecord.js:11-21 | normalising twice is normalising once, when the trimmed login is not empty |
| UserRecord.BlankLoginNotIdempotent | src/data/userRecord.js:13-19 | when the trimmed login is empty, a second pass puts the default login in its place, so the two passes differ |
| UserRecord.SpacesLoginIsBlank | src/data/userRecord.js:13 | a login of spaces only is such a case |
| UserRecord.LocalStorage.GetItem | src/data/userRecord.js:28 | the stored value, or none for a missing key |
| UserRecord.LocalStorage.SetItem | src/data/userRecord.js:52 | the key now maps to the value and nothing else changes |
| UserRecord.LocalStorage.RemoveItem | src/data/userRecord.js:37 | the key is gone and nothing else changes |
| UserRecord.Read | src/data/userRecord.js:23-40 | only the record's key may go, and only along with a default answer. A missing or empty entry is the normalised default. An entry that does not parse, or whose normalisation throws, is removed and the default returned. Otherwise the parsed value is normalised |
| UserRecord.ReadUserRecord | src/data/userRecord.js:23-40 | without a window, the default; otherwise the record and the storage afterwards are those of Read |
| UserRecord.Payload | src/data/userRecord.js:47-50 | the record's fields, with `password` kept or set to null |
| UserRecord.Persisted | src/data/userRecord.js:52 | only the record's key changes, to the payload's JSON text |
| UserRecord.PersistUserRecord | src/data/userRecord.js:42-53 | the storage afterwards is Persisted of the storage before (nothing without a window) |
| UserRecord.PayloadNormalizesAlike | src/data/userRecord.js:47-50 | writing the explicit null password changes nothing that normalisation sees |
| UserRecord.PersistThenRead | src/data/userRecord.js:42-53 | persist then read gives `normalizeUserRecord(record)` when the payload's JSON round-trips (the default when that normalisation throws) |

## Left out

- The sqlite3 subprocess is replaced by the table of rows
  (server/index.js:28-48). So are its JSON output, `ensureDatabase` with
  `process.exit` (11-19) and `server.listen` (250-253). In the source,
  sqlite3 output that does not parse becomes "no rows", and that case is
  not part of this model.
- UserStore.UserTable: `online` is fixed per table, so a store that
  answers the lookup and then fails on the UPDATE is not modelled.
- The race between verifying and updating in concurrent requests is
  concurrency, outside a sequential model.
- SHA-256 and `crypto.timingSafeEqual` are foreign calls. The digest is a
  parameter, and the constant-time comparison cannot be stated. The model
  compares the decoded bytes.
- `JSON.parse`, `JSON.stringify` and `new Date().toISOString()` are
  parameters. CredentialService.HandleLogin and FrontDoor.Serve require
  the timestamp to hold no U+0000, as `toISOString` text never does.
- UserRecord.PersistThenRead assumes that the payload's JSON text parses
  back to the payload. `undefined` values and other values that do not
  survive JSON are not representable in the model.
- Transport: the body arrives as already-decoded text chunks. A multi-byte
  character split across chunks, `req.connection.destroy()` and the
  response written after it, `resolvePathname` with its URL parsing
  (221-227), and `req.url || '/'` are not modelled. The dispatcher is given
  the pathname.
- RequestBody.BodyValue and CredentialService.ShorterThan count string
  length in characters, while JavaScript counts UTF-16 code units. The
  two differ for characters outside the Basic Multilingual Plane.
- JsValues.StringToNumber reads only signed decimal integers. Fractions,
  exponents, `0x`/`0o`/`0b` prefixes and `Infinity` give NaN here, whereas
  JavaScript gives a number.
- JsValues.JsNumber is an exact real or NaN, not an IEEE double. A
  number past the double range, such as `"1e400"` or a very long digit
  string, is Infinity in JavaScript. Spliced into the id query, Infinity
  names no column, so the source answers DB_QUERY_FAILED (500), whereas
  here the id is a finite number that matches no row. Long digit strings
  that JavaScript rounds (`9007199254740993` reads as `...992`) keep their
  exact value here.
- UserStore.UserRow holds integer ids. The source splices `Number(id)`
  into the UPDATE statements (server/index.js:76, 85), so a row whose
  id is non-numeric text would turn into NaN there. The UPDATE would then fail and a verified
  login or password change would answer 500 DB_QUERY_FAILED. Such rows
  cannot be expressed in this model.
- JsValues.ValueToNumber reads a number's own text back as that number
  rather than through StringToNumber. JavaScript's number-to-text
  conversion is not modelled, and its text always reads back as the same
  number.
- UserRecord.Normalize treats an array source as having no own fields. The
  spread also copies an array's index keys.
- Response bodies are JSON values. Their serialisation by `JSON.stringify`
  and the order of keys are not modelled.
- `console.error` logging is left out.
- The React screens (`src/components/*`), the session glue in `src/App.js`
  and the process supervisor `scripts/dev.js` are not part of this model.
- Failing `localStorage` calls (quota or security errors) are not modelled.
