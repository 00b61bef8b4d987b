# Request trimming and user registration of a MERN social-network backend

This project models the two pieces of logic that the backend's source
actually contains:

- **The request-body trimmer** (`middleware/helpers.js`, module `Helpers`).
  The middleware serialises `req.body` to JSON text, replaces every match of
  the global regular expression `(\s)*"(\s)*` by a single `"`, and parses the
  text again. `Helpers.Trim` is that replacement on the serialised text, written
  as the leftmost, greedy, non-overlapping scan JavaScript performs: where a
  whitespace run followed by a quote starts, the run, the quote and the
  whitespace run after it become one quote; elsewhere one character is copied
  and the scan moves on. `Helpers.TrimByNeighbours` states the same
  replacement independently, one character at a time: a whitespace character
  is dropped exactly when the nearest non-whitespace character on its left or
  on its right is a quote. The two are proved equal. The lemmas prove that
  only whitespace is deleted (so non-whitespace characters keep their order
  and the text never grows), that the number of quotes is unchanged, that no
  whitespace is left beside a quote, that the transform is idempotent, that
  text without quotes comes back unchanged, and that the text can be trimmed
  piecewise around any character that is neither whitespace nor a quote. The
  transform is blunt: it is not aware of JSON string escapes, so a value
  `say " x`, serialised as `say \" x`, comes back as `say "x`.

- **The registration handler** (`routes/api/user.js`, `POST /api/user`,
  module `UserRoute`). `UserRoute.UserStore` holds the user collection as a
  map keyed by email, and `Register` follows the handler step by step:
  validate the request's fields (name not empty, email accepted by the email
  validator, password at least 8 characters; the model reads these fields from
  the body only), reject an email that already has an
  account with the two-element error array, derive the avatar from the email,
  build the user, overwrite its plaintext password with `hash(password,
  salt)`, save it, and reply with a token signed for the payload
  `{ user: { id } }` with a lifetime of 3600 seconds. A rejected lookup,
  salt generation, hash or save replies 500 `Internal Server Error`. Each
  failure leaves the store unchanged; success adds exactly one document and
  changes no other. The email validator, the gravatar URL, bcrypt's hash and
  JWT signing are uninterpreted functions held in a `Services` value together
  with the signing key; the salt and the outcome of each awaited call are
  parameters of `Register`.

The remaining route files of the source (`routes/api/auth.js`,
`routes/api/posts.js`, `routes/api/profile.js`, `routes/api/users.js`) are
stubs that answer with a constant string: the posts, profile and login logic
does not exist in these route files and is not modelled.

## Model

| member | source | states |
|---|---|---|
| `Helpers.IsWsIsEcmaScriptWhitespace` | middleware/helpers.js:7 | the `\s` of the pattern holds on exactly ECMAScript's WhiteSpace code points (TAB, VT, FF, ZERO WIDTH NO-BREAK SPACE and the Unicode space separators) and its LineTerminator code points (LF, CR, LINE SEPARATOR, PARAGRAPH SEPARATOR) |
| `Helpers.WsRun` | middleware/helpers.js:7 | the greedy `(\s)*` consumes the longest whitespace prefix: every consumed character is whitespace and the next one is not |
| `Helpers.MatchEnd` | middleware/helpers.js:7 | a match ends after its quote and the whole whitespace run that follows it, at a non-whitespace character or the end of the text |
| `Helpers.MatchesAtFirstNonWs` | middleware/helpers.js:7 | the pattern matches at a position exactly when the first non-whitespace character from there on is a quote |
| `Helpers.Trim` | middleware/helpers.js:7-8 | the global replacement never makes the serialised body longer |
| `Helpers.TrimDeletesWs` | middleware/helpers.js:7-8 | the output is the input with some whitespace characters deleted and nothing else changed |
| `Helpers.TrimKeepsNonWs` | middleware/helpers.js:7-8 | the non-whitespace characters come out unchanged and in their order, and the output is no longer than the input |
| `Helpers.TrimKeepsQuoteCount` | middleware/helpers.js:7-8 | the number of `"` characters is unchanged: each match holds one quote and is replaced by one |
| `Helpers.TrimHasNoPaddedQuote` | middleware/helpers.js:6-8 | after the replacement no whitespace character sits directly before or after any `"` |
| `Helpers.TrimFixesUnpadded` | middleware/helpers.js:7-8 | text with no whitespace beside any quote is returned unchanged |
| `Helpers.TrimIdempotent` | middleware/helpers.js:7-8 | trimming twice gives the same text as trimming once |
| `Helpers.TrimWithoutQuote` | middleware/helpers.js:7-8 | text containing no `"` is returned unchanged, whatever whitespace it holds |
| `Helpers.MatchesAtIffNextNonWsIsQuote` | middleware/helpers.js:7 | the scan's match test agrees with the neighbour rule's right-hand test, which walks over whitespace one character at a time until it meets a quote |
| `Helpers.TrimMatchesNeighbourRule` | middleware/helpers.js:7-8 | the left-to-right regex scan drops exactly the whitespace whose nearest non-whitespace neighbour on the left or on the right is a quote, and keeps every other character |
| `Helpers.TrimSplits` | middleware/helpers.js:7-8 | no match reaches across a character that is neither whitespace nor a quote, so whitespace away from quotes is kept wherever it sits |
| `Helpers.InteriorSpaceKept` | middleware/helpers.js:7 | the interior space of `a b` is kept |
| `Helpers.RunsAroundQuoteCollapse` | middleware/helpers.js:7-8 | greedy matching removes the runs on both sides of a quote (`␣␣"␣␣` becomes `"`) and `"␣"` becomes `""` |
| `Helpers.EscapedQuoteLosesSpace` | middleware/helpers.js:7-8 | an escaped quote `\"` inside a string value is matched like any quote, so the space after it is removed |
| `UserRoute.Validate` | routes/api/user.js:18-20 | the error list is empty iff the name is non-empty, the email passes the validator and the password has at least 8 characters; each field's error, with its own message, is present iff that field's check fails; the list holds nothing else, and the errors appear in the chains' declared order (name, email, password), so each at most once |
| `UserRoute.EightCharacterPasswordAccepted` | routes/api/user.js:20 | a password of exactly 8 characters is accepted although the message asks for more than 8 |
| `UserRoute.UserStore.FindOne` | routes/api/user.js:35 | the lookup finds a user iff the email is a key of the collection, and then returns that email's document |
| `UserRoute.UserStore.Register` | routes/api/user.js:21-87 | validation errors give 400 with the validator's list before any lookup; a rejected lookup gives 500; a known email gives 400 with `[{msg: 'Hey! You already have an account. Try to Sign in'}, {param: 'email'}]`; a rejected genSalt, hash or save gives 500; all of these leave the store unchanged; otherwise exactly one document is added under the email with the given name, the avatar of the email, the password `hash(password, salt)` and a fresh id, no other entry changes, and the reply is 200 with the token signed for `{user: {id}}` with expiry 3600 |
| `UserRoute.UserStore.RegisterTwice` | routes/api/user.js:35-42 | once a registration has succeeded, registering the same body again takes the duplicate branch and changes nothing: the store holds exactly the first call's document (with `hash(password, salt1)`) and the id counter advanced once |

## Left out

- `JSON.stringify` and `JSON.parse` around the replacement (middleware/helpers.js:4 and 10): the model works on the serialised text and does not model JSON grammar or whether the trimmed text parses again.
- `Helpers.IsWs` writes ECMAScript's `\s` class as a fixed table of code points, and the sets it is proved equal to are written out by hand from the ECMAScript and Unicode tables rather than derived from them. The general lemmas depend on the table only through the quote not being whitespace; the example lemmas also use that the space is whitespace (`RunsAroundQuoteCollapse`, `EscapedQuoteLosesSpace`), and that the backslash is not (`EscapedQuoteLosesSpace`); `InteriorSpaceKept` follows from `a b` holding no quote.
- The rewrite of `req.body` and the call to `next()` in the trimmer: request plumbing.
- `middleware/auth.js`, `config/db.js` and `server.js`: token checking around a library call, the database connection with its `process.exit(1)`, and the HTTP listener.
- The internals of express-validator's `isEmail`, gravatar's URL builder, bcrypt's salt and hash, mongoose's `findOne` and `save`, and `jwt.sign`: uninterpreted functions or parameters.
- UserRoute.Validate: validation is modelled over the body fields only. express-validator's `check` also looks a field up in the cookies, headers, route parameters and query string, while the handler reads the body (routes/api/user.js:30); a password supplied only in the query string passes validation in the source and then makes `bcrypt.hash` reject (a 500 reply), where the model replies 400.
- Request body fields that are not strings: the model reads each field as a string, a missing one as the empty string.
- The `value` and `location` members of express-validator's error objects, and the `console.log` of the caught error.
- The error thrown inside the `jwt.sign` callback (routes/api/user.js:79): it is raised asynchronously, after the handler's try/catch has finished, so it is outside a sequential model.
- The clock input of token signing: `jwt.sign` adds the issue time (`iat`) to the payload, so the real token also depends on the clock; `Services.sign` takes only the payload, the key and the lifetime.
- Store identifiers: mongoose's ObjectId generation is modelled as a counter, so ids are distinct by construction.
- Concurrent registrations of one email: the model runs one request at a time.
