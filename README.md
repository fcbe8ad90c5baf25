# FacePrep SRMIST login service — verified model

A Dafny model of the request-handling core of a small HTTP service, which
exists as two parallel servers: a Python one (`server.py`) and a Node one
(`server.js`). The service:

- accepts an email and password on `POST /api/login`;
- requires both fields, then requires the email to end with
  `@srmist.edu.in`, ignoring case;
- appends each accepted pair, with a timestamp, to an append-only text file
  of credentials. The password is stored in plain text, as the source does;
- returns that whole file on `GET /api/admin/credentials` when the
  `X-Admin-Key` header equals the fixed key `srmist-admin-2024`.

The model's modules:

- `Common` (common.dfy):
  - the fixed configuration and messages;
  - the string operations the handlers use: ASCII lower-casing, the suffix test,
    and Python's `str.strip` with its exact whitespace set;
  - the layout of one entry;
  - the `{success, message?, data?}` envelope;
  - the mapping from a validation verdict to the reply and the append.
- `EntryLog` (entry_log.dfy): a line parser for entries and for a whole
  credentials file (banner followed by entries). Its lemmas prove that what
  the servers write reads back as the recorded credentials (for Python the
  stripped email), for fields without line breaks.
- `Store` (store.dfy): the credentials file as a class with fields
  `present`, `text`, `unreadable` (an environmental read fault) and a ghost
  read counter. Its methods are start-up initialisation, append-mode write
  and whole-file read. The read returns the text verbatim, as Node's
  `readFileSync` does.
- `PyServer` (py_server.dfy): the Python handler.
  - Pure functions state the login decision (`Validate`, `Login`), the admin
    gate (`Admin`), dispatch (`Route`), and the text-mode read of the file
    (`UniversalNewlines`, `TextRead`): `open(..., 'r')` turns every `\r\n`
    and every lone `\r` into `\n`.
  - Class `Handler` holds the request path that `do_GET` rewrites. It also
    holds the sequence of status line, headers, end of headers and payload
    that the handler writes step by step.
- `JsServer` (js_server.dfy): the Node routes.
  - The same decisions as Python, with JavaScript's falsy test and no
    trimming.
  - Class `App`: its constructor performs the start-up file creation, and
    its two route methods return the reply they send.
- `Divergence` (divergence.dfy): where the two servers agree and where they
  differ.

Inputs of the model:

- The clock reading (`strftime` in Python, `toLocaleString` in Node) is an
  opaque `timestamp` string.
- The JSON decode result is an `Option<LoginBody>`. `None` means
  `json.loads` raised `JSONDecodeError`, the one error the Python handler
  catches.
- The JSON encoder is a function parameter of the handler.
- The admin key header is an `Option<string>` value. The lookup that
  produces it is not modelled: when the header is sent more than once,
  Python's `headers.get` takes the first value and Node joins the values
  with `", "`, so a key sent twice is accepted by Python and rejected by
  Node.
- A failing file read is the store's `unreadable` flag or an absent file.

Which email each server records, and what is modelled of dispatch:

- The Python code records the stripped email (`server.py:47`,
  `server.py:68`).
- The Node code records the email as received and never trims it
  (`server.js:24`, `server.js:44`).
- Only the Python dispatch of `GET`, `POST` and `OPTIONS` is modelled. The
  Node routing is done by middleware (see Left out).

Security note, preserved as behaviour rather than fixed: passwords are stored
and returned in plain text, and the admin key is a constant compared with
ordinary string equality.

## Model

| member | source | states |
|---|---|---|
| `Common.Repeat` | server.py:68 | the divider is exactly `n` copies of the character (`'─' * 40`) |
| `Common.Strip` | server.py:47 | the result is the input with its maximal all-whitespace prefix and suffix removed: a contiguous slice that neither starts nor ends with whitespace, with only whitespace cut on either side |
| `Common.StripEmptyIffBlank` | server.py:47-51 | stripping gives the empty string exactly when every character is whitespace |
| `Common.StripTrimmed` | server.py:47 | an email without surrounding whitespace is unchanged by stripping |
| `Common.Lower` | server.py:59 | lower-casing keeps the length of the email; its effect on each character is stated by `Common.LowerCases` |
| `Common.LowerCases` | server.py:59 | lower-casing keeps each character up to its letter case (a capital becomes its small letter, anything else is kept) and leaves no capital letter |
| `Common.EndsWith` | server.py:59 | `endswith` holds exactly when the suffix fits and each of its characters equals the corresponding one of the last characters of the string; then the string is some prefix followed by the suffix |
| `Common.DomainCaseInsensitive` | server.py:59 | `lower().endswith('@srmist.edu.in')` holds exactly when each of the last 14 characters of the email is the domain's character, small or capital |
| `Common.Entry` | server.py:67-68 | the entry starts with `[`, ends with the 40-character divider and an empty line, and is 64 characters longer than its three fields; `EntryLog.ParseEntryOfEntry` proves it reads back |
| `Common.Decide` | server.py:51-76 | missing fields give 400 "Email and password are required"; a wrong domain gives 400 "Only @srmist.edu.in ..."; acceptance gives 200 with the welcome message and exactly one entry `[ts]\nEmail: e\nPassword: p\n` + 40 dividers + `\n\n`; an append happens if and only if the status is 200 |
| `EntryLog.ParseEntryOfEntry` | server.py:67-68 | an entry whose fields hold no line break parses back to the same timestamp, email and password, and leaves the following text untouched |
| `EntryLog.ParseEntriesOfRender` | server.py:70-71 | a sequence of such entries written one after another parses back to the same sequence |
| `EntryLog.ParseFileOfLog` | server.py:14-16 | a file made of the two-line banner followed by entries parses back to exactly those entries, in order |
| `EntryLog.LogAfterAppend` | server.py:70-71 | appending the entry of one more credential to such a file gives the file of the extended sequence, which reads back as exactly the earlier entries followed by the new one |
| `EntryLog.LogAfterTwo` | server.py:70-71 | two appends in a row keep both entries, in order, even when the two credentials are equal |
| `Store.CredentialsFile.Initialise` | server.py:14-16 | an absent file is created holding exactly `=== SRMIST Login Credentials ===\n\n`; an existing file is left as it is |
| `Store.CredentialsFile.Append` | server.py:70-71 | the new content is the old content (empty if the file was absent) followed by the string; old content stays a prefix |
| `Store.CredentialsFile.Read` | server.js:67 | the read yields the whole content verbatim, as `readFileSync(..., 'utf8')` does, or nothing when the file is absent or unreadable; the read is counted |
| `PyServer.Validate` | server.py:47-64 | "required" exactly when the email is absent or all whitespace or the password is absent or empty; "domain" exactly when both pass and the stripped, lower-cased email lacks the suffix; on acceptance the recorded email is the stripped one, non-empty and trimmed |
| `PyServer.Login` | server.py:41-82 | an undecodable body gives 400 "Invalid request format" and no append; every outcome is 200 or 400; an append happens exactly on 200, and it is the entry of the timestamp, the stripped email and the password |
| `PyServer.RequiredFields` | server.py:47-56 | the "required" rejection happens exactly when the email is absent, empty or all whitespace, or the password is absent or empty; it never appends |
| `PyServer.RequiredBeforeDomain` | server.py:51-64 | a blank email is never answered with the domain message: the required-field check comes first |
| `PyServer.DomainRejection` | server.py:59-64 | the domain rejection happens exactly when both fields are present and the stripped, lower-cased email does not end with the domain; it never appends |
| `PyServer.AcceptedLogin` | server.py:47-68 | a login appends exactly when both checks pass; the recorded email is the stripped one, non-empty and without surrounding whitespace |
| `PyServer.LoginGrowsLog` | server.py:66-71 | on a file of banner and entries, an accepted login turns the file into the banner followed by the earlier entries and the new credential (timestamp, stripped email, password), and that file reads back as exactly those entries |
| `PyServer.RepeatedLogin` | server.py:66-71 | the same accepted request submitted twice makes the file read back as the earlier entries plus two new ones, even with equal timestamps: no deduplication |
| `PyServer.Admin` | server.py:84-106 | 401 "Unauthorized access" exactly when the header is not the key (an absent header included); 200 with `data` equal to what the read returned exactly when the key matches and the read succeeds; 500 "Error reading credentials file" exactly when the key matches and the read fails |
| `PyServer.UniversalNewlines` | server.py:95-96 | the text-mode read leaves no carriage return and never lengthens the text |
| `PyServer.UniversalNewlinesPrefix` | server.py:95-96 | text without carriage returns passes through unchanged, whatever follows it |
| `PyServer.UniversalNewlinesIdentity` | server.py:95-96 | a file without carriage returns reads back verbatim |
| `PyServer.UniversalNewlinesLine` | server.py:95-96 | a line ended by `\r\n` or by a lone `\r` reads as the same line ended by `\n` |
| `PyServer.TextRead` | server.py:94-96 | the handler's read succeeds exactly when the file read does; what it yields holds no carriage return and is no longer than the file, and a file without carriage returns is yielded unchanged |
| `PyServer.RejectionIgnoresFile` | server.py:87-92 | a rejected key gets the same reply whatever the file holds |
| `PyServer.Route` | server.py:23-39 | POST reaches the login handler exactly on `/api/login` and is 404 exactly elsewhere; GET reaches the admin handler exactly on `/api/admin/credentials`; OPTIONS is answered on every path; a served file is the path itself or one of the two page rewrites |
| `PyServer.RouteFacts` | server.py:29-39 | GET serves a file on every path but the admin API; `/admin` is served as `/admin.html` and `/` as `/index.html`; no other path is changed |
| `PyServer.Handler.DoPost` | server.py:23-27 | `/api/login` runs the login handler with its effect on reply and file; any other path writes the 404 error page and leaves the file unchanged |
| `PyServer.Handler.DoGet` | server.py:29-39 | the admin API path gets the admin reply to the text-mode read; `/admin` and `/` are rewritten to `/admin.html` and `/index.html` before the static handler serves them; other paths go to the static handler unchanged and the file is not read |
| `PyServer.Handler.HandleLogin` | server.py:41-82 | writes the JSON frame of `Login`'s reply; the file is unchanged unless the login is accepted, in which case exactly the entry is appended and the old content is a prefix |
| `PyServer.Handler.HandleAdminCredentials` | server.py:84-106 | writes the JSON frame of `Admin`'s reply to the text-mode read of the file (line endings translated); the file is read once when the key matches and never otherwise |
| `PyServer.Handler.SendJsonResponse` | server.py:108-115 | writes the status, `Content-Type: application/json`, a `Content-Length` equal to the encoded body's length, `Access-Control-Allow-Origin: *`, the end of headers and the encoded body, in that order |
| `PyServer.Handler.DoOptions` | server.py:117-122 | writes status 200 and the three CORS headers (origin `*`, methods `GET, POST, OPTIONS`, headers `Content-Type, X-Admin-Key`), with no body |
| `JsServer.Validate` | server.js:24-40 | "required" exactly when the email or the password is absent or empty; "domain" exactly when both are truthy and the untrimmed, lower-cased email lacks the suffix; on acceptance both fields are recorded as received |
| `JsServer.Login` | server.js:23-52 | every reply is 200 or 400; "required" rejection exactly when the email or password is absent or empty; domain rejection exactly when both are truthy and the untrimmed, lower-cased email does not end with the domain; when both are truthy and the email ends with the domain, 200 with the welcome message and exactly the entry of the email as received; an append exactly on 200 |
| `JsServer.Admin` | server.js:55-78 | 401 exactly when the `x-admin-key` header is not strictly equal to the key (absent included); 200 with the whole file on a successful read; 500 on a read error |
| `JsServer.App.constructor` | server.js:18-20 | at start-up an absent file is created holding exactly the banner; an existing file is kept |
| `JsServer.App.PostLogin` | server.js:23-52 | returns `Login`'s reply; the file is unchanged on 400, and on 200 it gains exactly the entry, keeping the old content as a prefix |
| `JsServer.App.GetAdminCredentials` | server.js:55-78 | returns `Admin`'s reply; the file is read once when the key matches and never otherwise |
| `Divergence.AdminGatesAgree` | server.js:56-64 | given the same header value, the Node gate (strict inequality on a possibly absent header) and the Python gate (absent header read as `""`) give the same reply for every read result |
| `Divergence.AdminRepliesAgreeWithoutCarriageReturn` | server.js:66-71 | on a file without carriage returns the Python reply to the text-mode read equals the Node reply to the verbatim read, for every header |
| `Divergence.CarriageReturnDiverges` | server.py:95-101 | on a file holding a carriage return, Python's `data` differs from Node's |
| `Divergence.ValidatorsAgreeOnTrimmed` | server.js:27-40 | on an email without surrounding whitespace, or no email, the two validators reach the same verdict |
| `Divergence.BlankEmailDiverges` | server.js:27-35 | a non-empty all-whitespace email is "required" for Python but a domain violation for Node |
| `Divergence.TrailingWhitespaceDiverges` | server.js:35-40 | an allowed address followed by whitespace is accepted by Python, which records the stripped address, and rejected by Node with the domain message |
| `Divergence.LeadingWhitespaceRecorded` | server.js:43-44 | whitespace before an allowed address is accepted by both; Python records the stripped address, Node records it as received |

## Left out

- HTTP server machinery: socket handling, the library's static file
  serving (`SimpleHTTPRequestHandler.do_GET`, `express.static`,
  `res.sendFile`) and the HTML error page of `send_error`. These appear only
  as the opaque outcomes `ServeFile(path)` and `ErrorPage(404, "Not Found")`.
  The `Server` and `Date` headers that the library's `send_response` adds are
  not modelled.
- Methods other than GET, POST and OPTIONS in the Python server: the library
  base class answers them, so they are not modelled.
- Node routing: `express.static` is mounted before the routes and serves
  `public/index.html` for `/`, and `cors()` answers preflight requests
  itself. Only the two API routes and the start-up file creation of
  `server.js` are modelled.
- JSON encoding and decoding (`json.loads`, `json.dumps`, `express.json`,
  `res.json`) are library calls. The decode result is an input, the encoder
  is a function parameter, and the Node reply is the returned status and
  envelope.
- A missing `Content-Length` header in Python raises before decoding, and a
  body that is not valid UTF-8 raises `UnicodeDecodeError`, which the
  handler does not catch; Python then sends no reply. Neither is modelled.
- Body fields that are not strings. The model's bodies are objects whose
  fields are absent or strings. In the source:
  - a non-string email makes Python's `.strip()` raise (no reply). In Node a
    truthy non-string email makes `.toLowerCase()` raise, which Express
    answers with 500, and a falsy one gets 400 "required";
  - a non-string password raises in neither server: a truthy one is
    recorded in its string form (`123`, Python's `True`, Node's `true`), a
    falsy one gets 400 "required";
  - a Python body that decodes to something other than an object makes
    `.get` raise (no reply). A Node body that is a JSON array destructures to
    two undefined fields and gets 400 "required".
- Node's handling of a body that is not valid JSON happens in the
  `express.json` middleware, before the route runs. It is not modelled.
- A failing append. In Python the exception escapes the handler and no
  reply is sent. In Node Express catches the throw of `appendFileSync` and
  its default error handler answers 500. Crash atomicity of the append is
  not modelled either. The model's `Append` always succeeds.
- Python writes the file in text mode, which turns `\n` into the platform's
  line separator. The model takes a POSIX host, where it stays `\n`.
- `Common.Lower`: Python's `lower` and JavaScript's `toLowerCase` apply
  Unicode case mapping; the model lower-cases ASCII letters only.
- Clock values (`datetime.now().strftime`, `new Date().toLocaleString()`)
  are an opaque timestamp input. The log round-trip lemmas assume that no
  field contains a line break. Emails and passwords with line breaks are
  accepted and recorded as-is, and the file can then read back differently.
- Strings are sequences of Unicode scalar values. A JSON string with an
  unpaired surrogate escape (such as a password `"\ud800"`) is not modelled.
  Python's UTF-8 append raises on it and no reply is sent. Node writes U+FFFD
  in its place and answers 200, so its file does not gain the exact entry of
  the fields as received.
- Concurrent requests and concurrent appends.
- Console logging (`log_message`, the start-up banner printed by
  `run_server`, `console.log`) and `serve_forever` / `listen`: output and
  process lifetime only.
