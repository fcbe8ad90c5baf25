/** The Python server: a request handler object created per request, whose
    `do_POST`, `do_GET` and `do_OPTIONS` dispatch on the request path, whose
    login and admin handlers decide a reply and touch the credentials file,
    and whose output is the sequence of status line, headers and payload it
    writes. Parsing the request, reading the clock and encoding JSON are
    inputs of the handler. */
module PyServer {
  import opened Common
  import opened EntryLog
  import opened Store

  // ---------------------------------------------------------------------
  // Login
  // ---------------------------------------------------------------------

  /** The checks of the login handler, in order: the email (stripped) and
      the password must be non-empty, then the email must end with the domain
      ignoring case. A missing field reads as the empty string. */
  function Validate(body: LoginBody): (v: Verdict)
    ensures v == MissingFields <==> IsBlank(body.email.GetOr("")) || body.password.GetOr("") == []
    ensures v == DomainNotAllowed <==>
      && !IsBlank(body.email.GetOr("")) && body.password.GetOr("") != []
      && !EndsWith(Lower(Strip(body.email.GetOr(""))), Domain)
    ensures v.Accepted? ==>
      && v == Accepted(Strip(body.email.GetOr("")), body.password.GetOr(""))
      && v.email != [] && IsTrimmed(v.email)
  {
    StripEmptyIffBlank(body.email.GetOr(""));
    var email := Strip(body.email.GetOr(""));
    var password := body.password.GetOr("");
    if email == [] || password == [] then MissingFields
    else if !EndsWith(Lower(email), Domain) then DomainNotAllowed
    else Accepted(email, password)
  }

  /** The login handler's reply and append for a body that decoded to `body`
      (`None` when the JSON decoder raised), at clock reading `timestamp`. */
  function Login(body: Option<LoginBody>, timestamp: string): (o: LoginOutcome)
    ensures body.None? ==> o == LoginOutcome(Failure(400, MsgBadFormat), None)
    ensures o.reply.status == 200 || o.reply.status == 400
    ensures o.append.Some? <==> o.reply.status == 200
    ensures o.append.Some? ==>
      && body.Some?
      && o.reply == Welcome()
      && o.append.value == Entry(Credential(timestamp, Strip(body.value.email.GetOr("")),
                                            body.value.password.GetOr("")))
  {
    if body.None? then LoginOutcome(Failure(400, MsgBadFormat), None)
    else Decide(Validate(body.value), timestamp)
  }

  /** The required-field rejection happens exactly when the email is blank
      (absent, empty or all whitespace) or the password is absent or empty;
      it never appends. */
  lemma RequiredFields(body: LoginBody, timestamp: string)
    ensures Login(Some(body), timestamp).reply == Failure(400, MsgRequired)
      <==> IsBlank(body.email.GetOr("")) || body.password.GetOr("") == []
    ensures Login(Some(body), timestamp).reply == Failure(400, MsgRequired)
      ==> Login(Some(body), timestamp).append.None?
  {
    StripEmptyIffBlank(body.email.GetOr(""));
  }

  /** The required-field check runs first: a blank email is never reported
      as a domain violation, whatever it is followed by. */
  lemma RequiredBeforeDomain(body: LoginBody, timestamp: string)
    requires IsBlank(body.email.GetOr(""))
    ensures Login(Some(body), timestamp).reply.envelope.message != Some(MsgDomain)
  {
    StripEmptyIffBlank(body.email.GetOr(""));
  }

  /** The domain rejection happens exactly when both fields are present but
      the stripped email does not end with the domain, ignoring case; it
      never appends. */
  lemma DomainRejection(body: LoginBody, timestamp: string)
    ensures Login(Some(body), timestamp).reply == Failure(400, MsgDomain)
      <==> && !IsBlank(body.email.GetOr(""))
           && body.password.GetOr("") != []
           && !EndsWith(Lower(Strip(body.email.GetOr(""))), Domain)
    ensures Login(Some(body), timestamp).reply == Failure(400, MsgDomain)
      ==> Login(Some(body), timestamp).append.None?
  {
    StripEmptyIffBlank(body.email.GetOr(""));
  }

  /** A login succeeds exactly when neither check fails; the email it records
      is the stripped one, so it never starts or ends with whitespace. */
  lemma AcceptedLogin(body: LoginBody, timestamp: string)
    ensures Login(Some(body), timestamp).append.Some?
      <==> && !IsBlank(body.email.GetOr(""))
           && body.password.GetOr("") != []
           && EndsWith(Lower(Strip(body.email.GetOr(""))), Domain)
    ensures Validate(body).Accepted? ==>
      && Validate(body).email == Strip(body.email.GetOr(""))
      && IsTrimmed(Validate(body).email)
      && Validate(body).email != []
  {
    StripEmptyIffBlank(body.email.GetOr(""));
  }

  /** An accepted body appends the entry of the validated fields. */
  lemma AcceptedAppends(body: LoginBody, timestamp: string)
    requires Validate(body).Accepted?
    ensures Login(Some(body), timestamp).append
      == Some(Entry(Credential(timestamp, Validate(body).email, Validate(body).password)))
  {
  }

  /** A successful login adds exactly one entry to a credentials file made of
      the banner and earlier entries: the file becomes the banner followed by
      the earlier entries and the new credential, and reads back as exactly
      that sequence. */
  lemma LoginGrowsLog(cs: seq<Credential>, body: LoginBody, timestamp: string)
    requires forall i :: 0 <= i < |cs| ==> SingleLine(cs[i])
    requires Validate(body).Accepted?
    requires SingleLine(Credential(timestamp, Validate(body).email, Validate(body).password))
    ensures Login(Some(body), timestamp).append.Some?
    ensures var grown := cs + [Credential(timestamp, Validate(body).email, Validate(body).password)];
      && Banner + Render(cs) + Login(Some(body), timestamp).append.value == Banner + Render(grown)
      && ParseFile(Banner + Render(grown)) == Some(grown)
  {
    var c := Credential(timestamp, Validate(body).email, Validate(body).password);
    var grown := cs + [c];
    AcceptedAppends(body, timestamp);
    LogAfterAppend(cs, c);
  }

  /** The file never deduplicates: the same accepted request submitted twice
      adds two entries, even with equal timestamps. */
  lemma RepeatedLogin(cs: seq<Credential>, body: LoginBody, t1: string, t2: string)
    requires forall i :: 0 <= i < |cs| ==> SingleLine(cs[i])
    requires Validate(body).Accepted?
    requires SingleLine(Credential(t1, Validate(body).email, Validate(body).password))
    requires SingleLine(Credential(t2, Validate(body).email, Validate(body).password))
    ensures var e, p := Validate(body).email, Validate(body).password;
      var twice := cs + [Credential(t1, e, p), Credential(t2, e, p)];
      && Banner + Render(cs) + Login(Some(body), t1).append.value
           + Login(Some(body), t2).append.value == Banner + Render(twice)
      && ParseFile(Banner + Render(twice)) == Some(twice)
  {
    var e, p := Validate(body).email, Validate(body).password;
    var c1, c2 := Credential(t1, e, p), Credential(t2, e, p);
    AcceptedAppends(body, t1);
    AcceptedAppends(body, t2);
    LogAfterTwo(cs, c1, c2);
  }

  // ---------------------------------------------------------------------
  // Admin read
  // ---------------------------------------------------------------------

  /** The admin handler's reply for the `X-Admin-Key` header (`None` when it
      is absent, which reads as the empty string) and the result of reading
      the file (`None` when the read raises). */
  function Admin(header: Option<string>, read: Option<string>): (r: Reply)
    ensures r.status == 401 <==> header != Some(AdminKey)
    ensures r.status == 401 ==> r == Failure(401, MsgUnauthorized)
    ensures r.status == 200 <==> header == Some(AdminKey) && read.Some?
    ensures r.status == 200 ==> r == Contents(read.value)
    ensures r.status == 500 <==> header == Some(AdminKey) && read.None?
    ensures r.status == 500 ==> r == Failure(500, MsgReadError)
  {
    var key := header.GetOr("");
    if key != AdminKey then Failure(401, MsgUnauthorized)
    else match read
      case Some(content) => Contents(content)
      case None => Failure(500, MsgReadError)
  }

  /** Python's text-mode read (`newline=None`): every `"\r\n"` and every lone
      `"\r"` becomes `"\n"`. */
  function UniversalNewlines(s: string): (r: string)
    ensures '\r' !in r
    ensures |r| <= |s|
  {
    if s == [] then []
    else if s[0] == '\r' then
      if |s| >= 2 && s[1] == '\n' then "\n" + UniversalNewlines(s[2..])
      else "\n" + UniversalNewlines(s[1..])
    else [s[0]] + UniversalNewlines(s[1..])
  }

  /** Text without carriage returns passes through unchanged, whatever follows it. */
  lemma {:induction false} UniversalNewlinesPrefix(line: string, tail: string)
    requires '\r' !in line
    ensures UniversalNewlines(line + tail) == line + UniversalNewlines(tail)
  {
    if line == [] {
      assert line + tail == tail;
    } else {
      UniversalNewlinesPrefix(line[1..], tail);
      UniversalNewlinesCons(line[0], line[1..] + tail);
      assert [line[0]] + (line[1..] + tail) == line + tail;
      assert [line[0]] + (line[1..] + UniversalNewlines(tail)) == line + UniversalNewlines(tail);
    }
  }

  /** A text without carriage returns reads back verbatim. */
  lemma UniversalNewlinesIdentity(s: string)
    ensures '\r' !in s ==> UniversalNewlines(s) == s
  {
    if '\r' !in s {
      UniversalNewlinesPrefix(s, []);
      assert s + [] == s;
    }
  }

  /** A line ended by `"\r\n"` or by a lone `"\r"` reads as the same line
      ended by `"\n"`; the rest is translated on its own. */
  lemma UniversalNewlinesLine(line: string, ending: string, rest: string)
    requires '\r' !in line
    requires ending == "\r\n" || (ending == "\r" && (rest == [] || rest[0] != '\n'))
    ensures UniversalNewlines(line + ending + rest) == line + "\n" + UniversalNewlines(rest)
  {
    assert line + ending + rest == line + (ending + rest);
    UniversalNewlinesPrefix(line, ending + rest);
    UniversalNewlinesEnding(ending, rest);
  }

  lemma UniversalNewlinesCons(x: char, s: string)
    requires x != '\r'
    ensures UniversalNewlines([x] + s) == [x] + UniversalNewlines(s)
  {
    assert ([x] + s)[1..] == s;
  }

  lemma UniversalNewlinesEnding(ending: string, rest: string)
    requires ending == "\r\n" || (ending == "\r" && (rest == [] || rest[0] != '\n'))
    ensures UniversalNewlines(ending + rest) == "\n" + UniversalNewlines(rest)
  {
    var s := ending + rest;
    if ending == "\r\n" {
      assert s[0] == '\r' && s[1] == '\n' && s[2..] == rest;
    } else {
      assert s[0] == '\r' && s[1..] == rest;
      assert |s| < 2 || s[1] != '\n';
    }
  }

  /** What the admin handler's read yields: the file's text after newline
      translation, or nothing when the open or the read raises. */
  function TextRead(raw: Option<string>): (r: Option<string>)
    ensures r.Some? <==> raw.Some?
    ensures r.Some? ==> '\r' !in r.value && |r.value| <= |raw.value|
    ensures raw.Some? && '\r' !in raw.value ==> r == raw
  {
    match raw
    case Some(text) =>
      UniversalNewlinesIdentity(text); Some(UniversalNewlines(text))
    case None => None
  }

  /** A rejected key yields the same reply whatever the file holds. */
  lemma RejectionIgnoresFile(header: Option<string>, read1: Option<string>, read2: Option<string>)
    requires header != Some(AdminKey)
    ensures Admin(header, read1) == Admin(header, read2)
  {
  }

  // ---------------------------------------------------------------------
  // Dispatch
  // ---------------------------------------------------------------------

  datatype Method = Get | Post | Options

  /** Where a request goes: an API handler, a static file (after the two
      page rewrites), the 404 error page, or the CORS preflight reply. */
  datatype Target = LoginApi | AdminApi | StaticFile(file: string) | NotFound | Preflight

  /** Which handler `do_POST`, `do_GET` and `do_OPTIONS` run for a path. */
  function Route(m: Method, path: string): (r: Target)
    ensures r == LoginApi <==> m == Post && path == "/api/login"
    ensures r == NotFound <==> m == Post && path != "/api/login"
    ensures r == AdminApi <==> m == Get && path == "/api/admin/credentials"
    ensures r == Preflight <==> m == Options
    ensures r.StaticFile? ==>
      && m == Get
      && (r.file == path || (path == "/admin" && r.file == "/admin.html")
                         || (path == "/" && r.file == "/index.html"))
  {
    match m
    case Post => if path == "/api/login" then LoginApi else NotFound
    case Get =>
      if path == "/api/admin/credentials" then AdminApi
      else if path == "/admin" then StaticFile("/admin.html")
      else if path == "/" then StaticFile("/index.html")
      else StaticFile(path)
    case Options => Preflight
  }

  /** GET facts: every path but the admin API is served as a file; `/admin`
      and `/` are rewritten to their pages, and no other path is changed. */
  lemma RouteFacts(path: string)
    ensures Route(Get, path).StaticFile? <==> path != "/api/admin/credentials"
    ensures Route(Get, "/admin") == StaticFile("/admin.html")
    ensures Route(Get, "/") == StaticFile("/index.html")
    ensures Route(Get, path).StaticFile? && Route(Get, path).file != path
      ==> path == "/" || path == "/admin"
  {
  }

  // ---------------------------------------------------------------------
  // Output
  // ---------------------------------------------------------------------

  datatype HeaderValue = Text(s: string) | Count(n: nat)

  /** What the handler writes, in order. `ErrorPage` is the library's HTML
      error reply and `ServeFile` the library's static file reply. */
  datatype Emit =
    | StatusLine(code: int)
    | Header(name: string, value: HeaderValue)
    | EndHeaders
    | Payload(bytes: seq<byte>)
    | ErrorPage(code: int, message: string)
    | ServeFile(file: string)

  /** A JSON reply: status, content type, length of the encoded body, open
      CORS origin, then the body. */
  function JsonFrame(r: Reply, body: seq<byte>): seq<Emit> {
    [ StatusLine(r.status),
      Header("Content-Type", Text("application/json")),
      Header("Content-Length", Count(|body|)),
      Header("Access-Control-Allow-Origin", Text("*")),
      EndHeaders,
      Payload(body) ]
  }

  /** The preflight reply: status 200 and the three CORS headers, no body. */
  const PreflightFrame: seq<Emit> := [
    StatusLine(200),
    Header("Access-Control-Allow-Origin", Text("*")),
    Header("Access-Control-Allow-Methods", Text("GET, POST, OPTIONS")),
    Header("Access-Control-Allow-Headers", Text("Content-Type, X-Admin-Key")),
    EndHeaders ]

  // ---------------------------------------------------------------------
  // The handler
  // ---------------------------------------------------------------------

  class Handler {
    /** The request path; `do_GET` rewrites it before serving a page. */
    var path: string
    /** The `X-Admin-Key` request header, if sent. */
    const adminKey: Option<string>
    /** The decoded request body; `None` when it is not valid JSON. */
    const body: Option<LoginBody>
    /** The clock reading a successful login records. */
    const timestamp: string
    /** JSON encoding of an envelope to UTF-8 bytes. */
    const encode: Envelope -> seq<byte>
    const store: CredentialsFile
    /** Everything written to the client so far. */
    var wire: seq<Emit>

    constructor (path: string, adminKey: Option<string>, body: Option<LoginBody>,
                 timestamp: string, encode: Envelope -> seq<byte>, store: CredentialsFile)
      ensures this.path == path && this.adminKey == adminKey && this.body == body
      ensures this.timestamp == timestamp && this.encode == encode && this.store == store
      ensures wire == []
    {
      this.path := path;
      this.adminKey := adminKey;
      this.body := body;
      this.timestamp := timestamp;
      this.encode := encode;
      this.store := store;
      wire := [];
    }

    method DoPost()
      modifies this`wire, store`present, store`text
      ensures Route(Post, path) == NotFound ==>
        wire == old(wire) + [ErrorPage(404, "Not Found")]
        && store.present == old(store.present) && store.text == old(store.text)
      ensures Route(Post, path) == LoginApi ==>
        var o := Login(body, timestamp);
        && wire == old(wire) + JsonFrame(o.reply, encode(o.reply.envelope))
        && store.present == (old(store.present) || o.append.Some?)
        && store.text == if o.append.Some? then old(store.Existing()) + o.append.value
                         else old(store.text)
      ensures old(store.present) ==> old(store.text) <= store.text
    {
      if path == "/api/login" {
        HandleLogin();
      } else {
        wire := wire + [ErrorPage(404, "Not Found")];
      }
    }

    method DoGet()
      modifies this`path, this`wire, store`readCount
      ensures Route(Get, old(path)) == AdminApi ==>
        && path == old(path)
        && (var r := Admin(adminKey, TextRead(store.ReadResult()));
            wire == old(wire) + JsonFrame(r, encode(r.envelope)))
        && store.readCount == old(store.readCount) + (if adminKey == Some(AdminKey) then 1 else 0)
      ensures Route(Get, old(path)).StaticFile? ==>
        && path == Route(Get, old(path)).file
        && wire == old(wire) + [ServeFile(path)]
        && store.readCount == old(store.readCount)
    {
      if path == "/api/admin/credentials" {
        HandleAdminCredentials();
      } else if path == "/admin" {
        path := "/admin.html";
        ServeStatic();
      } else if path == "/" {
        path := "/index.html";
        ServeStatic();
      } else {
        ServeStatic();
      }
    }

    /** The library's static file handler, for the current path. */
    method ServeStatic()
      modifies this`wire
      ensures wire == old(wire) + [ServeFile(path)]
    {
      wire := wire + [ServeFile(path)];
    }

    method HandleLogin()
      modifies this`wire, store`present, store`text
      ensures var o := Login(body, timestamp);
        && wire == old(wire) + JsonFrame(o.reply, encode(o.reply.envelope))
        && store.present == (old(store.present) || o.append.Some?)
        && store.text == if o.append.Some? then old(store.Existing()) + o.append.value
                         else old(store.text)
      ensures old(store.present) ==> old(store.text) <= store.text
    {
      if body.None? {
        SendJsonResponse(Failure(400, MsgBadFormat));
        return;
      }
      var email := Strip(body.value.email.GetOr(""));
      var password := body.value.password.GetOr("");
      if email == [] || password == [] {
        SendJsonResponse(Failure(400, MsgRequired));
        return;
      }
      if !EndsWith(Lower(email), Domain) {
        SendJsonResponse(Failure(400, MsgDomain));
        return;
      }
      var entry := Entry(Credential(timestamp, email, password));
      store.Append(entry);
      SendJsonResponse(Welcome());
    }

    method HandleAdminCredentials()
      modifies this`wire, store`readCount
      ensures var r := Admin(adminKey, TextRead(store.ReadResult()));
        wire == old(wire) + JsonFrame(r, encode(r.envelope))
      ensures store.readCount == old(store.readCount) + (if adminKey == Some(AdminKey) then 1 else 0)
    {
      var key := adminKey.GetOr("");
      if key != AdminKey {
        SendJsonResponse(Failure(401, MsgUnauthorized));
        return;
      }
      var content := store.Read();
      match content
      case Some(credentials) => SendJsonResponse(Contents(UniversalNewlines(credentials)));
      case None => SendJsonResponse(Failure(500, MsgReadError));
    }

    method SendJsonResponse(r: Reply)
      modifies this`wire
      ensures wire == old(wire) + JsonFrame(r, encode(r.envelope))
    {
      var response := encode(r.envelope);
      wire := wire + [StatusLine(r.status)];
      wire := wire + [Header("Content-Type", Text("application/json"))];
      wire := wire + [Header("Content-Length", Count(|response|))];
      wire := wire + [Header("Access-Control-Allow-Origin", Text("*"))];
      wire := wire + [EndHeaders];
      wire := wire + [Payload(response)];
    }

    method DoOptions()
      modifies this`wire
      ensures wire == old(wire) + PreflightFrame
    {
      wire := wire + [StatusLine(200)];
      wire := wire + [Header("Access-Control-Allow-Origin", Text("*"))];
      wire := wire + [Header("Access-Control-Allow-Methods", Text("GET, POST, OPTIONS"))];
      wire := wire + [Header("Access-Control-Allow-Headers", Text("Content-Type, X-Admin-Key"))];
      wire := wire + [EndHeaders];
    }
  }
}
