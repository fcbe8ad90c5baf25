/** The Node server: the startup check that creates the credentials file,
    the login route and the admin route. The request body arrives already
    decoded, the clock reading is an input, and each route returns the reply
    it sends (status and JSON envelope). */
module JsServer {
  import opened Common
  import opened Store

  /** `!value` for a body field that is absent (`undefined`) or a string. */
  predicate Falsy(v: Option<string>) {
    v.None? || v.value == []
  }

  /** The checks of the login route, in order: both fields must be truthy,
      then the email as received must end with the domain ignoring case.
      The email is neither trimmed for the checks nor for the record. */
  function Validate(body: LoginBody): (v: Verdict)
    ensures v == MissingFields <==> Falsy(body.email) || Falsy(body.password)
    ensures v == DomainNotAllowed <==>
      !Falsy(body.email) && !Falsy(body.password) && !EndsWith(Lower(body.email.value), Domain)
    ensures v.Accepted? ==> v == Accepted(body.email.value, body.password.value)
  {
    if Falsy(body.email) || Falsy(body.password) then MissingFields
    else if !EndsWith(Lower(body.email.value), Domain) then DomainNotAllowed
    else Accepted(body.email.value, body.password.value)
  }

  /** The login route's reply and append for `body` at clock reading `timestamp`. */
  function Login(body: LoginBody, timestamp: string): (o: LoginOutcome)
    ensures o.reply.status == 200 || o.reply.status == 400
    ensures o.append.Some? <==> o.reply.status == 200
    ensures !Falsy(body.email) && !Falsy(body.password) && EndsWith(Lower(body.email.value), Domain)
      ==> && o.reply == Welcome()
          && o.append == Some(Entry(Credential(timestamp, body.email.value, body.password.value)))
    ensures o.reply == Failure(400, MsgRequired) <==> Falsy(body.email) || Falsy(body.password)
    ensures o.reply == Failure(400, MsgDomain) <==>
      !Falsy(body.email) && !Falsy(body.password) && !EndsWith(Lower(body.email.value), Domain)
    ensures o.append.Some? ==>
      && o.reply == Welcome()
      && body.email.Some? && body.password.Some?
      && o.append.value == Entry(Credential(timestamp, body.email.value, body.password.value))
  {
    Decide(Validate(body), timestamp)
  }

  /** The admin route's reply for the `x-admin-key` header (`None` when it is
      absent) and the result of reading the file (`None` when it throws). */
  function Admin(header: Option<string>, read: Option<string>): (r: Reply)
    ensures r.status == 401 <==> header != Some(AdminKey)
    ensures r.status == 401 ==> r == Failure(401, MsgUnauthorized)
    ensures r.status == 200 <==> header == Some(AdminKey) && read.Some?
    ensures r.status == 200 ==> r == Contents(read.value)
    ensures r.status == 500 <==> header == Some(AdminKey) && read.None?
    ensures r.status == 500 ==> r == Failure(500, MsgReadError)
  {
    if header != Some(AdminKey) then Failure(401, MsgUnauthorized)
    else match read
      case Some(credentials) => Contents(credentials)
      case None => Failure(500, MsgReadError)
  }

  class App {
    const store: CredentialsFile

    /** Module start-up: create the file with the banner when it does not exist. */
    constructor (store: CredentialsFile)
      modifies store`present, store`text
      ensures this.store == store
      ensures store.present
      ensures store.text == if old(store.present) then old(store.text) else Banner
    {
      this.store := store;
      new;
      store.Initialise();
    }

    method PostLogin(body: LoginBody, timestamp: string) returns (reply: Reply)
      modifies store`present, store`text
      ensures reply == Login(body, timestamp).reply
      ensures var o := Login(body, timestamp);
        && store.present == (old(store.present) || o.append.Some?)
        && store.text == if o.append.Some? then old(store.Existing()) + o.append.value
                         else old(store.text)
      ensures old(store.present) ==> old(store.text) <= store.text
    {
      if Falsy(body.email) || Falsy(body.password) {
        return Failure(400, MsgRequired);
      }
      var email, password := body.email.value, body.password.value;
      if !EndsWith(Lower(email), Domain) {
        return Failure(400, MsgDomain);
      }
      var entry := Entry(Credential(timestamp, email, password));
      store.Append(entry);
      reply := Welcome();
    }

    method GetAdminCredentials(adminKey: Option<string>) returns (reply: Reply)
      modifies store`readCount
      ensures reply == Admin(adminKey, store.ReadResult())
      ensures store.readCount == old(store.readCount) + (if adminKey == Some(AdminKey) then 1 else 0)
    {
      if adminKey != Some(AdminKey) {
        return Failure(401, MsgUnauthorized);
      }
      var credentials := store.Read();
      match credentials
      case Some(content) => reply := Contents(content);
      case None => reply := Failure(500, MsgReadError);
    }
  }
}
