/** Where the two servers agree and where they part: the Python handler
    strips the email before checking and recording it, the Node route uses
    it as received; the admin gates behave identically. */
module Divergence {
  import opened Common
  import PyServer
  import JsServer

  /** The admin gates agree on every read result when both servers see the
      same header value. (With the header sent twice they see different
      values: Python takes the first, Node joins them with ", ".) */
  lemma AdminGatesAgree(header: Option<string>, read: Option<string>)
    ensures PyServer.Admin(header, read) == JsServer.Admin(header, read)
  {
  }

  /** The whole admin replies agree on a file without carriage returns:
      Python's text-mode read then returns the file as Node reads it. */
  lemma AdminRepliesAgreeWithoutCarriageReturn(header: Option<string>, raw: Option<string>)
    requires raw.None? || '\r' !in raw.value
    ensures PyServer.Admin(header, PyServer.TextRead(raw)) == JsServer.Admin(header, raw)
  {
    if raw.Some? {
      PyServer.UniversalNewlinesIdentity(raw.value);
    }
  }

  /** A file holding a carriage return (a password containing `\r`, say) is
      returned differently: Node sends it verbatim, Python with the line
      endings translated. */
  lemma CarriageReturnDiverges(text: string)
    requires '\r' in text
    ensures PyServer.Admin(Some(AdminKey), PyServer.TextRead(Some(text))).envelope.data
      != JsServer.Admin(Some(AdminKey), Some(text)).envelope.data
  {
  }

  /** On an email without surrounding whitespace (or no email at all) the
      two validators reach the same verdict. */
  lemma ValidatorsAgreeOnTrimmed(body: LoginBody)
    requires body.email.None? || IsTrimmed(body.email.value)
    ensures PyServer.Validate(body) == JsServer.Validate(body)
  {
    if body.email.Some? {
      StripTrimmed(body.email.value);
    }
  }

  /** An email made only of whitespace is a missing field for Python but a
      domain violation for Node. */
  lemma BlankEmailDiverges(email: string, password: string)
    requires email != [] && IsBlank(email) && password != []
    ensures PyServer.Validate(LoginBody(Some(email), Some(password))) == MissingFields
    ensures JsServer.Validate(LoginBody(Some(email), Some(password))) == DomainNotAllowed
  {
    NodeRejectsSpaceEnding(email, password);
  }

  /** Trailing whitespace after an allowed address: Python accepts and
      records the stripped address, Node rejects it as a domain violation. */
  lemma TrailingWhitespaceDiverges(address: string, tail: string, password: string)
    requires IsTrimmed(address) && EndsWith(Lower(address), Domain)
    requires tail != [] && IsBlank(tail) && password != []
    ensures PyServer.Validate(LoginBody(Some(address + tail), Some(password)))
      == Accepted(address, password)
    ensures JsServer.Validate(LoginBody(Some(address + tail), Some(password)))
      == DomainNotAllowed
  {
    StripAddressTail(address, tail);
    PythonAcceptsStripped(address + tail, address, password);
    var email := address + tail;
    assert email[|email| - 1] == tail[|tail| - 1];
    NodeRejectsSpaceEnding(email, password);
  }

  /** Leading whitespace before an allowed address: both accept, but Python
      records the stripped address and Node records it as received. */
  lemma LeadingWhitespaceRecorded(head: string, address: string, password: string)
    requires IsTrimmed(address) && EndsWith(Lower(address), Domain)
    requires head != [] && IsBlank(head) && password != []
    ensures PyServer.Validate(LoginBody(Some(head + address), Some(password)))
      == Accepted(address, password)
    ensures JsServer.Validate(LoginBody(Some(head + address), Some(password)))
      == Accepted(head + address, password)
  {
    StripHeadAddress(head, address);
    PythonAcceptsStripped(head + address, address, password);
    LowerSuffixKept(head, address, Domain);
  }

  /** Python accepts an email whose stripped form is an allowed address, and
      records that stripped form. */
  lemma PythonAcceptsStripped(email: string, address: string, password: string)
    requires Strip(email) == address && EndsWith(Lower(address), Domain) && password != []
    ensures PyServer.Validate(LoginBody(Some(email), Some(password))) == Accepted(address, password)
  {
    StripEmptyIffBlank(email);
  }

  /** Node rejects, as a domain violation, an email that ends in whitespace. */
  lemma NodeRejectsSpaceEnding(email: string, password: string)
    requires email != [] && IsSpace(email[|email| - 1]) && password != []
    ensures JsServer.Validate(LoginBody(Some(email), Some(password))) == DomainNotAllowed
  {
    var lower := Lower(email);
    assert lower[|email| - 1] == email[|email| - 1];
    assert Domain[|Domain| - 1] == 'n';
  }

  /** Text in front does not change whether the lower-cased string ends with a suffix. */
  lemma LowerSuffixKept(head: string, s: string, suffix: string)
    requires EndsWith(Lower(s), suffix)
    ensures EndsWith(Lower(head + s), suffix)
  {
    LowerAppend(head, s);
    EndsWithAppend(Lower(head), Lower(s), suffix);
  }

  lemma LowerAppend(a: string, b: string)
    ensures Lower(a + b) == Lower(a) + Lower(b)
  {
    var l, r := Lower(a + b), Lower(a) + Lower(b);
    forall i | 0 <= i < |l|
      ensures l[i] == r[i]
    {
      if i < |a| {
        assert (a + b)[i] == a[i];
      } else {
        assert (a + b)[i] == b[i - |a|];
      }
    }
  }

  lemma EndsWithAppend(x: string, y: string, suffix: string)
    requires EndsWith(y, suffix)
    ensures EndsWith(x + y, suffix)
  {
    assert (x + y)[|x + y| - |suffix|..] == y[|y| - |suffix|..];
  }

  /** Stripping a trimmed non-empty string followed by whitespace gives the string. */
  lemma StripAddressTail(address: string, tail: string)
    requires IsTrimmed(address) && address != [] && IsBlank(tail)
    ensures Strip(address + tail) == address
  {
    var s := address + tail;
    var n := LeadingSpaces(s);
    assert s[0] == address[0];
    assert n == 0;
    var r := Strip(s);
    assert r == s[..|r|];
    assert address == s[..|address|];
  }

  /** Stripping whitespace followed by a trimmed non-empty string gives the string. */
  lemma StripHeadAddress(head: string, address: string)
    requires IsTrimmed(address) && address != [] && IsBlank(head)
    ensures Strip(head + address) == address
  {
    var s := head + address;
    var n := LeadingSpaces(s);
    assert s[|head|] == address[0];
    assert n == |head|;
    assert s[n..] == address;
  }
}
