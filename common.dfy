/** Values shared by both server implementations: the fixed configuration,
    the string operations the handlers rely on (ASCII lower-casing, suffix
    test, Python's whitespace strip), the layout of one credentials entry,
    the JSON envelope and the mapping from a login verdict to a reply. */
module Common {

  datatype Option<+T> = None | Some(value: T) {
    /** The value, or `fallback` when absent (Python's `dict.get(key, default)`). */
    function GetOr(fallback: T): T {
      if Some? then value else fallback
    }
  }

  // ---------------------------------------------------------------------
  // Fixed configuration
  // ---------------------------------------------------------------------

  const Domain: string := "@srmist.edu.in"
  const AdminKey: string := "srmist-admin-2024"
  /** The two-line header written when the credentials file is absent at startup. */
  const Banner: string := "=== SRMIST Login Credentials ===\n\n"
  /** BOX DRAWINGS LIGHT HORIZONTAL, repeated to separate entries. */
  const DividerChar: char := '\U{2500}'
  const DividerWidth: nat := 40
  const Divider: string := Repeat(DividerChar, DividerWidth)

  /** `n` copies of `c` (Python's `c * n`, JavaScript's `c.repeat(n)`). */
  function Repeat(c: char, n: nat): (s: string)
    ensures |s| == n
    ensures forall i :: 0 <= i < n ==> s[i] == c
  {
    if n == 0 then [] else [c] + Repeat(c, n - 1)
  }

  const MsgRequired: string := "Email and password are required"
  const MsgDomain: string := "Only @srmist.edu.in email addresses are allowed"
  const MsgWelcome: string := "Login successful! Welcome to FacePrep SRMIST."
  const MsgBadFormat: string := "Invalid request format"
  const MsgUnauthorized: string := "Unauthorized access"
  const MsgReadError: string := "Error reading credentials file"

  // ---------------------------------------------------------------------
  // String operations
  // ---------------------------------------------------------------------

  /** Lower-casing restricted to ASCII letters. */
  function AsciiLower(c: char): char {
    if 'A' <= c <= 'Z' then (c as int + 32) as char else c
  }

  /** `x` is the character `d` written in either letter case. */
  predicate CaseVariant(x: char, d: char) {
    x == d || ('a' <= d <= 'z' && x as int == d as int - 32)
  }

  /** `lower()` / `toLowerCase()` on ASCII letters. */
  function Lower(s: string): (r: string)
    ensures |r| == |s|
  {
    seq(|s|, i requires 0 <= i < |s| => AsciiLower(s[i]))
  }

  /** Lower-casing keeps every character up to its letter case and leaves no
      capital letter: each capital becomes its small letter, and every other
      character is kept. */
  lemma LowerCases(s: string)
    ensures forall i :: 0 <= i < |s| ==> CaseVariant(s[i], Lower(s)[i])
    ensures forall i :: 0 <= i < |s| ==> !('A' <= Lower(s)[i] <= 'Z')
  {
    forall i | 0 <= i < |s|
      ensures CaseVariant(s[i], Lower(s)[i]) && !('A' <= Lower(s)[i] <= 'Z')
    {
      assert Lower(s)[i] == AsciiLower(s[i]);
    }
  }

  /** Python's `str.endswith` and JavaScript's `String.prototype.endsWith`:
      the last `|suffix|` characters of `s` are those of `suffix`, one by one. */
  function EndsWith(s: string, suffix: string): (b: bool)
    ensures b <==> (|suffix| <= |s| &&
                    forall i :: 0 <= i < |suffix| ==> s[|s| - |suffix| + i] == suffix[i])
    ensures b ==> s == s[..|s| - |suffix|] + suffix
  {
    |suffix| <= |s| && s[|s| - |suffix|..] == suffix
  }

  /** The characters Python's argument-less `str.strip()` removes: the ASCII
      whitespace, the separators U+001C..U+001F, and the Unicode spaces. */
  const Whitespace: set<char> := {
    ' ', '\t', '\n', '\r', '\U{000B}', '\U{000C}',
    '\U{001C}', '\U{001D}', '\U{001E}', '\U{001F}', '\U{0085}', '\U{00A0}', '\U{1680}',
    '\U{2000}', '\U{2001}', '\U{2002}', '\U{2003}', '\U{2004}', '\U{2005}',
    '\U{2006}', '\U{2007}', '\U{2008}', '\U{2009}', '\U{200A}',
    '\U{2028}', '\U{2029}', '\U{202F}', '\U{205F}', '\U{3000}'
  }

  predicate IsSpace(c: char) {
    c in Whitespace
  }

  /** Every character of `s` is whitespace (the empty string included). */
  predicate IsBlank(s: string) {
    forall k :: 0 <= k < |s| ==> IsSpace(s[k])
  }

  /** `s` neither starts nor ends with whitespace. */
  predicate IsTrimmed(s: string) {
    s == [] || (!IsSpace(s[0]) && !IsSpace(s[|s| - 1]))
  }

  /** The length of the longest all-whitespace prefix of `s`. */
  function LeadingSpaces(s: string): (n: nat)
    ensures n <= |s|
    ensures forall k :: 0 <= k < n ==> IsSpace(s[k])
    ensures n < |s| ==> !IsSpace(s[n])
  {
    if s == [] || !IsSpace(s[0]) then 0 else 1 + LeadingSpaces(s[1..])
  }

  /** The length of the longest all-whitespace suffix of `s`. */
  function TrailingSpaces(s: string): (n: nat)
    ensures n <= |s|
    ensures forall k :: |s| - n <= k < |s| ==> IsSpace(s[k])
    ensures n < |s| ==> !IsSpace(s[|s| - 1 - n])
  {
    if s == [] || !IsSpace(s[|s| - 1]) then 0 else 1 + TrailingSpaces(s[..|s| - 1])
  }

  /** Python's `str.strip()`: the whitespace at both ends removed. */
  function Strip(s: string): (r: string)
    ensures IsTrimmed(r)
    ensures LeadingSpaces(s) + |r| <= |s|
    ensures r == s[LeadingSpaces(s)..LeadingSpaces(s) + |r|]
    ensures IsBlank(s[..LeadingSpaces(s)]) && IsBlank(s[LeadingSpaces(s) + |r|..])
  {
    var n := LeadingSpaces(s);
    var t := s[n..];
    var m := TrailingSpaces(t);
    TrimTail(t, m);
    CutBlank(t, m);
    assert t[|t| - m..] == s[n + (|t| - m)..];
    t[..|t| - m]
  }

  /** Cutting `m` characters off the end of a string that does not start with
      whitespace, when the character before them is not whitespace, leaves a
      string that neither starts nor ends with whitespace. */
  lemma TrimTail(t: string, m: nat)
    requires m <= |t|
    requires t == [] || !IsSpace(t[0])
    requires m < |t| ==> !IsSpace(t[|t| - 1 - m])
    ensures IsTrimmed(t[..|t| - m])
  {
    var r := t[..|t| - m];
    if r != [] {
      assert r[0] == t[0];
      assert r[|r| - 1] == t[|t| - 1 - m];
    }
  }

  /** A suffix of length `m` made only of whitespace is blank. */
  lemma CutBlank(t: string, m: nat)
    requires m <= |t|
    requires forall k :: |t| - m <= k < |t| ==> IsSpace(t[k])
    ensures IsBlank(t[|t| - m..])
  {
    var cut := t[|t| - m..];
    forall k | 0 <= k < |cut|
      ensures IsSpace(cut[k])
    {
      assert cut[k] == t[|t| - m + k];
    }
  }

  /** Strip yields the empty string exactly on blank input. */
  lemma StripEmptyIffBlank(s: string)
    ensures Strip(s) == [] <==> IsBlank(s)
  {
    var n := LeadingSpaces(s);
    if Strip(s) == [] {
      assert s[..n] == s;
    } else {
      assert Strip(s)[0] == s[n];
      assert !IsSpace(s[n]);
    }
  }

  /** Stripping leaves an already trimmed string alone. */
  lemma StripTrimmed(s: string)
    requires IsTrimmed(s)
    ensures Strip(s) == s
  {
    if s != [] {
      assert LeadingSpaces(s) == 0;
      assert TrailingSpaces(s) == 0;
    }
  }

  // ---------------------------------------------------------------------
  // One credentials entry
  // ---------------------------------------------------------------------

  datatype Credential = Credential(timestamp: string, email: string, password: string)

  /** The text block appended to the credentials file for one accepted login:
      the bracketed timestamp, the email line, the password line, the divider
      and an empty line. Its fixed text adds 64 characters to the fields; the
      parser in `EntryLog` reads it back. */
  function Entry(c: Credential): (e: string)
    ensures |e| == |c.timestamp| + |c.email| + |c.password| + 64
    ensures e[0] == '[' && e[|e| - 42..] == Divider + "\n\n"
  {
    DividerHasNoBreak();
    EntryLayout(c.timestamp, c.email, c.password, Divider);
    "[" + c.timestamp + "]" + "\n" + "Email: " + c.email + "\n" + "Password: " + c.password + "\n"
    + Divider + "\n" + "\n"
  }

  lemma DividerHasNoBreak()
    ensures |Divider| == 40 && '\n' !in Divider
  {
    assert forall i :: 0 <= i < |Divider| ==> Divider[i] == DividerChar;
  }

  /** The entry layout for any 40-character divider. */
  lemma EntryLayout(t: string, m: string, p: string, d: string)
    requires |d| == 40
    ensures var e := "[" + t + "]" + "\n" + "Email: " + m + "\n" + "Password: " + p + "\n" + d + "\n" + "\n";
      && |e| == |t| + |m| + |p| + 64
      && e[0] == '[' && e[|e| - 42..] == d + "\n\n"
  {
    var head := "[" + t + "]" + "\n" + "Email: " + m + "\n" + "Password: " + p + "\n";
    var e := head + d + "\n" + "\n";
    assert e == head + (d + "\n\n");
    assert e[0] == head[0] == '[';
  }

  // ---------------------------------------------------------------------
  // Replies
  // ---------------------------------------------------------------------

  newtype byte = b: int | 0 <= b < 256

  /** The decoded JSON object of a login request: each field is absent or a string. */
  datatype LoginBody = LoginBody(email: Option<string>, password: Option<string>)

  /** The JSON object `{success, message?, data?}` every API reply carries. */
  datatype Envelope = Envelope(success: bool, message: Option<string>, data: Option<string>)

  datatype Reply = Reply(status: int, envelope: Envelope)

  function Failure(status: int, message: string): Reply {
    Reply(status, Envelope(false, Some(message), None))
  }

  function Welcome(): Reply {
    Reply(200, Envelope(true, Some(MsgWelcome), None))
  }

  function Contents(data: string): Reply {
    Reply(200, Envelope(true, None, Some(data)))
  }

  /** The decision of a login validator: which check failed, or the email and
      password to record. */
  datatype Verdict = MissingFields | DomainNotAllowed | Accepted(email: string, password: string)

  /** The reply of a login request and the text it appends to the store, if any. */
  datatype LoginOutcome = LoginOutcome(reply: Reply, append: Option<string>)

  /** Turns a verdict into the reply and the append; the timestamp is the
      clock reading taken on the success path. */
  function Decide(v: Verdict, timestamp: string): (o: LoginOutcome)
    ensures o.append.Some? <==> o.reply.status == 200
    ensures o.reply.status == 400 <==> !v.Accepted?
    ensures o.reply.envelope.success <==> v.Accepted?
    ensures v == MissingFields ==> o.reply == Failure(400, MsgRequired)
    ensures v == DomainNotAllowed ==> o.reply == Failure(400, MsgDomain)
    ensures v.Accepted? ==>
      o.reply == Welcome() && o.append == Some(Entry(Credential(timestamp, v.email, v.password)))
  {
    match v
    case MissingFields => LoginOutcome(Failure(400, MsgRequired), None)
    case DomainNotAllowed => LoginOutcome(Failure(400, MsgDomain), None)
    case Accepted(email, password) =>
      LoginOutcome(Welcome(), Some(Entry(Credential(timestamp, email, password))))
  }

  /** Lower-casing gives a character that is not a capital exactly from that
      character in either case. */
  lemma LowerMatches(x: char, d: char)
    requires !('A' <= d <= 'Z')
    ensures AsciiLower(x) == d <==> CaseVariant(x, d)
  {
  }

  /** Reading the domain check back: the lower-cased email ends with the
      domain exactly when each of its last 14 characters is the domain's
      character, small or capital. */
  lemma DomainCaseInsensitive(email: string)
    ensures EndsWith(Lower(email), Domain) <==>
      |Domain| <= |email| &&
      forall i :: 0 <= i < |Domain| ==> CaseVariant(email[|email| - |Domain| + i], Domain[i])
  {
    if |Domain| <= |email| {
      var n := |email| - |Domain|;
      var lower := Lower(email);
      forall i | 0 <= i < |Domain|
        ensures lower[n + i] == Domain[i] <==> CaseVariant(email[n + i], Domain[i])
      {
        assert !('A' <= Domain[i] <= 'Z');
        assert lower[n + i] == AsciiLower(email[n + i]);
        LowerMatches(email[n + i], Domain[i]);
      }
    }
  }
}
