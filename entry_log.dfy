/** Reading the credentials file back. The servers only ever write entries;
    this module gives the inverse of `Common.Entry` — a line-based parser for
    one entry block and for a whole file made of the banner followed by
    entries — and proves that every entry whose fields hold no line break
    reads back as the credential that produced it. */
module EntryLog {
  import opened Common

  /** No field of the credential contains a line break. */
  predicate SingleLine(c: Credential) {
    '\n' !in c.timestamp && '\n' !in c.email && '\n' !in c.password
  }

  /** Splits `s` at its first line break: the line before it and the rest after it. */
  function SplitLine(s: string): (r: Option<(string, string)>)
    ensures r.Some? ==> s == r.value.0 + "\n" + r.value.1 && '\n' !in r.value.0
    ensures r.None? ==> '\n' !in s
  {
    if s == [] then None
    else if s[0] == '\n' then Some(([], s[1..]))
    else match SplitLine(s[1..])
      case None => None
      case Some((line, rest)) => Some(([s[0]] + line, rest))
  }

  /** A line followed by a line break splits back into that line. */
  lemma {:induction false} SplitLineJoin(line: string, rest: string)
    requires '\n' !in line
    ensures SplitLine(line + "\n" + rest) == Some((line, rest))
  {
    var s := line + "\n" + rest;
    if line == [] {
      assert s == ['\n'] + rest;
    } else {
      assert s[0] == line[0];
      assert s[1..] == line[1..] + "\n" + rest;
      SplitLineJoin(line[1..], rest);
      assert [line[0]] + line[1..] == line;
    }
  }

  predicate StartsWith(s: string, prefix: string) {
    |prefix| <= |s| && s[..|prefix|] == prefix
  }

  /** Reads one entry block off the front of `s`: five lines — `[timestamp]`,
      `Email: …`, `Password: …`, the divider and an empty line. */
  function ParseEntry(s: string): (r: Option<(Credential, string)>)
    ensures r.Some? ==> |r.value.1| < |s|
  {
    match SplitLine(s)
    case None => None
    case Some((stamp, r1)) =>
      match SplitLine(r1)
      case None => None
      case Some((emailLine, r2)) =>
        match SplitLine(r2)
        case None => None
        case Some((passwordLine, r3)) =>
          match SplitLine(r3)
          case None => None
          case Some((divider, r4)) =>
            match SplitLine(r4)
            case None => None
            case Some((blank, rest)) =>
              if 2 <= |stamp| && stamp[0] == '[' && stamp[|stamp| - 1] == ']'
                 && StartsWith(emailLine, "Email: ") && StartsWith(passwordLine, "Password: ")
                 && divider == Divider && blank == []
              then Some((Credential(stamp[1..|stamp| - 1], emailLine[7..], passwordLine[10..]), rest))
              else None
  }

  lemma Associative(a: string, b: string, c: string)
    ensures a + b + c == a + (b + c)
  {
  }

  /** Five lines written one after another, regrouped line by line. */
  lemma FiveLines(l1: string, l2: string, l3: string, l4: string, rest: string)
    ensures l1 + "\n" + l2 + "\n" + l3 + "\n" + l4 + "\n" + "\n" + rest
      == l1 + "\n" + (l2 + "\n" + (l3 + "\n" + (l4 + "\n" + ([] + "\n" + rest))))
  {
    assert [] + "\n" + rest == "\n" + rest;
  }

  /** The five lines of an entry block, each followed by its line break. */
  lemma EntryLines(c: Credential, rest: string)
    ensures Entry(c) + rest ==
      ("[" + c.timestamp + "]") + "\n" + (("Email: " + c.email) + "\n" +
      (("Password: " + c.password) + "\n" + (Divider + "\n" + ([] + "\n" + rest))))
  {
    var stamp, emailLine, passwordLine := "[" + c.timestamp + "]", "Email: " + c.email, "Password: " + c.password;
    Associative(stamp + "\n", "Email: ", c.email);
    Associative(stamp + "\n" + emailLine + "\n", "Password: ", c.password);
    assert Entry(c) == stamp + "\n" + emailLine + "\n" + passwordLine + "\n" + Divider + "\n" + "\n";
    FiveLines(stamp, emailLine, passwordLine, Divider, rest);
  }

  /** An entry block written for a single-line credential reads back as that
      credential, leaving whatever followed it. */
  lemma ParseEntryOfEntry(c: Credential, rest: string)
    requires SingleLine(c)
    ensures ParseEntry(Entry(c) + rest) == Some((c, rest))
  {
    var stamp := "[" + c.timestamp + "]";
    var emailLine := "Email: " + c.email;
    var passwordLine := "Password: " + c.password;
    assert '\n' !in Divider;
    var r4 := [] + "\n" + rest;
    var r3 := Divider + "\n" + r4;
    var r2 := passwordLine + "\n" + r3;
    var r1 := emailLine + "\n" + r2;
    EntryLines(c, rest);
    SplitLineJoin(stamp, r1);
    SplitLineJoin(emailLine, r2);
    SplitLineJoin(passwordLine, r3);
    SplitLineJoin(Divider, r4);
    SplitLineJoin([], rest);
    FieldLines(c);
  }

  /** The first three lines of an entry give back its fields. */
  lemma FieldLines(c: Credential)
    ensures var stamp := "[" + c.timestamp + "]";
      && 2 <= |stamp| && stamp[0] == '[' && stamp[|stamp| - 1] == ']'
      && stamp[1..|stamp| - 1] == c.timestamp
    ensures StartsWith("Email: " + c.email, "Email: ") && ("Email: " + c.email)[7..] == c.email
    ensures StartsWith("Password: " + c.password, "Password: ")
      && ("Password: " + c.password)[10..] == c.password
  {
    var stamp, emailLine, passwordLine := "[" + c.timestamp + "]", "Email: " + c.email, "Password: " + c.password;
    assert stamp[1..|stamp| - 1] == c.timestamp;
    assert emailLine[..7] == "Email: " && emailLine[7..] == c.email;
    assert passwordLine[..10] == "Password: " && passwordLine[10..] == c.password;
  }

  /** The text of a sequence of entries, oldest first. */
  function Render(cs: seq<Credential>): string {
    if cs == [] then [] else Entry(cs[0]) + Render(cs[1..])
  }

  /** Appending one entry to rendered text renders the extended sequence. */
  lemma {:induction false} RenderAppend(cs: seq<Credential>, c: Credential)
    ensures Render(cs + [c]) == Render(cs) + Entry(c)
  {
    if cs == [] {
      assert [c][1..] == [];
    } else {
      assert (cs + [c])[1..] == cs[1..] + [c];
      RenderAppend(cs[1..], c);
    }
  }

  /** Reads a text made only of entry blocks. */
  function ParseEntries(s: string): Option<seq<Credential>>
    decreases |s|
  {
    if s == [] then Some([])
    else match ParseEntry(s)
      case None => None
      case Some((c, rest)) =>
        match ParseEntries(rest)
        case None => None
        case Some(cs) => Some([c] + cs)
  }

  /** Reads a whole credentials file: the banner, then entry blocks. */
  function ParseFile(s: string): Option<seq<Credential>> {
    if StartsWith(s, Banner) then ParseEntries(s[|Banner|..]) else None
  }

  /** Rendered single-line entries read back as the same sequence. */
  lemma {:induction false} ParseEntriesOfRender(cs: seq<Credential>)
    requires forall i :: 0 <= i < |cs| ==> SingleLine(cs[i])
    ensures ParseEntries(Render(cs)) == Some(cs)
  {
    if cs != [] {
      ParseEntryOfEntry(cs[0], Render(cs[1..]));
      ParseEntriesOfRender(cs[1..]);
      ParseEntriesCons(Render(cs), cs[0], Render(cs[1..]), cs[1..]);
      assert [cs[0]] + cs[1..] == cs;
    }
  }

  /** One step of `ParseEntries`: an entry block followed by entry blocks. */
  lemma ParseEntriesCons(s: string, c: Credential, rest: string, tail: seq<Credential>)
    requires ParseEntry(s) == Some((c, rest))
    requires ParseEntries(rest) == Some(tail)
    ensures ParseEntries(s) == Some([c] + tail)
  {
  }

  /** A credentials file created with the banner and grown only by
      single-line entries reads back as exactly those entries, in order. */
  lemma ParseFileOfLog(cs: seq<Credential>)
    requires forall i :: 0 <= i < |cs| ==> SingleLine(cs[i])
    ensures ParseFile(Banner + Render(cs)) == Some(cs)
  {
    var s := Banner + Render(cs);
    assert s[..|Banner|] == Banner;
    assert s[|Banner|..] == Render(cs);
    ParseEntriesOfRender(cs);
  }

  /** Appending an entry after rendered entries, behind any header. */
  lemma AppendRendered(header: string, cs: seq<Credential>, c: Credential)
    ensures header + Render(cs) + Entry(c) == header + Render(cs + [c])
  {
    RenderAppend(cs, c);
    Associative(header, Render(cs), Entry(c));
  }

  /** Appending the entry of one more single-line credential to a file made
      of the banner and single-line entries gives the file of the extended
      sequence, which reads back as exactly that sequence. */
  lemma LogAfterAppend(cs: seq<Credential>, c: Credential)
    requires forall i :: 0 <= i < |cs| ==> SingleLine(cs[i])
    requires SingleLine(c)
    ensures Banner + Render(cs) + Entry(c) == Banner + Render(cs + [c])
    ensures ParseFile(Banner + Render(cs + [c])) == Some(cs + [c])
  {
    SingleLinesGrow(cs, c);
    AppendRendered(Banner, cs, c);
    ParseFileOfLog(cs + [c]);
  }

  lemma SingleLinesGrow(cs: seq<Credential>, c: Credential)
    requires forall i :: 0 <= i < |cs| ==> SingleLine(cs[i])
    requires SingleLine(c)
    ensures forall i :: 0 <= i < |cs + [c]| ==> SingleLine((cs + [c])[i])
  {
  }

  /** Two appends in a row: both entries are kept, in order, even when the
      two credentials are equal. */
  lemma LogAfterTwo(cs: seq<Credential>, c1: Credential, c2: Credential)
    requires forall i :: 0 <= i < |cs| ==> SingleLine(cs[i])
    requires SingleLine(c1) && SingleLine(c2)
    ensures Banner + Render(cs) + Entry(c1) + Entry(c2) == Banner + Render(cs + [c1, c2])
    ensures ParseFile(Banner + Render(cs + [c1, c2])) == Some(cs + [c1, c2])
  {
    SingleLinesGrow(cs, c1);
    LogAfterAppend(cs, c1);
    LogAfterAppend(cs + [c1], c2);
    PairAppend(cs, c1, c2);
  }

  lemma PairAppend(cs: seq<Credential>, c1: Credential, c2: Credential)
    ensures cs + [c1] + [c2] == cs + [c1, c2]
  {
  }
}
