/** The credentials text file both servers share: created with the banner
    when absent at startup, grown only by appends, read whole by the admin
    endpoint. */
module Store {
  import opened Common

  class CredentialsFile {
    /** Whether the file exists. */
    var present: bool
    /** The file's content; meaningful only while `present`. */
    var text: string
    /** An environmental fault (permissions, a failing disk) that makes every
        read raise. */
    var unreadable: bool
    /** How many times the file has been opened for reading. */
    ghost var readCount: nat

    constructor (present: bool, text: string, unreadable: bool)
      ensures this.present == present && this.unreadable == unreadable
      ensures this.text == (if present then text else [])
      ensures readCount == 0
    {
      this.present := present;
      this.text := if present then text else [];
      this.unreadable := unreadable;
      readCount := 0;
    }

    /** What appending starts from: opening in append mode creates a missing
        file empty. */
    function Existing(): string
      reads this
    {
      if present then text else []
    }

    /** What a full read yields: the whole text byte for byte (Node's
        `readFileSync`), or nothing when the open or the read raises. The
        Python handler translates line endings on top of this. */
    function ReadResult(): Option<string>
      reads this
    {
      if present && !unreadable then Some(text) else None
    }

    /** Startup: write the banner when the file does not exist; an existing
        file is left as it is. */
    method Initialise()
      modifies this`present, this`text
      ensures present
      ensures text == if old(present) then old(text) else Banner
    {
      if !present {
        present := true;
        text := Banner;
      }
    }

    /** Append-mode write of one string at the end of the file. */
    method Append(s: string)
      modifies this`present, this`text
      ensures present
      ensures text == old(Existing()) + s
      ensures old(present) ==> old(text) <= text
    {
      text := Existing() + s;
      present := true;
    }

    /** Reads the whole file. */
    method Read() returns (r: Option<string>)
      modifies this`readCount
      ensures r == ReadResult()
      ensures readCount == old(readCount) + 1
    {
      readCount := readCount + 1;
      r := ReadResult();
    }
  }
}
