/**
  The server's storage helpers: the `<<SEP>>` multi-line codec, the help text, the
  file list built block by block, the download descriptor and the reply to a delete.
  The server folder is a `Folder` value; the filesystem calls that read it
  (`os.listdir`, `os.path.isfile`, `os.path.getsize`, `os.remove`) are answered from it.
 */
module Storage {
  import opened Wrappers
  import opened Text
  import opened Envelope
  import opened Transfer

  const LINE_SEP := "<<SEP>>"
  const MULT := "<mult>"
  const CONFIRM := "<confirm>"
  const FILE_NOT_FOUND := "<single>:SERVER: file not found"

  /** `convert_to_string`: the items joined by `<<SEP>>`, in order. */
  function ConvertToString(items: seq<string>): string
  {
    Join(items, LINE_SEP)
  }

  /** The line separator cannot overlap itself. */
  lemma LineSepUnbordered()
    ensures Unbordered(LINE_SEP)
  {
    forall k | 0 < k < |LINE_SEP|
      ensures LINE_SEP[k..] != LINE_SEP[..|LINE_SEP| - k]
    {
      assert LINE_SEP[k..][0] == LINE_SEP[k];
      assert LINE_SEP[..|LINE_SEP| - k][0] == '<';
      if k == 1 {
        assert LINE_SEP[k..][1] != LINE_SEP[..|LINE_SEP| - k][1];
      }
    }
  }

  /**
    The client's `split('<<SEP>>')` recovers the joined items, provided there is at
    least one item and none contains the separator.
   */
  lemma ConvertToStringRoundTrip(items: seq<string>)
    requires |items| >= 1
    requires forall x :: x in items ==> !Contains(x, LINE_SEP)
    ensures SplitAll(ConvertToString(items), LINE_SEP) == items
  {
    LineSepUnbordered();
    SplitJoin(items, LINE_SEP);
  }

  /** The seven help lines of `get_command_list`, in order. */
  const COMMANDS: seq<string> := [
    "/msg....: Private message",
    "/bmsg...: Broadcast message",
    "/files..: Files on the server",
    "/delf...: Delete a file on the server",
    "/downl..: Download from the server",
    "/upl....: Upload to the server",
    "/exit...: Log out"
  ]

  lemma FirstCommandsLackAngle()
    ensures '<' !in COMMANDS[0] && '<' !in COMMANDS[1] && '<' !in COMMANDS[2] && '<' !in COMMANDS[3]
  {
    assert '<' !in COMMANDS[0];
    assert '<' !in COMMANDS[1];
    assert '<' !in COMMANDS[2];
  }

  lemma LastCommandsLackAngle()
    ensures '<' !in COMMANDS[4] && '<' !in COMMANDS[5] && '<' !in COMMANDS[6]
  {
    assert '<' !in COMMANDS[4];
    assert '<' !in COMMANDS[5];
  }

  /** No help line contains the line separator (none contains `<`). */
  lemma CommandsLackLineSep()
    ensures forall x :: x in COMMANDS ==> !Contains(x, LINE_SEP)
  {
    FirstCommandsLackAngle();
    LastCommandsLackAngle();
    forall x | x in COMMANDS
      ensures !Contains(x, LINE_SEP)
    {
      LacksFirstChar(x, LINE_SEP);
    }
  }

  /**
    A `<mult>` envelope of `items`: the client sees the tag `<mult>` and splits the
    payload back into the items.
   */
  function MultiLine(items: seq<string>): (r: string)
    requires |items| >= 1
    requires forall x :: x in items ==> !Contains(x, LINE_SEP)
    ensures Separate(r) == (MULT, Some(ConvertToString(items)))
    ensures SplitAll(Separate(r).1.value, LINE_SEP) == items
  {
    ConvertToStringRoundTrip(items);
    SeparateEncode(MULT, Some(ConvertToString(items)));
    MULT + ARG_SEP + ConvertToString(items)
  }

  /**
    `get_command_list`: a `<mult>` envelope whose payload the client splits back into
    exactly the seven help lines.
   */
  function GetCommandList(): (r: string)
    ensures Separate(r).0 == MULT
    ensures Separate(r).1.Some? && SplitAll(Separate(r).1.value, LINE_SEP) == COMMANDS
  {
    CommandsLackLineSep();
    MultiLine(COMMANDS)
  }

  /** The list entry for a file: `'{size} - {name}'`. */
  function FileLine(name: string, folder: Folder): string
    requires name in folder
  {
    IntToString(|folder[name]|) + " - " + name
  }

  /**
    The entries `process_file_block` produces for `names`: one per name whose size can be
    read, in the order of `names`; a name whose `getsize` raises is skipped.
   */
  function FileLines(names: seq<string>, folder: Folder): seq<string>
  {
    if names == [] then []
    else (if names[0] in folder then [FileLine(names[0], folder)] else []) + FileLines(names[1..], folder)
  }

  /** Listing two runs of names one after the other lists each run in turn. */
  lemma {:induction false} FileLinesAppend(a: seq<string>, b: seq<string>, folder: Folder)
    ensures FileLines(a + b, folder) == FileLines(a, folder) + FileLines(b, folder)
    decreases |a|
  {
    if a == [] {
      assert a + b == b;
    } else {
      assert (a + b)[0] == a[0] && (a + b)[1..] == a[1..] + b;
      FileLinesAppend(a[1..], b, folder);
    }
  }

  /** There are never more entries than names, and exactly as many when every size can be read. */
  lemma {:induction false} FileLinesLength(names: seq<string>, folder: Folder)
    ensures |FileLines(names, folder)| <= |names|
    ensures (forall n :: n in names ==> n in folder) ==> |FileLines(names, folder)| == |names|
    decreases |names|
  {
    if names != [] {
      FileLinesLength(names[1..], folder);
      assert forall n :: n in names[1..] ==> n in names;
    }
  }

  /** `process_file_block`: one entry per readable name, in order. */
  method ProcessFileBlock(names: seq<string>, folder: Folder) returns (info: seq<string>)
    ensures info == FileLines(names, folder)
  {
    info := [];
    for i := 0 to |names|
      invariant info == FileLines(names[..i], folder)
    {
      FileLinesAppend(names[..i], [names[i]], folder);
      assert names[..i + 1] == names[..i] + [names[i]];
      if names[i] in folder {
        info := info + [FileLine(names[i], folder)];
      }
    }
    assert names[..|names|] == names;
  }

  /**
    `process_large_file_list`: the names taken in blocks of `blockSize` (10 at the call
    site), each block processed in turn. The result does not depend on the block size.
   */
  method ProcessLargeFileList(names: seq<string>, folder: Folder, blockSize: nat) returns (result: seq<string>)
    requires blockSize > 0
    ensures result == FileLines(names, folder)
  {
    result := [];
    var index := 0;
    while index < |names|
      invariant 0 <= index <= |names|
      invariant result == FileLines(names[..index], folder)
      decreases |names| - index
    {
      var end := if index + blockSize <= |names| then index + blockSize else |names|;
      var block := names[index..end];
      var info := ProcessFileBlock(block, folder);
      FileLinesAppend(names[..index], block, folder);
      assert names[..end] == names[..index] + block;
      result := result + info;
      index := end;
    }
    assert names[..|names|] == names;
  }

  /** `get_file_list_on_the_server`: a `<mult>` envelope of the entries for the listed names. */
  function GetFileListOnTheServer(listing: seq<string>, folder: Folder): (r: string)
    ensures Separate(r) == (MULT, Some(ConvertToString(FileLines(listing, folder))))
  {
    SeparateEncode(MULT, Some(ConvertToString(FileLines(listing, folder))));
    MULT + ARG_SEP + ConvertToString(FileLines(listing, folder))
  }

  /**
    `get_file_information` as it is meant to work: a `<confirm>` envelope with the
    descriptor of an existing file, `file not found` otherwise (also when no name is
    given, since the path cannot be formed).
   */
  function GetFileInformation(name: Option<string>, folder: Folder): (r: string)
    ensures name.Some? && name.value in folder ==> r == CONFIRM + ARG_SEP + FileInfo(name.value, |folder[name.value]|)
    ensures !(name.Some? && name.value in folder) ==> r == FILE_NOT_FOUND
  {
    if name.Some? && name.value in folder then CONFIRM + ARG_SEP + FileInfo(name.value, |folder[name.value]|)
    else FILE_NOT_FOUND
  }

  // ---- get_file_information as written ----

  /**
    Python truthiness of the first component `check_if_the_file_exists` returns: a boolean,
    or, as written, the tuple its own recursive call returned.
   */
  datatype Truth = Flag(b: bool) | Tuple(inner: Answer)

  /** The pair `(confirmation, path)` returned by `check_if_the_file_exists`. */
  datatype Answer = Answer(confirmation: Truth, path: Option<string>)

  predicate Truthy(t: Truth)
  {
    match t
    case Flag(b) => b
    case Tuple(_) => true  // a non-empty tuple
  }

  /**
    `check_if_the_file_exists` (the two-result version) as written. Its second
    definition replaces the first one, so the call meant for the `isfile` test calls
    itself on the longer path `dir + name`. `depth` is the number of frames left before
    Python raises RecursionError. Whenever the body raises (no name to append to, or no
    frame left) the result is `(False, None)`.
   */
  function CheckIfTheFileExistsAsWritten(dir: string, name: Option<string>, depth: nat): (r: Answer)
    ensures name.None? || depth == 0 ==> r == Answer(Flag(false), None)
    decreases depth
  {
    match name
    case None => Answer(Flag(false), None)
    case Some(n) =>
      if depth == 0 then Answer(Flag(false), None)
      else Answer(Tuple(CheckIfTheFileExistsAsWritten(dir, Some(dir + n), depth - 1)), Some(dir + n))
  }

  /** Given a name and at least one frame, the existence test as written is truthy, file or no file. */
  lemma ExistenceAsWrittenAlwaysTruthy(dir: string, name: string, depth: nat)
    requires depth >= 1
    ensures Truthy(CheckIfTheFileExistsAsWritten(dir, Some(name), depth).confirmation)
    ensures CheckIfTheFileExistsAsWritten(dir, Some(name), depth).path == Some(dir + name)
  {
  }

  /**
    `get_file_information` as written: a truthy test leads to `getsize`, which raises
    FileNotFoundError (an OSError) for a missing file.
   */
  function GetFileInformationAsWritten(dir: string, name: Option<string>, folder: Folder, depth: nat): Result<string>
  {
    var answer := CheckIfTheFileExistsAsWritten(dir, name, depth);
    if Truthy(answer.confirmation) then
      if name.Some? && name.value in folder then Ok(CONFIRM + ARG_SEP + FileInfo(name.value, |folder[name.value]|))
      else Err(OsError)
    else Ok(FILE_NOT_FOUND)
  }

  /**
    As written, a request for a missing file never gets `file not found`: it raises an
    OSError, which ends the connection without a reply.
   */
  lemma MissingFileAsWrittenRaises(dir: string, name: string, folder: Folder, depth: nat)
    requires depth >= 1 && name !in folder
    ensures GetFileInformationAsWritten(dir, Some(name), folder, depth) == Err(OsError)
    ensures GetFileInformation(Some(name), folder) == FILE_NOT_FOUND
  {
    ExistenceAsWrittenAlwaysTruthy(dir, name, depth);
  }

  /** For an existing file the code as written and the intended one agree. */
  lemma ExistingFileAsWrittenAgrees(dir: string, name: string, folder: Folder, depth: nat)
    requires depth >= 1 && name in folder
    ensures GetFileInformationAsWritten(dir, Some(name), folder, depth) == Ok(GetFileInformation(Some(name), folder))
  {
    ExistenceAsWrittenAlwaysTruthy(dir, name, depth);
  }

  // ---- delete_file ----

  /** What `os.remove` does: removes the file, raises FileNotFoundError, or raises another error. */
  datatype Removal = Removed | NotFound | Failed

  /**
    The outcome of `os.remove(DIRECTORY + name)` on the folder. With no name the path
    cannot be formed (TypeError), which the handler counts as "any other error".
   */
  function RemovalOf(name: Option<string>, folder: Folder): Removal
  {
    match name
    case None => Failed
    case Some(n) => if n in folder then Removed else NotFound
  }

  const DELETE_ERROR := SERVER_REPLY + "Error when trying to delete the file"

  /** `delete_file`'s replies as written: the first two carry no envelope tag. */
  function DeleteReplyAsWritten(name: Option<string>, outcome: Removal): (r: string)
    ensures outcome != Failed ==> |Separate(r).0| > 0 && Separate(r).0[0] == 'F'
  {
    var reply := match outcome
      case Removed => "File " + OptionText(name) + " deleted"
      case NotFound => "File not found"
      case Failed => DELETE_ERROR;
    SeparateHead(reply);
    reply
  }

  /** `delete_file`'s replies with the `<single>` tag every other server reply carries. */
  function DeleteReply(name: Option<string>, outcome: Removal): (r: string)
    ensures Separate(r).0 == "<single>" && Separate(r).1.Some?
  {
    var text := match outcome
      case Removed => "File " + OptionText(name) + " deleted"
      case NotFound => "File not found"
      case Failed => "Error when trying to delete the file";
    SeparateServerReply(text);
    SERVER_REPLY + text
  }

  /**
    `delete_file`: the reply and the folder afterwards. Only a successful removal changes
    the folder, and it removes exactly the named file.
   */
  function DeleteFile(name: Option<string>, folder: Folder): (r: (string, Folder))
    ensures r.1 == if RemovalOf(name, folder) == Removed then folder - {name.value} else folder
    ensures r.0 == DeleteReply(name, RemovalOf(name, folder))
  {
    var outcome := RemovalOf(name, folder);
    (DeleteReply(name, outcome), if outcome == Removed then folder - {name.value} else folder)
  }
}
