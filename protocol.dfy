/**
  Properties of the conversation between the two endpoints: what one side writes is read
  back by the other as intended, for the command list, private messages, file listings,
  deletions and both file transfers.
 */
module Protocol {
  import opened Wrappers
  import opened Text
  import opened Envelope
  import opened Transfer
  import opened Storage
  import opened Routing
  import opened Strategies
  import opened ServerSteps
  import opened ServerModel
  import opened ClientModel

  /** The client shows `/?`'s reply as exactly the seven help lines. */
  lemma CommandListIsDisplayed()
    ensures var (tag, args) := Separate(GetCommandList());
      && HandlerFor(tag) == Some(MultipleLines)
      && HasArguments(args)
      && SplitAll(args.value, LINE_SEP) == COMMANDS
  {
    var args := Separate(GetCommandList()).1;
    assert |SplitAll(args.value, LINE_SEP)| == 7;
  }

  /** A private message reaches its target's screen as the one line `(P)> text`. */
  lemma PrivateMessageIsDisplayed(port: int, text: string)
    ensures var (tag, args) := Separate(PrivateText(port, text));
      && HandlerFor(tag) == Some(SingleLine)
      && args == Some("(" + IntToString(port) + ")> " + text)
      && HasArguments(args)
  {
    var rest := "(" + IntToString(port) + ")> " + text;
    assert PrivateText(port, text) == SINGLE_TAG + ARG_SEP + rest;
    SeparateEncode(SINGLE_TAG, Some(rest));
  }

  /** A broadcast reaches every screen as the one line `(P)BROAD> text`. */
  lemma BroadcastIsDisplayed(port: int, arg: Option<string>)
    ensures var (tag, args) := Separate(PrepareBroadcastMessage(port, arg));
      && HandlerFor(tag) == Some(SingleLine)
      && args == Some("(" + IntToString(port) + ")BROAD> " + OptionText(arg))
  {
    var rest := "(" + IntToString(port) + ")BROAD> " + OptionText(arg);
    assert PrepareBroadcastMessage(port, arg) == SINGLE_TAG + ARG_SEP + rest;
    SeparateEncode(SINGLE_TAG, Some(rest));
  }

  /** A file-list line is never empty, and holds no `<` when its name holds none. */
  lemma FileLinesLackAngle(names: seq<string>, folder: Folder)
    requires forall n :: n in names ==> '<' !in n
    ensures forall x :: x in FileLines(names, folder) ==> x != "" && !Contains(x, LINE_SEP)
    decreases |names|
  {
    if names != [] {
      assert forall n :: n in names[1..] ==> n in names;
      FileLinesLackAngle(names[1..], folder);
      if names[0] in folder {
        var line := FileLine(names[0], folder);
        assert '<' !in line;
        LacksFirstChar(line, LINE_SEP);
      }
    }
  }

  /**
    `/files`: with at least one readable file the client shows one line per readable file,
    in listing order; with none the payload is empty and the client shows nothing.
   */
  lemma FileListIsDisplayed(listing: seq<string>, folder: Folder)
    requires forall n :: n in listing ==> '<' !in n
    ensures var (tag, args) := Separate(GetFileListOnTheServer(listing, folder));
      && HandlerFor(tag) == Some(MultipleLines)
      && (FileLines(listing, folder) != [] ==> HasArguments(args) && SplitAll(args.value, LINE_SEP) == FileLines(listing, folder))
      && (FileLines(listing, folder) == [] ==> !HasArguments(args))
  {
    var lines := FileLines(listing, folder);
    SeparateEncode(MULT, Some(ConvertToString(lines)));
    if lines != [] {
      FileLinesLackAngle(listing, folder);
      ConvertToStringRoundTrip(lines);
      assert lines[0] in lines;
      assert |ConvertToString(lines)| >= |lines[0]| > 0;
    }
  }

  /**
    Download: the server's `<confirm>` reaches the client's confirm handler with the
    descriptor, the client's `<conf>` reply dispatches to the send-file action for the same
    file, and the chunks the server sends are collected by the client as the whole file,
    leaving whatever follows on the connection unread.
   */
  lemma DownloadRoundTrip(port: int, name: string, folder: Folder, listing: seq<string>, after: seq<string>)
    requires name in folder && PlainName(name)
    ensures var (tag, args) := Separate(GetFileInformation(Some(name), folder));
      && HandlerFor(tag) == Some(ConfirmFile)
      && args == Some(FileInfo(name, |folder[name]|))
      && SplitFileInfo(args.value) == Some((name, |folder[name]|))
    ensures var (key, args) := Separate(CONF + ARG_SEP + FileInfo(name, |folder[name]|));
      Dispatch(port, key, args, folder, listing) == (Ok(Instruction(SFL, FileDesc(name, |folder[name]|))), folder)
    ensures var chunks := FileChunks(folder[name], |folder[name]|);
      Collect(chunks + after, 0, |folder[name]|) == Received(folder[name], |chunks|, true)
  {
    var info := FileInfo(name, |folder[name]|);
    SeparateEncode(CONFIRM, Some(info));
    SplitFileInfoOfFileInfo(name, |folder[name]|);
    SeparateEncode(CONF, Some(info));
    DownloadConfirmationDispatches(port, name, |folder[name]|, folder, listing);
    FileArrivesExactly(folder[name], after);
  }

  /**
    Upload: the client's `<file_inf>` announcement dispatches to the receive-file action for
    the same file, the server's `<send_file>` request reaches the client's send handler with
    that descriptor, and the chunks the client sends are collected by the server as the
    whole file, leaving whatever follows on the connection unread.
   */
  lemma UploadRoundTrip(port: int, name: string, content: string, folder: Folder, listing: seq<string>, after: seq<string>)
    requires PlainName(name)
    ensures var (key, args) := Separate(FILE_INF + ARG_SEP + FileInfo(name, |content|));
      Dispatch(port, key, args, folder, listing) == (Ok(Instruction(RECV_FILE, FileDesc(name, |content|))), folder)
    ensures var (tag, args) := Separate(SEND_FILE + ARG_SEP + FileInfo(name, |content|));
      && HandlerFor(tag) == Some(SendFileRequest)
      && args.Some? && SplitFileInfo(args.value) == Some((name, |content|))
    ensures var chunks := FileChunks(content, |content|);
      Collect(chunks + after, 0, |content|) == Received(content, |chunks|, true)
  {
    var info := FileInfo(name, |content|);
    assert Separate(FILE_INF + ARG_SEP + info) == (FILE_INF, Some(info)) by {
      SeparateEncode(FILE_INF, Some(info));
    }
    assert Dispatch(port, FILE_INF, Some(info), folder, listing) == (Ok(Instruction(RECV_FILE, FileDesc(name, |content|))), folder) by {
      UploadAnnouncementDispatches(port, name, |content|, folder, listing);
    }
    assert Separate(SEND_FILE + ARG_SEP + info) == (SEND_FILE, Some(info)) by {
      SeparateEncode(SEND_FILE, Some(info));
    }
    assert SplitFileInfo(info) == Some((name, |content|)) by {
      SplitFileInfoOfFileInfo(name, |content|);
    }
    assert HandlerFor(SEND_FILE) == Some(SendFileRequest);
    var chunks := FileChunks(content, |content|);
    assert Collect(chunks + after, 0, |content|) == Received(content, |chunks|, true) by {
      FileArrivesExactly(content, after);
    }
  }

  /** A request with an unknown key is answered with a line the client displays. */
  lemma CommandNotFoundIsDisplayed()
    ensures var (tag, args) := Separate(COMMAND_NOT_FOUND);
      HandlerFor(tag) == Some(SingleLine) && HasArguments(args)
  {
    SeparateServerReply("Command not found");
  }

  /** The client's table has a handler for the envelope's tag. */
  predicate Handled(envelope: string)
  {
    HandlerFor(Separate(envelope).0).Some?
  }

  /**
    Every reply the server sends back to the requesting client (`svc`) is an envelope whose
    tag the client's table handles: `<mult>` for the two listings, `<confirm>` or `<single>`
    for a download request, `<single>` for a deletion and for an unknown command.
   */
  lemma ServiceRepliesAreHandled(port: int, key: string, arg: Option<string>, folder: Folder, listing: seq<string>)
    requires key != EXIT
    ensures var r := Dispatch(port, key, arg, folder, listing).0;
      r.Ok? && r.value.flag == SVC ==> r.value.data.Text? && Handled(r.value.data.text)
  {
    match StrategyFor(key)
    case None =>
      CommandNotFoundIsDisplayed();
    case Some(s) =>
      ExecuteRepliesAreHandled(s, port, arg, folder, listing);
  }

  /** The same for each strategy: its `svc` reply, if it gives one, carries a handled tag. */
  lemma ExecuteRepliesAreHandled(s: Strategy, port: int, arg: Option<string>, folder: Folder, listing: seq<string>)
    ensures var r := Execute(s, port, arg, folder, listing).0;
      r.Ok? && r.value.flag == SVC ==> r.value.data.Text? && Handled(r.value.data.text)
  {
    match s
    case CommandList => CommandListIsHandled();
    case SendFileNameAndSize => FileInformationIsHandled(arg, folder);
    case _ =>
  }

  /** The help reply is a `<mult>` envelope. */
  lemma CommandListIsHandled()
    ensures Handled(GetCommandList())
  {
    assert Separate(GetCommandList()).0 == MULT;
  }

  /** The download reply is a `<confirm>` envelope for an existing file and a `<single>` one otherwise. */
  lemma FileInformationIsHandled(arg: Option<string>, folder: Folder)
    ensures Handled(GetFileInformation(arg, folder))
  {
    var text := GetFileInformation(arg, folder);
    if arg.Some? && arg.value in folder {
      SeparateEncode(CONFIRM, Some(FileInfo(arg.value, |folder[arg.value]|)));
      assert Separate(text).0 == CONFIRM;
    } else {
      assert text == SERVER_REPLY + "file not found";
      SeparateServerReply("file not found");
    }
  }

  /** Every client request a user types, other than `/upl`, is read by the server as the key and argument the user typed. */
  lemma RequestReadAsTyped(request: string)
    requires Separate(request).0 != UPLOAD
    ensures var (key, arg) := Separate(request);
      Separate(Encode(key, arg)) == (key, arg) && Encode(key, arg) == request
  {
    var (key, arg) := Separate(request);
    SeparateEncode(key, arg);
  }
}
