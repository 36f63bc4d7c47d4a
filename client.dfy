/**
  The chat client: it sends the user's requests (reading an uploaded file's descriptor from
  its own folder first) and, in its receive loop, reads one envelope per `recv` and runs the
  handler its tag names.
 */
module ClientModel {
  import opened Wrappers
  import opened Text
  import opened Envelope
  import opened Transfer
  import opened Storage

  const CLOSE_TAG := "<close>"
  const SINGLE_TAG := "<single>"
  const SEND_FILE_TAG := "<send_file>"
  const UPLOAD := "/upl"
  const CONF := "<conf>"
  const FILE_INF := "<file_inf>"
  /** What the client prints for an exception it catches: `ERROR: ` and the exception's text, which is not modelled. */
  const ERROR_LINE := "ERROR"

  /** The five handlers of the client's tag table. */
  datatype Handler = Close | MultipleLines | SingleLine | ConfirmFile | SendFileRequest

  /** The keys of the client's tag table. */
  const TAGS: set<string> := {CLOSE_TAG, MULT, SINGLE_TAG, CONFIRM, SEND_FILE_TAG}

  /** The tag table: the handler registered under `tag`, if any (a missing one raises KeyError). */
  function HandlerFor(tag: string): (r: Option<Handler>)
    ensures r.Some? <==> tag in TAGS
  {
    if tag == CLOSE_TAG then Some(Close)
    else if tag == MULT then Some(MultipleLines)
    else if tag == SINGLE_TAG then Some(SingleLine)
    else if tag == CONFIRM then Some(ConfirmFile)
    else if tag == SEND_FILE_TAG then Some(SendFileRequest)
    else None
  }

  /** A handler runs only when the envelope carries a non-empty payload (Python truthiness). */
  predicate HasArguments(args: Option<string>)
  {
    args.Some? && args.value != ""
  }

  /** How the client's receive loop ended: the stop flag, an exception, or a send loop that never finishes. */
  datatype ClientEnd = Stopped | Aborted | Hung

  /** The client's state: the stop flag, what it wrote on its connection, its folder and its screen. */
  datatype ClientState = ClientState(stopFlag: bool, sent: seq<string>, disk: Folder, screen: seq<string>)

  /**
    What `confirm_receiving_file` does with a `<confirm>` descriptor, reading from `pos`: one
    that does not parse raises (false) with nothing sent, stored or printed; otherwise `<conf>:`
    and the unchanged descriptor is sent, the file is read as `Collect` says and stored under
    its name, and "File received (name)" or the error line is printed.
   */
  function AfterConfirm(payload: string, inbox: seq<string>, pos: nat, c: ClientState): (r: (ClientState, nat, bool))
    requires pos <= |inbox|
    ensures pos <= r.1 <= |inbox|
    ensures r.2 <==> SplitFileInfo(payload).Some?
    ensures !r.2 ==> r.0 == c && r.1 == pos
    ensures r.0.stopFlag == c.stopFlag && c.sent <= r.0.sent && c.screen <= r.0.screen
  {
    match SplitFileInfo(payload)
    case None => (c, pos, false)
    case Some((name, size)) =>
      var f := Collect(inbox, pos, size);
      (c.(sent := c.sent + [CONF + ARG_SEP + payload],
          disk := c.disk[name := f.data],
          screen := c.screen + [if f.complete then "File received (" + name + ")" else ERROR_LINE]),
       f.next, true)
  }

  /**
    What `prepare_information_to_send_file` does for a `<send_file>` descriptor: nothing is
    sent and the loop ends when it does not parse or names a missing file; otherwise the
    file's chunks up to the size are sent, and a file shorter than the size hangs the send
    loop after sending it whole. Only what was sent changes.
   */
  function AfterSendRequest(payload: string, c: ClientState): (r: (ClientState, Option<ClientEnd>))
    ensures r.0 == c.(sent := r.0.sent) && c.sent <= r.0.sent
    ensures r.1 == None || r.1 == Some(Aborted) || r.1 == Some(Hung)
    ensures r.1 == Some(Aborted) ==> r.0 == c
  {
    match SplitFileInfo(payload)
    case None => (c, Some(Aborted))
    case Some((name, size)) =>
      if name !in c.disk then (c, Some(Aborted))
      else if size <= |c.disk[name]| then (c.(sent := c.sent + FileChunks(c.disk[name], size)), None)
      else (c.(sent := c.sent + FileChunks(c.disk[name], |c.disk[name]|)), Some(Hung))
  }

  /**
    One iteration of `receive_from_server` on the envelope at `pos`: the handler its tag
    names runs when the payload is non-empty. A reset connection or an unknown tag raises;
    `<close>` sets the stop flag and changes nothing else; only the two file tags send
    anything or change the folder, and a step that goes on has consumed input.
   */
  function AfterEnvelope(inbox: seq<string>, pos: nat, c: ClientState): (r: (ClientState, nat, Option<ClientEnd>))
    requires pos <= |inbox|
    ensures pos <= r.1 <= |inbox| && (r.2.None? ==> pos < r.1)
    ensures pos == |inbox| ==> r == (c, pos, Some(Aborted))
    ensures pos < |inbox| && HandlerFor(Separate(inbox[pos]).0).None? ==> r == (c, pos + 1, Some(Aborted))
    ensures r.2 == Some(Stopped) <==> pos < |inbox| && Separate(inbox[pos]).0 == CLOSE_TAG
    ensures r.2 == Some(Stopped) ==> r.0 == c.(stopFlag := true)
    ensures r.2 != Some(Stopped) ==> r.0.stopFlag == c.stopFlag
    ensures c.sent <= r.0.sent && c.screen <= r.0.screen
    ensures r.0.sent != c.sent || r.0.disk != c.disk ==>
      pos < |inbox| && (Separate(inbox[pos]).0 == CONFIRM || Separate(inbox[pos]).0 == SEND_FILE_TAG)
  {
    if pos == |inbox| then (c, pos, Some(Aborted))
    else
      var (tag, args) := Separate(inbox[pos]);
      var handler := HandlerFor(tag);
      if handler.None? then (c, pos + 1, Some(Aborted))
      else if handler.value == Close then (c.(stopFlag := true), pos + 1, Some(Stopped))
      else if !HasArguments(args) then (c, pos + 1, None)
      else if handler.value == MultipleLines then (c.(screen := c.screen + SplitAll(args.value, LINE_SEP)), pos + 1, None)
      else if handler.value == SingleLine then (c.(screen := c.screen + [args.value]), pos + 1, None)
      else if handler.value == ConfirmFile then
        var (c1, next, ok) := AfterConfirm(args.value, inbox, pos + 1, c);
        (c1, next, if ok then None else Some(Aborted))
      else
        var (c1, end) := AfterSendRequest(args.value, c);
        (c1, pos + 1, end)
  }

  /**
    `receive_from_server` from the envelope at `pos`: iterations as `AfterEnvelope` describes
    them while the stop flag is clear, until the first that ends the loop; an exception is
    printed as the error line. The loop ends stopped exactly when the flag is set, and the
    client only adds to what it sent and printed.
   */
  function RunClient(inbox: seq<string>, pos: nat, c: ClientState): (r: (ClientState, ClientEnd))
    requires pos <= |inbox|
    ensures r.1 == Stopped <==> r.0.stopFlag
    ensures r.1 == Aborted ==> |r.0.screen| > 0 && r.0.screen[|r.0.screen| - 1] == ERROR_LINE
    ensures c.stopFlag ==> r == (c, Stopped)
    ensures c.sent <= r.0.sent && c.screen <= r.0.screen
    decreases |inbox| - pos
  {
    if c.stopFlag then (c, Stopped)
    else
      var (c1, next, end) := AfterEnvelope(inbox, pos, c);
      match end
      case None => RunClient(inbox, next, c1)
      case Some(Aborted) => (c1.(screen := c1.screen + [ERROR_LINE]), Aborted)
      case Some(e) => (c1, e)
  }

  class Client {
    /** `_stop_flag`: set by `<close>`; both loops stop when it is set. */
    var stopFlag: bool
    /** Everything the client wrote on its connection, in order. */
    var sent: seq<string>
    /** Every line the client printed for the user, in order. */
    var screen: seq<string>
    /** The client's folder. */
    var disk: Folder

    /** The client's fields as one value. */
    function State(): ClientState
      reads this
    {
      ClientState(stopFlag, sent, disk, screen)
    }

    constructor (initial: Folder)
      ensures !stopFlag && sent == [] && screen == [] && disk == initial
    {
      stopFlag, sent, screen, disk := false, [], [], initial;
    }

    /** `stop_thread`. */
    method StopThread()
      modifies this
      ensures stopFlag
      ensures sent == old(sent) && screen == old(screen) && disk == old(disk)
    {
      stopFlag := true;
    }

    /** `logout`: the stop flag is set; `sys.exit` then ends the receiving thread. */
    method Logout()
      modifies this
      ensures stopFlag
      ensures sent == old(sent) && screen == old(screen) && disk == old(disk)
    {
      StopThread();
    }

    /** `send_file_name_and_size`: the `<file_inf>` announcement with the file's size. */
    method SendFileNameAndSize(name: string)
      requires name in disk
      modifies this
      ensures stopFlag == old(stopFlag) && screen == old(screen) && disk == old(disk)
      ensures sent == old(sent) + [FILE_INF + ARG_SEP + FileInfo(name, |disk[name]|)]
    {
      sent := sent + [FILE_INF + ARG_SEP + FileInfo(name, |disk[name]|)];
    }

    /** `get_file_information` (client side): announce an existing file, or print that it is missing. */
    method GetFileInformation(name: string)
      modifies this
      ensures stopFlag == old(stopFlag) && disk == old(disk)
      ensures name in disk ==> sent == old(sent) + [FILE_INF + ARG_SEP + FileInfo(name, |disk[name]|)] && screen == old(screen)
      ensures name !in disk ==> sent == old(sent) && screen == old(screen) + ["File not found: " + name]
    {
      if name in disk {
        SendFileNameAndSize(name);
      } else {
        screen := screen + ["File not found: " + name];
      }
    }

    /**
      `send_request`: `/upl:NAME` is turned into the announcement of the file (a TypeError
      when there is no name); any other request goes out verbatim.
     */
    method SendRequest(request: string) returns (raised: Option<Raised>)
      modifies this
      ensures stopFlag == old(stopFlag) && disk == old(disk)
      ensures var (key, arg) := Separate(request);
        && (key != UPLOAD ==> raised.None? && sent == old(sent) + [request] && screen == old(screen))
        && (key == UPLOAD && arg.None? ==> raised == Some(OtherError) && sent == old(sent) && screen == old(screen))
        && (key == UPLOAD && arg.Some? && arg.value in disk ==>
              raised.None? && sent == old(sent) + [FILE_INF + ARG_SEP + FileInfo(arg.value, |disk[arg.value]|)]
              && screen == old(screen))
        && (key == UPLOAD && arg.Some? && arg.value !in disk ==>
              raised.None? && sent == old(sent) && screen == old(screen) + ["File not found: " + arg.value])
    {
      var (key, arg) := Separate(request);
      if key == UPLOAD {
        if arg.None? {
          return Some(OtherError);
        }
        GetFileInformation(arg.value);
      } else {
        sent := sent + [request];
      }
      return None;
    }

    /** `display_multiple_lines`: one printed line per `<<SEP>>`-separated piece. */
    method DisplayMultipleLines(message: string)
      modifies this
      ensures screen == old(screen) + SplitAll(message, LINE_SEP)
      ensures stopFlag == old(stopFlag) && sent == old(sent) && disk == old(disk)
    {
      screen := screen + SplitAll(message, LINE_SEP);
    }

    /** `display_single_line`. */
    method DisplaySingleLine(message: string)
      modifies this
      ensures screen == old(screen) + [message]
      ensures stopFlag == old(stopFlag) && sent == old(sent) && disk == old(disk)
    {
      screen := screen + [message];
    }

    /** The loop of `send_file`: `read(1024)` and `send` until `size` bytes are out. */
    method SendChunks(content: string, size: int)
      requires size <= |content|
      modifies this
      ensures sent == old(sent) + FileChunks(content, size)
      ensures stopFlag == old(stopFlag) && screen == old(screen) && disk == old(disk)
    {
      var sentData := 0;
      while sentData < size
        invariant 0 <= sentData <= |content|
        invariant sent + ChunksFrom(content, size, sentData) == old(sent) + FileChunks(content, size)
        invariant stopFlag == old(stopFlag) && screen == old(screen) && disk == old(disk)
        decreases |content| - sentData
      {
        var end := if sentData + CHUNK_SIZE <= |content| then sentData + CHUNK_SIZE else |content|;
        ChunkStep(content, size, sentData, end);
        var data := content[sentData..end];
        assert (sent + [data]) + ChunksFrom(content, size, end) == sent + ([data] + ChunksFrom(content, size, end));
        sent := sent + [data];
        sentData := end;
      }
      assert sent + [] == sent;
    }

    /**
      `send_file`: a missing file raises FileNotFoundError, which ends the receive loop; a
      file at least as long as the size is sent in chunks; a shorter one is sent whole and
      the loop then spins forever.
     */
    method SendFile(name: string, size: int) returns (end: Option<ClientEnd>)
      modifies this
      ensures name !in disk ==> end == Some(Aborted) && sent == old(sent)
      ensures name in disk && size <= |disk[name]| ==> end.None? && sent == old(sent) + FileChunks(disk[name], size)
      ensures name in disk && size > |disk[name]| ==>
        end == Some(Hung) && sent == old(sent) + FileChunks(disk[name], |disk[name]|)
      ensures stopFlag == old(stopFlag) && screen == old(screen) && disk == old(disk)
    {
      if name !in disk {
        return Some(Aborted);
      }
      var content := disk[name];
      if size <= |content| {
        SendChunks(content, size);
        end := None;
      } else {
        SendChunks(content, |content|);
        end := Some(Hung);
      }
    }

    /** `prepare_information_to_send_file`: parse the descriptor the server asked for, then send that file. */
    method PrepareInformationToSendFile(payload: string) returns (end: Option<ClientEnd>)
      modifies this
      ensures (State(), end) == AfterSendRequest(payload, old(State()))
    {
      var info := SplitFileInfo(payload);
      if info.None? {
        return Some(Aborted);
      }
      end := SendFile(info.value.0, info.value.1);
    }

    /**
      `write_file` (client side): the file is created empty and each `recv` result appended
      until `size` bytes arrived, as `Collect` describes.
     */
    method WriteFile(name: string, size: int, inbox: seq<string>, pos: nat) returns (next: nat, complete: bool)
      requires pos <= |inbox|
      modifies this
      ensures var r := Collect(inbox, pos, size);
        next == r.next && complete == r.complete && disk == old(disk)[name := r.data]
      ensures stopFlag == old(stopFlag) && sent == old(sent) && screen == old(screen)
    {
      var base := disk;
      var written := "";
      disk := base[name := written];
      next := pos;
      while |written| < size
        invariant pos <= next <= |inbox|
        invariant disk == base[name := written]
        invariant Collect(inbox, pos, size) == After(written, Collect(inbox, next, size - |written|))
        invariant stopFlag == old(stopFlag) && sent == old(sent) && screen == old(screen)
        decreases |inbox| - next
      {
        if next == |inbox| {
          assert After(written, Collect(inbox, next, size - |written|)) == Received(written, next, false);
          return next, false;
        }
        var data := inbox[next];
        ghost var rest := Collect(inbox, next + 1, size - |written| - |data|);
        assert Collect(inbox, next, size - |written|) == After(data, rest);
        assert After(written, After(data, rest)) == After(written + data, rest);
        written := written + data;
        disk := base[name := written];
        next := next + 1;
      }
      assert After(written, Collect(inbox, next, size - |written|)) == Received(written, next, true);
      complete := true;
    }

    /** `receive_file`: write the file, then print whether it arrived. */
    method ReceiveFile(name: string, size: int, inbox: seq<string>, pos: nat) returns (next: nat)
      requires pos <= |inbox|
      modifies this
      ensures var r := Collect(inbox, pos, size);
        && next == r.next && disk == old(disk)[name := r.data]
        && screen == old(screen) + [if r.complete then "File received (" + name + ")" else ERROR_LINE]
      ensures stopFlag == old(stopFlag) && sent == old(sent)
    {
      var complete;
      next, complete := WriteFile(name, size, inbox, pos);
      screen := screen + [if complete then "File received (" + name + ")" else ERROR_LINE];
    }

    /**
      `confirm_receiving_file`: parse the descriptor the server confirmed, ask for the file
      with `<conf>` and the same descriptor, and receive it. A descriptor that does not parse
      raises (false).
     */
    method ConfirmReceivingFile(payload: string, inbox: seq<string>, pos: nat) returns (next: nat, ok: bool)
      requires pos <= |inbox|
      modifies this
      ensures (State(), next, ok) == AfterConfirm(payload, inbox, pos, old(State()))
    {
      var info := SplitFileInfo(payload);
      if info.None? {
        return pos, false;
      }
      sent := sent + [CONF + ARG_SEP + payload];
      next := ReceiveFile(info.value.0, info.value.1, inbox, pos);
      ok := true;
    }

    /** One iteration of `receive_from_server`: receive an envelope and run the handler its tag names. */
    method Receive(inbox: seq<string>, pos: nat) returns (next: nat, end: Option<ClientEnd>)
      requires pos <= |inbox|
      modifies this
      ensures (State(), next, end) == AfterEnvelope(inbox, pos, old(State()))
    {
      if pos == |inbox| {
        return pos, Some(Aborted);
      }
      var (tag, args) := Separate(inbox[pos]);
      next := pos + 1;
      end := None;
      var handler := HandlerFor(tag);
      if handler.None? {
        return next, Some(Aborted);
      }
      if handler.value == Close {
        Logout();
        return next, Some(Stopped);
      }
      if !HasArguments(args) {
        return;
      }
      match handler.value
      case MultipleLines =>
        DisplayMultipleLines(args.value);
      case SingleLine =>
        DisplaySingleLine(args.value);
      case ConfirmFile =>
        var ok;
        next, ok := ConfirmReceivingFile(args.value, inbox, next);
        if !ok {
          end := Some(Aborted);
        }
      case SendFileRequest =>
        end := PrepareInformationToSendFile(args.value);
    }

    /**
      `receive_from_server`: handle envelopes while the stop flag is clear. An exception
      ends the loop and is printed as an `ERROR` line.
     */
    method ReceiveFromServer(inbox: seq<string>) returns (end: ClientEnd)
      modifies this
      ensures end == Stopped <==> stopFlag
      ensures end == Aborted ==> |screen| > 0 && screen[|screen| - 1] == ERROR_LINE
      ensures old(stopFlag) ==> end == Stopped && sent == old(sent) && screen == old(screen) && disk == old(disk)
      ensures (State(), end) == RunClient(inbox, 0, old(State()))
    {
      var pos := 0;
      while !stopFlag
        invariant pos <= |inbox|
        invariant RunClient(inbox, pos, State()) == RunClient(inbox, 0, old(State()))
        decreases |inbox| - pos
      {
        var next, stop := Receive(inbox, pos);
        if stop == Some(Aborted) {
          screen := screen + [ERROR_LINE];
        }
        if stop.Some? {
          return stop.value;
        }
        pos := next;
      }
      return Stopped;
    }
  }

  /**
    As written, the replies to a successful or a failed delete carry no tag of the client's
    table, so the client's lookup raises KeyError and its receive loop ends.
   */
  lemma DeleteReplyAsWrittenStopsClient(name: Option<string>, outcome: Removal)
    requires outcome == Removed || outcome == NotFound
    ensures HandlerFor(Separate(DeleteReplyAsWritten(name, outcome)).0).None?
  {
    var reply := DeleteReplyAsWritten(name, outcome);
    var tag := Separate(reply).0;
    assert reply[0] == 'F';
    if tag != [] {
      assert tag[0] == reply[0];
    }
  }

  /** With the `<single>` tag every delete reply is displayed, as the client's one-line message. */
  lemma DeleteReplyIsDisplayed(name: Option<string>, outcome: Removal)
    ensures var (tag, args) := Separate(DeleteReply(name, outcome));
      HandlerFor(tag) == Some(SingleLine) && HasArguments(args)
  {
    match outcome
    case Removed => SeparateServerReply("File " + OptionText(name) + " deleted");
    case NotFound => SeparateServerReply("File not found");
    case Failed => SeparateServerReply("Error when trying to delete the file");
  }

  /**
    As written, a delete reply that reaches the receive loop ends it: the error line is
    printed and nothing else changes.
   */
  lemma DeleteReplyAsWrittenEndsClient(name: Option<string>, outcome: Removal, inbox: seq<string>, pos: nat, c: ClientState)
    requires outcome == Removed || outcome == NotFound
    requires !c.stopFlag && pos < |inbox| && inbox[pos] == DeleteReplyAsWritten(name, outcome)
    ensures RunClient(inbox, pos, c) == (c.(screen := c.screen + [ERROR_LINE]), Aborted)
  {
    DeleteReplyAsWrittenStopsClient(name, outcome);
  }

  /** With the tag, the receive loop shows a delete reply as one line and goes on with the next envelope. */
  lemma DeleteReplyIsShown(name: Option<string>, outcome: Removal, inbox: seq<string>, pos: nat, c: ClientState)
    requires !c.stopFlag && pos < |inbox| && inbox[pos] == DeleteReply(name, outcome)
    ensures RunClient(inbox, pos, c)
         == RunClient(inbox, pos + 1, c.(screen := c.screen + [Separate(inbox[pos]).1.value]))
  {
    DeleteReplyIsDisplayed(name, outcome);
  }
}
