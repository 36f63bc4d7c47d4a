/**
  The server's command dispatch: the strategy table that maps a command key to the
  strategy object run for it, what each strategy's `execute` returns (a forwarding flag and
  the data for it), and the forwarding table that maps the flag to the delivery action.
 */
module Strategies {
  import opened Wrappers
  import opened Text
  import opened Envelope
  import opened Transfer
  import opened Storage
  import opened Routing

  /** The eight concrete strategy classes. */
  datatype Strategy =
    | CommandList
    | FileListOnTheServer
    | DeleteFile
    | SendFileNameAndSize
    | SendFileToClient
    | ReceiveFileFromClient
    | PrivateMessage
    | BroadcastMessage

  const EXIT := "/exit"
  const COMMAND_NOT_FOUND := SERVER_REPLY + "Command not found"

  /** The keys of the strategy table. */
  const STRATEGY_KEYS: set<string> := {"/?", "/files", "/delf", "/downl", "/upl", "/msg", "/bmsg", "<conf>", "<file_inf>"}

  /** The strategy table: the strategy registered under `key`, if any. */
  function StrategyFor(key: string): (r: Option<Strategy>)
    ensures r.Some? <==> key in STRATEGY_KEYS
    ensures key == EXIT ==> r.None?
    ensures r == Some(ReceiveFileFromClient) <==> key == "/upl" || key == "<file_inf>"
  {
    if key == "/?" then Some(CommandList)
    else if key == "/files" then Some(FileListOnTheServer)
    else if key == "/delf" then Some(DeleteFile)
    else if key == "/downl" then Some(SendFileNameAndSize)
    else if key == "/upl" then Some(ReceiveFileFromClient)
    else if key == "/msg" then Some(PrivateMessage)
    else if key == "/bmsg" then Some(BroadcastMessage)
    else if key == "<conf>" then Some(SendFileToClient)
    else if key == "<file_inf>" then Some(ReceiveFileFromClient)
    else None
  }

  /** Every strategy is reachable from some key of the table. */
  lemma EveryStrategyHasAKey(s: Strategy)
    ensures exists key :: key in STRATEGY_KEYS && StrategyFor(key) == Some(s)
  {
    match s
    case CommandList => assert StrategyFor("/?") == Some(s);
    case FileListOnTheServer => assert StrategyFor("/files") == Some(s);
    case DeleteFile => assert StrategyFor("/delf") == Some(s);
    case SendFileNameAndSize => assert StrategyFor("/downl") == Some(s);
    case SendFileToClient => assert StrategyFor("<conf>") == Some(s);
    case ReceiveFileFromClient => assert StrategyFor("<file_inf>") == Some(s);
    case PrivateMessage => assert StrategyFor("/msg") == Some(s);
    case BroadcastMessage => assert StrategyFor("/bmsg") == Some(s);
  }

  // ---- forwarding ----

  const SVC := "svc"
  const PVT := "pvt"
  const BDC := "bdc"
  const SFL := "sfl"
  const RECV_FILE := "recv_file"

  /** The five delivery actions of the forwarding table. */
  datatype Route = SendToSelf | PrivateRoute | BroadcastRoute | SendFile | ReceiveFile

  /** The keys of the forwarding table. */
  const FORWARDING_FLAGS: set<string> := {SVC, PVT, BDC, SFL, RECV_FILE}

  /** The forwarding table: the action registered under `flag`, if any (a missing flag does nothing). */
  function Forwarding(flag: string): (r: Option<Route>)
    ensures r.Some? <==> flag in FORWARDING_FLAGS
    ensures r.Some? && (r.value == SendFile || r.value == ReceiveFile) <==> flag == SFL || flag == RECV_FILE
  {
    if flag == SVC then Some(SendToSelf)
    else if flag == PVT then Some(PrivateRoute)
    else if flag == BDC then Some(BroadcastRoute)
    else if flag == SFL then Some(SendFile)
    else if flag == RECV_FILE then Some(ReceiveFile)
    else None
  }

  /** The data a strategy hands to the forwarding step: a text, or a parsed file descriptor. */
  datatype Payload = Text(text: string) | FileDesc(name: string, size: int)

  /** The `(flag, data)` pair a strategy returns. */
  datatype Instruction = Instruction(flag: string, data: Payload)

  /**
    The data kind matches what the action under the flag consumes: the file actions take a
    descriptor, the others a text.
   */
  predicate Fits(flag: string, data: Payload)
  {
    Forwarding(flag).Some? ==> ((flag == SFL || flag == RECV_FILE) <==> data.FileDesc?)
  }

  /** `separete_file_infomation` turned into the instruction for a file action, or the exception it raises. */
  function FileInstruction(flag: string, payload: Option<string>): (r: Result<Instruction>)
    ensures r.Ok? <==> SeparateFileInformation(payload).Some?
    ensures r.Err? ==> r.error == OtherError
    ensures r.Ok? ==> r.value.flag == flag && r.value.data == FileDesc(SeparateFileInformation(payload).value.0, SeparateFileInformation(payload).value.1)
  {
    match SeparateFileInformation(payload)
    case None => Err(OtherError)
    case Some((name, size)) => Ok(Instruction(flag, FileDesc(name, size)))
  }

  /**
    A strategy's `execute`, with the server state it consults passed in: the client's
    port, the argument, the folder and the folder's listing. It returns the instruction
    (or the exception raised) and the folder afterwards.
   */
  function Execute(s: Strategy, port: int, arg: Option<string>, folder: Folder, listing: seq<string>): (r: (Result<Instruction>, Folder))
  {
    match s
    case CommandList => (Ok(Instruction(SVC, Text(GetCommandList()))), folder)
    case FileListOnTheServer => (Ok(Instruction(SVC, Text(GetFileListOnTheServer(listing, folder)))), folder)
    case DeleteFile =>
      var (reply, after) := Storage.DeleteFile(arg, folder);
      (Ok(Instruction(SVC, Text(reply))), after)
    case SendFileNameAndSize => (Ok(Instruction(SVC, Text(GetFileInformation(arg, folder)))), folder)
    case SendFileToClient => (FileInstruction(SFL, arg), folder)
    case ReceiveFileFromClient => (FileInstruction(RECV_FILE, arg), folder)
    case PrivateMessage => (Ok(Instruction(PVT, Text(PreparePrivateMessage(port, arg)))), folder)
    case BroadcastMessage => (Ok(Instruction(BDC, Text(PrepareBroadcastMessage(port, arg)))), folder)
  }

  /**
    Every instruction a strategy returns has a flag of the forwarding table, and its data
    is of the kind the action under that flag consumes.
   */
  lemma ExecuteFits(s: Strategy, port: int, arg: Option<string>, folder: Folder, listing: seq<string>)
    ensures var r := Execute(s, port, arg, folder, listing).0;
      r.Ok? ==> r.value.flag in FORWARDING_FLAGS && Fits(r.value.flag, r.value.data)
  {
  }

  /**
    Only the two file strategies can raise, and only when the descriptor does not parse;
    what they raise is not an OSError, so the client is told something is wrong.
   */
  lemma ExecuteRaises(s: Strategy, port: int, arg: Option<string>, folder: Folder, listing: seq<string>)
    ensures var r := Execute(s, port, arg, folder, listing).0;
      r.Err? <==> (s == SendFileToClient || s == ReceiveFileFromClient) && SeparateFileInformation(arg).None?
    ensures var r := Execute(s, port, arg, folder, listing).0;
      r.Err? ==> r.error == OtherError
  {
  }

  /**
    Only the delete strategy touches the folder, and it removes at most the named file,
    leaving every other file as it was.
   */
  lemma ExecuteFolder(s: Strategy, port: int, arg: Option<string>, folder: Folder, listing: seq<string>)
    ensures var after := Execute(s, port, arg, folder, listing).1;
      s != DeleteFile ==> after == folder
    ensures var after := Execute(s, port, arg, folder, listing).1;
      forall n :: n in folder && Some(n) != arg ==> n in after && after[n] == folder[n]
    ensures var after := Execute(s, port, arg, folder, listing).1;
      forall n :: n in after ==> n in folder && (s == DeleteFile ==> Some(n) != arg)
  {
  }

  /**
    `check_if_the_method_exists` followed by `get_result`, for a key other than `/exit`:
    an unknown key gets "Command not found" back on its own socket; a known key runs its
    strategy.
   */
  function Dispatch(port: int, key: string, arg: Option<string>, folder: Folder, listing: seq<string>): (r: (Result<Instruction>, Folder))
    requires key != EXIT
    ensures StrategyFor(key).None? ==> r == (Ok(Instruction(SVC, Text(COMMAND_NOT_FOUND))), folder)
    ensures StrategyFor(key).Some? ==> r == Execute(StrategyFor(key).value, port, arg, folder, listing)
  {
    match StrategyFor(key)
    case None => (Ok(Instruction(SVC, Text(COMMAND_NOT_FOUND))), folder)
    case Some(s) => Execute(s, port, arg, folder, listing)
  }

  /** Whatever the key, the dispatched instruction can be forwarded and fits its action. */
  lemma DispatchFits(port: int, key: string, arg: Option<string>, folder: Folder, listing: seq<string>)
    requires key != EXIT
    ensures var r := Dispatch(port, key, arg, folder, listing).0;
      r.Ok? ==> Forwarding(r.value.flag).Some? && Fits(r.value.flag, r.value.data)
  {
    if StrategyFor(key).Some? {
      ExecuteFits(StrategyFor(key).value, port, arg, folder, listing);
    }
  }

  /** The two keys the client's file transfers use select the two file strategies. */
  lemma FileKeys()
    ensures StrategyFor("<conf>") == Some(SendFileToClient)
    ensures StrategyFor("<file_inf>") == Some(ReceiveFileFromClient)
  {
  }

  /**
    The two file strategies turn a descriptor the client wrote into their file instruction
    for that name and size, with the folder untouched.
   */
  lemma FileStrategyOfFileInfo(s: Strategy, port: int, name: string, size: int, folder: Folder, listing: seq<string>)
    requires s == SendFileToClient || s == ReceiveFileFromClient
    requires PlainName(name)
    ensures Execute(s, port, Some(FileInfo(name, size)), folder, listing)
         == (Ok(Instruction(if s == SendFileToClient then SFL else RECV_FILE, FileDesc(name, size))), folder)
  {
    SeparateFileInformationOfFileInfo(name, size);
  }

  /** The upload descriptor the client announces turns into the receive-file instruction it describes. */
  lemma UploadAnnouncementDispatches(port: int, name: string, size: int, folder: Folder, listing: seq<string>)
    requires PlainName(name)
    ensures Dispatch(port, "<file_inf>", Some(FileInfo(name, size)), folder, listing)
         == (Ok(Instruction(RECV_FILE, FileDesc(name, size))), folder)
  {
    FileKeys();
    FileStrategyOfFileInfo(ReceiveFileFromClient, port, name, size, folder, listing);
  }

  /** The download confirmation the client returns turns into the send-file instruction it describes. */
  lemma DownloadConfirmationDispatches(port: int, name: string, size: int, folder: Folder, listing: seq<string>)
    requires PlainName(name)
    ensures Dispatch(port, "<conf>", Some(FileInfo(name, size)), folder, listing)
         == (Ok(Instruction(SFL, FileDesc(name, size))), folder)
  {
    FileKeys();
    FileStrategyOfFileInfo(SendFileToClient, port, name, size, folder, listing);
  }
}
