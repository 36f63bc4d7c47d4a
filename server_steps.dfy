/**
  What one step of a connection's receive loop does to the server's state, stated as
  relations between the state before and after: the forwarding actions, a command other
  than `/exit`, and `/exit` itself. The `Server` class's methods are proved to have exactly
  these effects.
 */
module ServerSteps {
  import opened Wrappers
  import opened Text
  import opened Envelope
  import opened Transfer
  import opened Storage
  import opened Routing
  import opened Strategies

  const CLOSE := "<close>"
  const SEND_FILE := "<send_file>"
  const SOMETHING_WRONG := "<single>:SERVER: There is something wrong in your request"
  const ONLY_ONE := "<single>:SERVER: You are the only one logged now"
  const FILE_RECEIVED := "<single>:SERVER: file received"

  /** How a connection's receive loop ended: `/exit`, an exception, or a send loop that never finishes. */
  datatype LoopEnd = Exited | Raise(error: Raised) | Hung

  /** Whether the receive loop goes on after one request. */
  datatype Step = Continue | Stop(end: LoopEnd)

  /**
    The registry is a dict: `order` lists its keys once each, in insertion order, and each
    socket serves one address.
   */
  ghost predicate Indexed(clients: map<Address, SockId>, order: seq<Address>)
  {
    && (forall i, j :: 0 <= i < j < |order| ==> order[i] != order[j])
    && (forall a :: a in clients <==> a in order)
    && (forall a, b :: a in clients && b in clients && clients[a] == clients[b] ==> a == b)
  }

  /** The traces after `message` is sent once on each of `sockets`. */
  ghost function Broadcast(sent0: map<SockId, seq<string>>, sockets: set<SockId>, message: string): (r: map<SockId, seq<string>>)
    ensures r.Keys == sent0.Keys
    ensures forall s :: s in r ==> r[s] == if s in sockets then sent0[s] + [message] else sent0[s]
  {
    map s | s in sent0 :: if s in sockets then sent0[s] + [message] else sent0[s]
  }

  /**
    What the action for a flag that sends a text does to the traces, and whether the loop goes
    on: `svc` answers the sender, `pvt` routes a private message (raising when it has no `:`),
    `bdc` broadcasts or tells the sender it is alone, and a flag outside the table does nothing.
   */
  ghost function AfterText(flag: string, data: Payload, sock: SockId, clients: map<Address, SockId>, order: seq<Address>,
                           sent0: map<SockId, seq<string>>): (r: (map<SockId, seq<string>>, Step))
    requires sock in sent0 && Fits(flag, data) && Forwarding(flag) !in {Some(SendFile), Some(ReceiveFile)}
    requires forall a :: a in clients ==> clients[a] in sent0
    requires forall i :: 0 <= i < |order| ==> order[i] in clients
    ensures r.0.Keys == sent0.Keys
    ensures r.1 == Continue || r.1 == Stop(Raise(OtherError))
  {
    match Forwarding(flag)
    case Some(SendToSelf) => (sent0[sock := sent0[sock] + [data.text]], Continue)
    case Some(PrivateRoute) =>
      var delivery := PrivateDelivery(order, clients, sock, data.text);
      if delivery.None? then (sent0, Stop(Raise(OtherError)))
      else
        var (target, message) := delivery.value;
        (sent0[target := sent0[target] + [message]], Continue)
    case Some(BroadcastRoute) =>
      if |clients| > 1 then (Broadcast(sent0, clients.Values, data.text), Continue)
      else (sent0[sock := sent0[sock] + [ONLY_ONE]], Continue)
    case _ => (sent0, Continue)
  }

  /**
    What `sfl` does: a missing file raises an OSError with nothing sent; otherwise the sender
    is sent the file's chunks up to the size, and a file shorter than the size is sent whole
    and hangs the send loop.
   */
  ghost function AfterSendFile(name: string, size: int, sock: SockId, sent0: map<SockId, seq<string>>, folder: Folder)
    : (r: (map<SockId, seq<string>>, Step))
    requires sock in sent0
    ensures r.0.Keys == sent0.Keys
  {
    if name !in folder then (sent0, Stop(Raise(OsError)))
    else if size <= |folder[name]| then (sent0[sock := sent0[sock] + FileChunks(folder[name], size)], Continue)
    else (sent0[sock := sent0[sock] + FileChunks(folder[name], |folder[name]|)], Stop(Hung))
  }

  /** The part of the server's state a forwarding step writes: the traces, the folder, where the loop reads next, and whether it goes on. */
  /** The registry, its order, the traces and the closed sockets after `/exit`, and the step. */
  type ExitEffect = (map<Address, SockId>, seq<Address>, map<SockId, seq<string>>, set<SockId>, Step)

  type Effect = (map<SockId, seq<string>>, Folder, nat, Step)

  /**
    What `recv_file` does: the sender is told `<send_file>:name||size`, the file is read from
    `pos` as `Collect` says and stored under its name, and the sender is told "file received".
    A read that falls short is a `recv` that raised on a reset connection: the bare `except`
    catches it, but the status `sendall` on that same reset socket raises an OSError, so no
    status goes out and the loop ends with that OSError.
   */
  ghost function AfterReceiveFile(name: string, size: int, sock: SockId, inbox: seq<string>, pos: nat,
                                  sent0: map<SockId, seq<string>>, folder0: Folder): (r: Effect)
    requires sock in sent0 && pos <= |inbox|
    ensures r.0.Keys == sent0.Keys && pos <= r.2 <= |inbox|
    ensures r.3 == Continue || r.3 == Stop(Raise(OsError))
    ensures r.3 == Continue <==> Collect(inbox, pos, size).complete
    ensures r.3 != Continue ==> r.2 == |inbox|
    ensures r.0[sock] == sent0[sock] + [SEND_FILE + ARG_SEP + FileInfo(name, size)] + (if r.3 == Continue then [FILE_RECEIVED] else [])
    ensures forall s :: s in sent0 && s != sock ==> r.0[s] == sent0[s]
    ensures name in r.1 && forall f :: f != name ==> (f in r.1 <==> f in folder0) && (f in folder0 ==> r.1[f] == folder0[f])
  {
    var c := Collect(inbox, pos, size);
    CollectMeaning(inbox, pos, size);
    var announced := sent0[sock] + [SEND_FILE + ARG_SEP + FileInfo(name, size)];
    if c.complete then (sent0[sock := announced + [FILE_RECEIVED]], folder0[name := c.data], c.next, Continue)
    else (sent0[sock := announced], folder0[name := c.data], c.next, Stop(Raise(OsError)))
  }

  /**
    What the action the forwarding table names for `flag` does with the sender's socket
    `sock` and the data, given the registry, the traces `sent0`, the folder `folder0` and the
    input from `pos` on. No trace is created or dropped, and only receiving a file reads
    input or changes the folder.
   */
  ghost function AfterForward(flag: string, data: Payload, sock: SockId, clients: map<Address, SockId>, order: seq<Address>,
                              inbox: seq<string>, pos: nat, sent0: map<SockId, seq<string>>, folder0: Folder): (r: Effect)
    requires sock in sent0 && pos <= |inbox| && Fits(flag, data)
    requires forall a :: a in clients ==> clients[a] in sent0
    requires forall i :: 0 <= i < |order| ==> order[i] in clients
    ensures r.0.Keys == sent0.Keys && pos <= r.2 <= |inbox|
    ensures Forwarding(flag) != Some(ReceiveFile) ==> r.1 == folder0 && r.2 == pos
    ensures r.3 == Stop(Raise(OsError)) ==>
      r.0 == sent0 || (Forwarding(flag) == Some(ReceiveFile) && r.0 == sent0[sock := sent0[sock] + [SEND_FILE + ARG_SEP + FileInfo(data.name, data.size)]])
  {
    match Forwarding(flag)
    case Some(SendFile) =>
      var (sent1, step) := AfterSendFile(data.name, data.size, sock, sent0, folder0);
      (sent1, folder0, pos, step)
    case Some(ReceiveFile) => AfterReceiveFile(data.name, data.size, sock, inbox, pos, sent0, folder0)
    case _ =>
      var (sent1, step) := AfterText(flag, data, sock, clients, order, sent0);
      (sent1, folder0, pos, step)
  }

  /**
    What `/exit` does (`close_connection` on the sender's port) to the registry, its order, the traces
    and the closed sockets: the first registered client with that port is sent `<close>`,
    closed and removed, and the loop breaks; with no such client the unpacking raises and
    nothing changes. A registered sender always finds a client with its port.
   */
  ghost function AfterExit(addr: Address, clients0: map<Address, SockId>, order0: seq<Address>,
                           sent0: map<SockId, seq<string>>, closed0: set<SockId>): (r: ExitEffect)
    requires Indexed(clients0, order0) && forall a :: a in clients0 ==> clients0[a] in sent0
    ensures r.4 == Stop(Exited) <==> FirstWithPort(order0, addr.port).Some?
    ensures r.4 != Stop(Exited) ==> r.4 == Stop(Raise(OtherError)) && r.0 == clients0 && r.1 == order0 && r.2 == sent0 && r.3 == closed0
    ensures addr in clients0 ==> r.4 == Stop(Exited)
    ensures r.2.Keys == sent0.Keys
    ensures forall a :: a in r.0 ==> a in clients0 && r.0[a] == clients0[a]
  {
    match FirstWithPort(order0, addr.port)
    case None => (clients0, order0, sent0, closed0, Stop(Raise(OtherError)))
    case Some(i) =>
      var a := order0[i];
      var s := clients0[a];
      (clients0 - {a}, Without(order0, a), sent0[s := sent0[s] + [CLOSE]], closed0 + {s}, Stop(Exited))
  }

  /**
    What a command other than `/exit` does: the strategy's exception stops the loop with
    nothing sent, over the folder the strategy left; otherwise the instruction it gives is
    forwarded from that folder.
   */
  ghost function AfterCommand(port: int, key: string, args: Option<string>, sock: SockId,
                              clients: map<Address, SockId>, order: seq<Address>, inbox: seq<string>, pos: nat,
                              sent0: map<SockId, seq<string>>, folder0: Folder, listing: seq<string>): (r: Effect)
    requires key != EXIT && sock in sent0 && pos <= |inbox|
    requires forall a :: a in clients ==> clients[a] in sent0
    requires forall i :: 0 <= i < |order| ==> order[i] in clients
    ensures r.0.Keys == sent0.Keys && pos <= r.2 <= |inbox|
  {
    var (result, after) := Dispatch(port, key, args, folder0, listing);
    match result
    case Err(e) => (sent0, after, pos, Stop(Raise(e)))
    case Ok(instruction) =>
      DispatchFits(port, key, args, folder0, listing);
      AfterForward(instruction.flag, instruction.data, sock, clients, order, inbox, pos, sent0, after)
  }

  /**
    A command that ends in an OSError has sent nothing to any other socket, and at most one
    line to the sender: the `<send_file>` request of an upload whose connection was reset.
   */
  lemma CommandOsErrorSendsAtMostRequest(port: int, key: string, args: Option<string>, sock: SockId,
                                         clients: map<Address, SockId>, order: seq<Address>, inbox: seq<string>, pos: nat,
                                         sent0: map<SockId, seq<string>>, folder0: Folder, listing: seq<string>)
    requires key != EXIT && sock in sent0 && pos <= |inbox|
    requires forall a :: a in clients ==> clients[a] in sent0
    requires forall i :: 0 <= i < |order| ==> order[i] in clients
    ensures var r := AfterCommand(port, key, args, sock, clients, order, inbox, pos, sent0, folder0, listing);
      r.3 == Stop(Raise(OsError)) ==>
        && (forall s :: s in sent0 && s != sock ==> r.0[s] == sent0[s])
        && (r.0[sock] == sent0[sock]
            || (|r.0[sock]| == |sent0[sock]| + 1 && sent0[sock] <= r.0[sock] && SEND_FILE + ARG_SEP <= r.0[sock][|sent0[sock]|]))
  {
    var (result, after) := Dispatch(port, key, args, folder0, listing);
    if result.Ok? && result.value.data.FileDesc? {
      var data := result.value.data;
      var line := SEND_FILE + ARG_SEP + FileInfo(data.name, data.size);
      assert (sent0[sock] + [line])[|sent0[sock]|] == line;
    }
  }

  /** The whole server state after one pass of the receive loop, and the step it takes. */
  type Request = (map<Address, SockId>, seq<Address>, map<SockId, seq<string>>, set<SockId>, Folder, nat, Step)

  /**
    One pass of `loop_to_receive_data_from_clients` for the message at `pos`: a closed
    peer (no message left) raises an OSError and changes nothing; `/exit` closes the
    sender's connection; any other command goes through the strategy and the forwarding
    table, over the folder as `os.listdir` lists it.
   */
  ghost function AfterRequest(addr: Address, sock: SockId, inbox: seq<string>, pos: nat,
                              clients0: map<Address, SockId>, order0: seq<Address>, sent0: map<SockId, seq<string>>,
                              closed0: set<SockId>, folder0: Folder, listing: seq<string>): (r: Request)
    requires Indexed(clients0, order0) && (forall a :: a in clients0 ==> clients0[a] in sent0)
    requires sock in sent0 && pos <= |inbox|
    ensures r.2.Keys == sent0.Keys
    ensures pos <= r.5 <= |inbox| && (pos < |inbox| ==> pos < r.5)
    ensures pos == |inbox| ==> r == (clients0, order0, sent0, closed0, folder0, pos, Stop(Raise(OsError)))
    ensures forall a :: a in r.0 ==> a in clients0 && r.0[a] == clients0[a]
    ensures r.6 == Continue ==> r.0 == clients0 && r.1 == order0 && r.3 == closed0
  {
    if pos == |inbox| then (clients0, order0, sent0, closed0, folder0, pos, Stop(Raise(OsError)))
    else
      var request := Separate(inbox[pos]);
      if request.0 == EXIT then
        var e := AfterExit(addr, clients0, order0, sent0, closed0);
        (e.0, e.1, e.2, e.3, folder0, pos + 1, e.4)
      else
        var c := AfterCommand(addr.port, request.0, request.1, sock, clients0, order0, inbox, pos + 1, sent0, folder0, listing);
        (clients0, order0, c.0, closed0, c.1, c.2, c.3)
  }

  /** The whole server state when a connection's receive loop has ended, and how it ended. */
  type Outcome = (map<Address, SockId>, seq<Address>, map<SockId, seq<string>>, set<SockId>, Folder, LoopEnd)

  /**
    `loop_to_receive_data_from_clients` from the message at `pos`: passes as `AfterRequest`
    describes them, each over the folder as `os.listdir` then lists it, until the first one
    that stops the loop. No trace is created or dropped and the registry only loses entries.
   */
  ghost function Run(addr: Address, sock: SockId, inbox: seq<string>, pos: nat,
                     clients0: map<Address, SockId>, order0: seq<Address>, sent0: map<SockId, seq<string>>,
                     closed0: set<SockId>, folder0: Folder, listdir: Folder -> seq<string>): (r: Outcome)
    requires Indexed(clients0, order0) && (forall a :: a in clients0 ==> clients0[a] in sent0)
    requires sock in sent0 && pos <= |inbox|
    ensures r.2.Keys == sent0.Keys
    ensures forall a :: a in r.0 ==> a in clients0 && r.0[a] == clients0[a]
    ensures pos == |inbox| ==> r == (clients0, order0, sent0, closed0, folder0, Raise(OsError))
    decreases |inbox| - pos
  {
    var q := AfterRequest(addr, sock, inbox, pos, clients0, order0, sent0, closed0, folder0, listdir(folder0));
    match q.6
    case Stop(end) => (q.0, q.1, q.2, q.3, q.4, end)
    case Continue => Run(addr, sock, inbox, q.5, clients0, order0, q.2, closed0, q.4, listdir)
  }

  /**
    `handle_client` for the connection `sock` of `addr`: the receive loop runs over the whole
    input; unless it hangs, an exception other than an OSError is answered with "There is
    something wrong in your request", then the address is removed and the socket closed.
   */
  ghost function AfterConnection(addr: Address, sock: SockId, inbox: seq<string>,
                                 clients0: map<Address, SockId>, order0: seq<Address>, sent0: map<SockId, seq<string>>,
                                 closed0: set<SockId>, folder0: Folder, listdir: Folder -> seq<string>): (r: Outcome)
    requires Indexed(clients0, order0) && (forall a :: a in clients0 ==> clients0[a] in sent0)
    requires sock in sent0
    ensures r.2.Keys == sent0.Keys
    ensures r.5 != Hung ==> addr !in r.0 && addr !in r.1 && sock in r.3
    ensures r.5 == Raise(OtherError) ==> |r.2[sock]| > 0 && r.2[sock][|r.2[sock]| - 1] == SOMETHING_WRONG
    ensures forall a :: a in r.0 ==> a in clients0 && r.0[a] == clients0[a]
  {
    Teardown(addr, sock, Run(addr, sock, inbox, 0, clients0, order0, sent0, closed0, folder0, listdir))
  }

  /** What `handle_client` does once its receive loop has ended with the outcome `o`. */
  ghost function Teardown(addr: Address, sock: SockId, o: Outcome): (r: Outcome)
    requires sock in o.2
    ensures r.2.Keys == o.2.Keys
  {
    if o.5 == Hung then o
    else
      var sent1 := if o.5 == Raise(OtherError) then o.2[sock := o.2[sock] + [SOMETHING_WRONG]] else o.2;
      (o.0 - {addr}, Without(o.1, addr), sent1, o.3 + {sock}, o.4, o.5)
  }

  /** A file strategy whose descriptor does not parse raises, leaving the folder as it was. */
  lemma BadDescriptorRaises(port: int, key: string, s: Strategy, payload: string, folder: Folder, listing: seq<string>)
    requires key != EXIT && StrategyFor(key) == Some(s)
    requires s == SendFileToClient || s == ReceiveFileFromClient
    requires SeparateFileInformation(Some(payload)).None?
    ensures Dispatch(port, key, Some(payload), folder, listing) == (Err(OtherError), folder)
  {
    assert Execute(s, port, Some(payload), folder, listing) == (Err(OtherError), folder);
  }

  /** The two keys of the file strategies: neither holds `:` nor is `/exit`. */
  lemma FileKeyStrategies(key: string)
    requires key == "<conf>" || key == "<file_inf>"
    ensures ':' !in key && key != EXIT
    ensures StrategyFor(key) == Some(SendFileToClient) || StrategyFor(key) == Some(ReceiveFileFromClient)
  {
    FileKeys();
  }

  /** A request with such a descriptor stops the loop with that exception, and nothing else changes. */
  lemma BadDescriptorStops(addr: Address, sock: SockId, inbox: seq<string>, pos: nat, key: string, s: Strategy, payload: string,
                           clients0: map<Address, SockId>, order0: seq<Address>, sent0: map<SockId, seq<string>>,
                           closed0: set<SockId>, folder0: Folder, listing: seq<string>)
    requires Indexed(clients0, order0) && (forall a :: a in clients0 ==> clients0[a] in sent0)
    requires sock in sent0 && pos < |inbox|
    requires ':' !in key && key != EXIT && StrategyFor(key) == Some(s)
    requires s == SendFileToClient || s == ReceiveFileFromClient
    requires SeparateFileInformation(Some(payload)).None?
    requires inbox[pos] == key + ARG_SEP + payload
    ensures AfterRequest(addr, sock, inbox, pos, clients0, order0, sent0, closed0, folder0, listing)
         == (clients0, order0, sent0, closed0, folder0, pos + 1, Stop(Raise(OtherError)))
  {
    assert Separate(inbox[pos]) == (key, Some(payload)) by {
      SeparateEncode(key, Some(payload));
    }
    BadDescriptorRaises(addr.port, key, s, payload, folder0, listing);
  }

  /**
    A file descriptor that does not parse, sent as the first request with either file key,
    makes the strategy raise: the sender is told something is wrong in its request, and its
    connection is torn down with nothing else sent.
   */
  lemma BadDescriptorIsAnswered(addr: Address, sock: SockId, inbox: seq<string>, key: string, payload: string,
                                clients0: map<Address, SockId>, order0: seq<Address>, sent0: map<SockId, seq<string>>,
                                closed0: set<SockId>, folder0: Folder, listdir: Folder -> seq<string>)
    requires Indexed(clients0, order0) && (forall a :: a in clients0 ==> clients0[a] in sent0)
    requires sock in sent0
    requires key == "<conf>" || key == "<file_inf>"
    requires SeparateFileInformation(Some(payload)).None?
    requires |inbox| > 0 && inbox[0] == key + ARG_SEP + payload
    ensures AfterConnection(addr, sock, inbox, clients0, order0, sent0, closed0, folder0, listdir)
         == (clients0 - {addr}, Without(order0, addr), sent0[sock := sent0[sock] + [SOMETHING_WRONG]],
             closed0 + {sock}, folder0, Raise(OtherError))
  {
    assert Run(addr, sock, inbox, 0, clients0, order0, sent0, closed0, folder0, listdir)
        == (clients0, order0, sent0, closed0, folder0, Raise(OtherError)) by {
      FileKeyStrategies(key);
      BadDescriptorStops(addr, sock, inbox, 0, key, StrategyFor(key).value, payload, clients0, order0, sent0, closed0, folder0, listdir(folder0));
    }
  }
}
