/**
  The chat and file server: a registry of connected clients (address to socket, kept in
  insertion order like the Python dict it models), what was sent on each socket, which
  sockets were closed, and the server's folder. Each connection is served by a receive
  loop that reads one envelope per `recv`, dispatches it and forwards the result.
 */
module ServerModel {
  import opened Wrappers
  import opened Text
  import opened Envelope
  import opened Transfer
  import opened Storage
  import opened Routing
  import opened Strategies
  import opened ServerSteps

  /** The sockets of the first `n` registered addresses. */
  ghost function SocketsUpTo(clients: map<Address, SockId>, order: seq<Address>, n: nat): set<SockId>
    requires Indexed(clients, order) && n <= |order|
  {
    set j | 0 <= j < n :: clients[order[j]]
  }

  /** Walking the registry in order meets each socket once: the next one is new. */
  lemma NextSocketIsNew(clients: map<Address, SockId>, order: seq<Address>, n: nat)
    requires Indexed(clients, order) && n < |order|
    ensures clients[order[n]] !in SocketsUpTo(clients, order, n)
    ensures SocketsUpTo(clients, order, n + 1) == SocketsUpTo(clients, order, n) + {clients[order[n]]}
  {
    forall j | 0 <= j < n
      ensures clients[order[j]] != clients[order[n]]
    {
      assert order[j] != order[n];
    }
  }

  /** Walking the whole registry meets every registered socket. */
  lemma AllSockets(clients: map<Address, SockId>, order: seq<Address>)
    requires Indexed(clients, order)
    ensures SocketsUpTo(clients, order, |order|) == clients.Values
  {
    forall s | s in clients.Values
      ensures s in SocketsUpTo(clients, order, |order|)
    {
      var a :| a in clients && clients[a] == s;
      var j :| 0 <= j < |order| && order[j] == a;
    }
  }

  class Server {
    /** `_clients_list`: the socket of each connected address. */
    var clients: map<Address, SockId>
    /** The insertion order of `_clients_list`'s keys. */
    var order: seq<Address>
    /** Everything written on each socket the server has accepted, in order. */
    var sent: map<SockId, seq<string>>
    /** The sockets the server has closed. */
    var closed: set<SockId>
    /** The server's folder. */
    var folder: Folder
    /** `os.listdir` of the folder: the names in the order the file system lists them. */
    const listdir: Folder -> seq<string>

    /** The registry is a dict with an insertion order, and every registered socket has a trace. */
    ghost predicate Registry()
      reads this
    {
      Indexed(clients, order) && forall a :: a in clients ==> clients[a] in sent
    }

    /** Besides, every registered socket is still open. */
    ghost predicate Valid()
      reads this
    {
      Registry() && forall a :: a in clients ==> clients[a] !in closed
    }

    /** A server with no client yet, serving `initial`. */
    constructor (initial: Folder, list: Folder -> seq<string>)
      ensures Valid()
      ensures clients == map[] && order == [] && sent == map[] && closed == {}
      ensures folder == initial && listdir == list
    {
      clients, order, sent, closed := map[], [], map[], {};
      folder, listdir := initial, list;
    }

    /** One iteration of `receive_client`: `accept` yields a new socket, which is registered. */
    method Accept(sock: SockId, addr: Address)
      requires Valid() && sock !in sent && sock !in closed
      modifies this
      ensures Valid()
      ensures sent == old(sent)[sock := []]
      ensures clients == old(clients)[addr := sock]
      ensures order == if addr in old(clients) then old(order) else old(order) + [addr]
      ensures closed == old(closed) && folder == old(folder)
    {
      sent := sent[sock := []];
      AddClientToTheList(sock, addr);
    }

    /** `add_client_to_the_list`: a new address goes last; a known one keeps its place and gets the new socket. */
    method AddClientToTheList(sock: SockId, addr: Address)
      requires Valid() && sock in sent && sock !in closed
      requires forall a :: a in clients && a != addr ==> clients[a] != sock
      modifies this
      ensures Valid()
      ensures clients == old(clients)[addr := sock]
      ensures order == if addr in old(clients) then old(order) else old(order) + [addr]
      ensures sent == old(sent) && closed == old(closed) && folder == old(folder)
    {
      if addr !in clients {
        order := order + [addr];
      }
      clients := clients[addr := sock];
    }

    /** `remove_client_from_the_list`: the address is gone and the others keep their order. */
    method RemoveClientFromTheList(addr: Address)
      requires Registry()
      requires forall a :: a in clients && a != addr ==> clients[a] !in closed
      modifies this
      ensures Valid()
      ensures clients == old(clients) - {addr}
      ensures order == Without(old(order), addr)
      ensures sent == old(sent) && closed == old(closed) && folder == old(folder)
    {
      if addr in clients {
        clients := clients - {addr};
      }
      order := Without(order, addr);
    }

    /** `get_client_address_and_socket`: the first registered address with the port, and its socket. */
    method GetClientAddressAndSocket(port: int) returns (r: Option<(Address, SockId)>)
      requires Registry()
      ensures r.None? <==> FirstWithPort(order, port).None?
      ensures r.Some? ==> var i := FirstWithPort(order, port).value;
        r.value == (order[i], clients[order[i]])
    {
      var i := 0;
      while i < |order|
        invariant 0 <= i <= |order|
        invariant forall j :: 0 <= j < i ==> order[j].port != port
      {
        if order[i].port == port {
          return Some((order[i], clients[order[i]]));
        }
        i := i + 1;
      }
      return None;
    }

    /** `send_message`: the data is appended to what the socket carried. */
    method SendMessage(sock: SockId, data: string)
      requires sock in sent
      modifies this`sent
      ensures sent == old(sent)[sock := old(sent[sock]) + [data]]
      ensures clients == old(clients) && order == old(order) && closed == old(closed) && folder == old(folder)
    {
      sent := sent[sock := sent[sock] + [data]];
    }

    /**
      `close_connection`: the first client with the port is sent `<close>`, its socket is
      closed and its address removed. With no such client the unpacking raises (false).
     */
    method CloseConnection(port: int) returns (ok: bool)
      requires Valid()
      modifies this
      ensures Valid()
      ensures ok <==> FirstWithPort(old(order), port).Some?
      ensures !ok ==> clients == old(clients) && order == old(order) && sent == old(sent) && closed == old(closed)
      ensures ok ==> var a := old(order)[FirstWithPort(old(order), port).value];
        var s := old(clients)[a];
        && clients == old(clients) - {a}
        && order == Without(old(order), a)
        && sent == old(sent)[s := old(sent[s]) + [CLOSE]]
        && closed == old(closed) + {s}
      ensures folder == old(folder)
    {
      var found := GetClientAddressAndSocket(port);
      if found.None? {
        return false;
      }
      var (a, s) := found.value;
      SendMessage(s, CLOSE);
      closed := closed + {s};
      RemoveClientFromTheList(a);
      return true;
    }

    /**
      `check_if_the_client_is_logged_now`: the message goes to the first client with the
      port, or "The client is not logged now" goes back to the sender.
     */
    method CheckIfTheClientIsLoggedNow(sock: SockId, target: int, message: string)
      requires Registry() && sock in sent
      modifies this
      ensures Registry()
      ensures sent.Keys == old(sent).Keys
      ensures FirstWithPort(order, target).Some? ==> var t := clients[order[FirstWithPort(order, target).value]];
        sent == old(sent)[t := old(sent[t]) + [message]]
      ensures FirstWithPort(order, target).None? ==> sent == old(sent)[sock := old(sent[sock]) + [NOT_LOGGED]]
      ensures clients == old(clients) && order == old(order) && closed == old(closed) && folder == old(folder)
    {
      var found := GetClientAddressAndSocket(target);
      if found.None? {
        SendMessage(sock, NOT_LOGGED);
      } else {
        SendMessage(found.value.1, message);
      }
    }

    /** `check_if_the_client_id_is_valid`: a target that is not an integer gets "User ID invalid" back. */
    method CheckIfTheClientIdIsValid(sock: SockId, target: string, message: string)
      requires Registry() && sock in sent
      modifies this
      ensures Registry()
      ensures sent.Keys == old(sent).Keys
      ensures ParseInt(target).None? ==> sent == old(sent)[sock := old(sent[sock]) + [ID_INVALID]]
      ensures ParseInt(target).Some? ==> var f := FirstWithPort(order, ParseInt(target).value);
        && (f.Some? ==> var t := clients[order[f.value]]; sent == old(sent)[t := old(sent[t]) + [message]])
        && (f.None? ==> sent == old(sent)[sock := old(sent[sock]) + [NOT_LOGGED]])
      ensures clients == old(clients) && order == old(order) && closed == old(closed) && folder == old(folder)
    {
      var id := ParseInt(target);
      if id.None? {
        SendMessage(sock, ID_INVALID);
      } else {
        CheckIfTheClientIsLoggedNow(sock, id.value, message);
      }
    }

    /**
      `check_if_there_is_message`: exactly the delivery `PrivateDelivery` describes; false
      when the payload has no `:` and the unpacking raises.
     */
    method CheckIfThereIsMessage(sock: SockId, payload: string) returns (ok: bool)
      requires Registry() && sock in sent
      modifies this
      ensures Registry()
      ensures sent.Keys == old(sent).Keys
      ensures var d := PrivateDelivery(order, clients, sock, payload);
        && (ok <==> d.Some?)
        && (d.Some? ==> d.value.0 in old(sent) && sent == old(sent)[d.value.0 := old(sent[d.value.0]) + [d.value.1]])
        && (d.None? ==> sent == old(sent))
      ensures clients == old(clients) && order == old(order) && closed == old(closed) && folder == old(folder)
    {
      var split := SplitFirst(payload, ":");
      if split.None? {
        return false;
      }
      var (target, message) := split.value;
      if message == "" {
        SendMessage(sock, EMPTY_MESSAGE);
      } else {
        CheckIfTheClientIdIsValid(sock, target, message);
      }
      return true;
    }

    /** `send_broadcast_message`: every registered socket, the sender's included, receives the message once. */
    method SendBroadcastMessage(message: string)
      requires Valid()
      modifies this
      ensures Valid()
      ensures sent.Keys == old(sent).Keys
      ensures forall s :: s in sent ==> sent[s] == if s in clients.Values then old(sent[s]) + [message] else old(sent[s])
      ensures clients == old(clients) && order == old(order) && closed == old(closed) && folder == old(folder)
    {
      var i := 0;
      while i < |order|
        invariant 0 <= i <= |order|
        invariant clients == old(clients) && order == old(order) && closed == old(closed) && folder == old(folder)
        invariant sent.Keys == old(sent).Keys
        invariant forall s :: s in sent ==>
          sent[s] == if s in SocketsUpTo(clients, order, i) then old(sent[s]) + [message] else old(sent[s])
      {
        var s := clients[order[i]];
        NextSocketIsNew(clients, order, i);
        SendMessage(s, message);
        i := i + 1;
      }
      AllSockets(clients, order);
    }

    /**
      `check_if_there_are_more_than_one_client`: a broadcast when more than one client is
      registered, otherwise "You are the only one logged now" to the sender alone.
     */
    method CheckIfThereAreMoreThanOneClient(sock: SockId, message: string)
      requires Valid() && sock in sent
      modifies this
      ensures Valid()
      ensures |clients| > 1 ==> sent == Broadcast(old(sent), clients.Values, message)
      ensures |clients| <= 1 ==> sent == old(sent)[sock := old(sent[sock]) + [ONLY_ONE]]
      ensures clients == old(clients) && order == old(order) && closed == old(closed) && folder == old(folder)
    {
      if |clients| > 1 {
        SendBroadcastMessage(message);
        assert sent == Broadcast(old(sent), clients.Values, message);
      } else {
        SendMessage(sock, ONLY_ONE);
      }
    }

    /** The loop of `send_file_to_client`: `read(1024)` and `send` until `size` bytes are out. */
    method SendChunks(sock: SockId, content: string, size: int)
      requires sock in sent && size <= |content|
      modifies this`sent
      ensures sent == old(sent)[sock := old(sent[sock]) + FileChunks(content, size)]
      ensures clients == old(clients) && order == old(order) && closed == old(closed) && folder == old(folder)
    {
      var sentData := 0;
      ghost var out: seq<string> := [];
      while sentData < size
        invariant 0 <= sentData <= |content|
        invariant sock in sent && sent == old(sent)[sock := sent[sock]]
        invariant sent[sock] == old(sent[sock]) + out
        invariant out + ChunksFrom(content, size, sentData) == FileChunks(content, size)
        decreases |content| - sentData
      {
        var end := if sentData + CHUNK_SIZE <= |content| then sentData + CHUNK_SIZE else |content|;
        ChunkStep(content, size, sentData, end);
        var data := content[sentData..end];
        assert (out + [data]) + ChunksFrom(content, size, end) == out + ([data] + ChunksFrom(content, size, end));
        SendMessage(sock, data);
        out := out + [data];
        sentData := end;
      }
      assert out + [] == out;
    }

    /**
      `send_file_to_client`: a missing file raises FileNotFoundError; a file at least as long
      as the size is sent in chunks; a shorter one is sent whole, after which `read` returns
      nothing and the loop spins forever.
     */
    method SendFileToClient(sock: SockId, name: string, size: int) returns (step: Step)
      requires sock in sent
      modifies this
      ensures name !in folder ==> step == Stop(Raise(OsError)) && sent == old(sent)
      ensures name in folder && size <= |folder[name]| ==>
        step == Continue && sent == old(sent)[sock := old(sent[sock]) + FileChunks(folder[name], size)]
      ensures name in folder && size > |folder[name]| ==>
        step == Stop(Hung) && sent == old(sent)[sock := old(sent[sock]) + FileChunks(folder[name], |folder[name]|)]
      ensures clients == old(clients) && order == old(order) && closed == old(closed) && folder == old(folder)
    {
      if name !in folder {
        return Stop(Raise(OsError));
      }
      var content := folder[name];
      if size <= |content| {
        SendChunks(sock, content, size);
        step := Continue;
      } else {
        SendChunks(sock, content, |content|);
        step := Stop(Hung);
      }
    }

    /**
      `write_file`: the file is created empty and each `recv` result appended until `size`
      bytes arrived; it is what `Collect` describes, a reset connection included.
     */
    method WriteFile(name: string, size: int, inbox: seq<string>, pos: nat) returns (next: nat, complete: bool)
      requires pos <= |inbox|
      modifies this
      ensures var r := Collect(inbox, pos, size);
        next == r.next && complete == r.complete && folder == old(folder)[name := r.data]
      ensures clients == old(clients) && order == old(order) && sent == old(sent) && closed == old(closed)
    {
      var base := folder;
      var written := "";
      folder := base[name := written];
      next := pos;
      while |written| < size
        invariant pos <= next <= |inbox|
        invariant folder == base[name := written]
        invariant Collect(inbox, pos, size) == After(written, Collect(inbox, next, size - |written|))
        invariant clients == old(clients) && order == old(order) && sent == old(sent) && closed == old(closed)
        decreases |inbox| - next
      {
        if next == |inbox| {
          assert After(written, Collect(inbox, next, size - |written|)) == Received(written, next, false);
          return next, false;
        }
        var data := inbox[next];
        ghost var rest := Collect(inbox, next + 1, size - |written| - |data|);
        assert Collect(inbox, next, size - |written|) == After(data, rest);
        assert After(written, After(data, rest)) == After(written + data, rest);
        written := written + data;
        folder := base[name := written];
        next := next + 1;
      }
      assert After(written, Collect(inbox, next, size - |written|)) == Received(written, next, true);
      complete := true;
    }

    /**
      `receive_file_from_client`: the client is asked for the file with `<send_file>`, the
      file is written, and the client is told it arrived. When the read falls short the
      connection was reset, and the status send on it raises an OSError instead.
     */
    method ReceiveFileFromClient(sock: SockId, name: string, size: int, inbox: seq<string>, pos: nat) returns (next: nat, step: Step)
      requires sock in sent && pos <= |inbox|
      modifies this
      ensures var r := Collect(inbox, pos, size);
        && next == r.next
        && folder == old(folder)[name := r.data]
        && step == (if r.complete then Continue else Stop(Raise(OsError)))
        && sent == old(sent)[sock := old(sent[sock]) + [SEND_FILE + ARG_SEP + FileInfo(name, size)] + (if r.complete then [FILE_RECEIVED] else [])]
      ensures clients == old(clients) && order == old(order) && closed == old(closed)
    {
      SendMessage(sock, SEND_FILE + ARG_SEP + FileInfo(name, size));
      var complete;
      next, complete := WriteFile(name, size, inbox, pos);
      ghost var announced := old(sent[sock]) + [SEND_FILE + ARG_SEP + FileInfo(name, size)];
      assert sent == old(sent)[sock := announced];
      if complete {
        SendMessage(sock, FILE_RECEIVED);
        assert sent == old(sent)[sock := announced + [FILE_RECEIVED]];
        step := Continue;
      } else {
        assert announced + [] == announced;
        step := Stop(Raise(OsError));
      }
    }

    /**
      The forwarding step for a flag whose action sends a text, or for a flag outside the
      table, which does nothing.
     */
    method ForwardText(sock: SockId, flag: string, data: Payload) returns (step: Step)
      requires Valid() && sock in sent && Fits(flag, data)
      requires Forwarding(flag) !in {Some(SendFile), Some(ReceiveFile)}
      modifies this
      ensures Valid()
      ensures clients == old(clients) && order == old(order) && closed == old(closed)
      ensures folder == old(folder)
      ensures (sent, step) == AfterText(flag, data, sock, old(clients), old(order), old(sent))
    {
      step := Continue;
      match Forwarding(flag)
      case None =>
      case Some(SendToSelf) =>
        SendMessage(sock, data.text);
      case Some(PrivateRoute) =>
        var ok := CheckIfThereIsMessage(sock, data.text);
        if !ok {
          step := Stop(Raise(OtherError));
        }
      case Some(BroadcastRoute) =>
        CheckIfThereAreMoreThanOneClient(sock, data.text);
    }

    /**
      The forwarding step: the action the flag names, applied to the sender's socket and the
      data. A flag outside the table does nothing.
     */
    method Forward(sock: SockId, flag: string, data: Payload, inbox: seq<string>, pos: nat) returns (next: nat, step: Step)
      requires Valid() && sock in sent && pos <= |inbox| && Fits(flag, data)
      modifies this
      ensures Valid()
      ensures clients == old(clients) && order == old(order) && closed == old(closed)
      ensures (sent, folder, next, step) == AfterForward(flag, data, sock, old(clients), old(order), inbox, pos, old(sent), old(folder))
    {
      next := pos;
      match Forwarding(flag)
      case Some(SendFile) =>
        step := SendFileToClient(sock, data.name, data.size);
      case Some(ReceiveFile) =>
        next, step := ReceiveFileFromClient(sock, data.name, data.size, inbox, pos);
      case _ =>
        step := ForwardText(sock, flag, data);
    }

    /**
      `/exit` in `get_result`: the connection with the sender's port is closed and the loop
      breaks; when no client has that port the unpacking in `close_connection` raises.
     */
    method Exit(addr: Address) returns (step: Step)
      requires Valid()
      modifies this
      ensures Valid()
      ensures (clients, order, sent, closed, step) == AfterExit(addr, old(clients), old(order), old(sent), old(closed))
      ensures folder == old(folder)
      ensures addr in old(clients) && (forall b :: b in old(clients) && b.port == addr.port ==> b == addr) ==>
        && clients == old(clients) - {addr}
        && sent == old(sent[clients[addr] := sent[clients[addr]] + [CLOSE]])
        && closed == old(closed) + {old(clients)[addr]}
    {
      if addr in clients {
        assert addr in order;
        var i := FirstWithPort(order, addr.port).value;
        assert order[i] in clients;
      }
      var ok := CloseConnection(addr.port);
      step := if ok then Stop(Exited) else Stop(Raise(OtherError));
    }

    /**
      A command other than `/exit`: `check_if_the_method_exists` and the strategy give the
      instruction (or raise), and the forwarding table delivers it.
     */
    method Command(sock: SockId, port: int, key: string, args: Option<string>, inbox: seq<string>, pos: nat)
      returns (next: nat, step: Step)
      requires Valid() && sock in sent && pos <= |inbox| && key != EXIT
      modifies this
      ensures Valid()
      ensures pos <= next <= |inbox|
      ensures sent.Keys == old(sent).Keys
      ensures clients == old(clients) && order == old(order) && closed == old(closed)
      ensures (sent, folder, next, step) == AfterCommand(port, key, args, sock, old(clients), old(order), inbox, pos, old(sent), old(folder), listdir(old(folder)))
    {
      var (result, after) := Dispatch(port, key, args, folder, listdir(folder));
      DispatchFits(port, key, args, folder, listdir(folder));
      next, step := Deliver(sock, result, after, inbox, pos);
    }

    /** The instruction a strategy gave, or its exception, run against the folder it left. */
    method Deliver(sock: SockId, result: Result<Instruction>, after: Folder, inbox: seq<string>, pos: nat)
      returns (next: nat, step: Step)
      requires Valid() && sock in sent && pos <= |inbox|
      requires result.Ok? ==> Fits(result.value.flag, result.value.data)
      modifies this
      ensures Valid()
      ensures pos <= next <= |inbox|
      ensures sent.Keys == old(sent).Keys
      ensures clients == old(clients) && order == old(order) && closed == old(closed)
      ensures result.Err? ==> (sent, folder, next, step) == (old(sent), after, pos, Stop(Raise(result.error)))
      ensures result.Ok? ==>
        (sent, folder, next, step) == AfterForward(result.value.flag, result.value.data, sock, old(clients), old(order), inbox, pos, old(sent), after)
    {
      folder := after;
      if result.Err? {
        return pos, Stop(Raise(result.error));
      }
      next, step := Forward(sock, result.value.flag, result.value.data, inbox, pos);
    }

    /**
      The rest of one iteration of `loop_to_receive_data_from_clients` once `recv` has
      returned the envelope at `pos`: run `/exit` or the command it names.
     */
    method Serve(addr: Address, sock: SockId, inbox: seq<string>, pos: nat) returns (next: nat, step: Step)
      requires Valid() && sock in sent && pos < |inbox|
      modifies this
      ensures Valid()
      ensures (clients, order, sent, closed, folder, next, step)
           == AfterRequest(addr, sock, inbox, pos, old(clients), old(order), old(sent), old(closed), old(folder), listdir(old(folder)))
    {
      var (key, args) := Separate(inbox[pos]);
      if key == EXIT {
        step := Exit(addr);
        return pos + 1, step;
      }
      next, step := Command(sock, addr.port, key, args, inbox, pos + 1);
    }

    /**
      `loop_to_receive_data_from_clients`: serve requests until one stops the loop. Running
      out of input is a `recv` that raises ConnectionResetError, an OSError.
     */
    method LoopToReceiveDataFromClients(addr: Address, sock: SockId, inbox: seq<string>) returns (end: LoopEnd)
      requires Valid() && sock in sent
      requires forall a :: a in clients && clients[a] == sock ==> a == addr
      modifies this
      ensures Valid() && sock in sent
      ensures forall a :: a in clients && clients[a] == sock ==> a == addr
      ensures forall a :: a in clients ==> a in old(clients) && clients[a] == old(clients)[a]
      ensures (clients, order, sent, closed, folder, end)
           == Run(addr, sock, inbox, 0, old(clients), old(order), old(sent), old(closed), old(folder), listdir)
    {
      var pos := 0;
      while true
        invariant Valid() && sock in sent && pos <= |inbox|
        invariant forall a :: a in clients && clients[a] == sock ==> a == addr
        invariant forall a :: a in clients ==> a in old(clients) && clients[a] == old(clients)[a]
        invariant Run(addr, sock, inbox, pos, clients, order, sent, closed, folder, listdir)
               == Run(addr, sock, inbox, 0, old(clients), old(order), old(sent), old(closed), old(folder), listdir)
        decreases |inbox| - pos
      {
        if pos == |inbox| {
          return Raise(OsError);
        }
        var next, step := Serve(addr, sock, inbox, pos);
        if step.Stop? {
          return step.end;
        }
        pos := next;
      }
    }

    /**
      The `except` and `finally` clauses of `handle_client` once its loop has ended with
      `end`: an exception other than an OSError is answered with "There is something wrong
      in your request", then the address is removed and the socket closed. A send loop that
      never ends never gets here, so `Hung` leaves everything as it is.
     */
    method FinishConnection(addr: Address, sock: SockId, end: LoopEnd)
      requires Valid() && sock in sent
      requires forall a :: a in clients && clients[a] == sock ==> a == addr
      modifies this
      ensures Valid()
      ensures (clients, order, sent, closed, folder, end)
           == Teardown(addr, sock, (old(clients), old(order), old(sent), old(closed), old(folder), end))
    {
      if end == Hung {
        return;
      }
      if end == Raise(OtherError) {
        SendMessage(sock, SOMETHING_WRONG);
      }
      RemoveClientFromTheList(addr);
      closed := closed + {sock};
    }

    /**
      `handle_client`: run the receive loop over the connection's input, then tear the
      connection down as `FinishConnection` does.
     */
    method HandleClient(addr: Address, sock: SockId, inbox: seq<string>) returns (end: LoopEnd)
      requires Valid() && addr in clients && clients[addr] == sock
      modifies this
      ensures Valid()
      ensures end != Hung ==> addr !in clients && sock in closed
      ensures end == Raise(OtherError) ==> sock in sent && |sent[sock]| > 0 && sent[sock][|sent[sock]| - 1] == SOMETHING_WRONG
      ensures forall a :: a in clients ==> a in old(clients) && clients[a] == old(clients)[a]
      ensures (clients, order, sent, closed, folder, end)
           == AfterConnection(addr, sock, inbox, old(clients), old(order), old(sent), old(closed), old(folder), listdir)
    {
      end := LoopToReceiveDataFromClients(addr, sock, inbox);
      FinishConnection(addr, sock, end);
    }
  }
}
