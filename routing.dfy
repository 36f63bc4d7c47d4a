/**
  The pure side of the server's routing: connection identities, the first registered
  address with a given port (the registry is a dict, iterated in insertion order), and
  how a private message is formatted and then resolved to one recipient.
 */
module Routing {
  import opened Wrappers
  import opened Text

  /** A socket, known only by an identity. */
  type SockId = nat

  /** The (host, port) pair the transport assigns; the port serves as the client ID. */
  datatype Address = Address(host: string, port: int)

  /** Index of the first address in `order` with the given port. */
  function FirstWithPort(order: seq<Address>, port: int): (r: Option<nat>)
    ensures r.Some? ==> r.value < |order| && order[r.value].port == port
    ensures r.Some? ==> forall j :: 0 <= j < r.value ==> order[j].port != port
    ensures r.None? ==> forall j :: 0 <= j < |order| ==> order[j].port != port
    decreases |order|
  {
    if order == [] then None
    else if order[0].port == port then Some(0)
    else
      match FirstWithPort(order[1..], port)
      case None => None
      case Some(k) => Some(k + 1)
  }

  /** `order` with `a` taken out; the other addresses keep their relative order. */
  function Without(order: seq<Address>, a: Address): (r: seq<Address>)
    ensures forall x :: x in r <==> x in order && x != a
    ensures (forall i, j :: 0 <= i < j < |order| ==> order[i] != order[j]) ==>
              (forall i, j :: 0 <= i < j < |r| ==> r[i] != r[j])
    decreases |order|
  {
    if order == [] then []
    else
      var rest := Without(order[1..], a);
      assert forall x :: x in order[1..] ==> x in order;
      if order[0] == a then rest
      else
        assert (forall i, j :: 0 <= i < j < |order| ==> order[i] != order[j]) ==> order[0] !in order[1..];
        [order[0]] + rest
  }

  /** Taking out an address that is not registered leaves the order as it is. */
  lemma {:induction false} WithoutAbsent(order: seq<Address>, a: Address)
    requires a !in order
    ensures Without(order, a) == order
    decreases |order|
  {
    if order != [] {
      assert order[0] != a;
      WithoutAbsent(order[1..], a);
      assert order == [order[0]] + order[1..];
    }
  }

  /**
    Taking out an address registered once keeps the addresses before it and after it, in
    their order: the dict's insertion order survives a deletion.
   */
  lemma {:induction false} WithoutSplit(before: seq<Address>, a: Address, after: seq<Address>)
    requires a !in before && a !in after
    ensures Without(before + [a] + after, a) == before + after
    decreases |before|
  {
    var order := before + [a] + after;
    if before == [] {
      assert order[0] == a && order[1..] == after;
      WithoutAbsent(after, a);
    } else {
      assert order[0] == before[0] != a;
      assert order[1..] == before[1..] + [a] + after;
      WithoutSplit(before[1..], a, after);
      assert before + after == [before[0]] + (before[1..] + after);
    }
  }

  const SINGLE := "<single>"
  const ID_OR_MESSAGE_EMPTY := "<single>:SERVER: Client ID or message is empty"
  const EMPTY_MESSAGE := "<single>:SERVER: Empty messages can not be sent"
  const ID_INVALID := "<single>:SERVER: User ID invalid"
  const NOT_LOGGED := "<single>:SERVER: The client is not logged now"

  /**
    `prepare_private_message`: `T:text` becomes `T:<single>:(P)> text`; an argument without
    `:` (or no argument) becomes `P:` followed by the "Client ID or message is empty" reply,
    addressed back to the sender's own port P.
   */
  function PreparePrivateMessage(port: int, arg: Option<string>): string
  {
    match arg
    case None => IntToString(port) + ":" + ID_OR_MESSAGE_EMPTY
    case Some(a) =>
      match SplitFirst(a, ":")
      case None => IntToString(port) + ":" + ID_OR_MESSAGE_EMPTY
      case Some((target, text)) => target + ":" + PrivateText(port, text)
  }

  /** `prepare_broadcast_message`: `<single>:(P)BROAD> text`, with Python's "None" when there is no text. */
  function PrepareBroadcastMessage(port: int, arg: Option<string>): string
  {
    SINGLE + ":(" + IntToString(port) + ")BROAD> " + OptionText(arg)
  }

  /**
    Where `check_if_there_is_message` and the two checks after it send a prepared private
    message, and what they send: the socket and the text. None stands for the ValueError
    raised when the payload has no `:`.
   */
  function PrivateDelivery(order: seq<Address>, clients: map<Address, SockId>, issuer: SockId, payload: string): (r: Option<(SockId, string)>)
    requires forall i :: 0 <= i < |order| ==> order[i] in clients
    ensures r.None? <==> SplitFirst(payload, ":").None?
    ensures r.Some? ==> r.value.0 == issuer || r.value.0 in clients.Values
    ensures r.Some? ==> var message := SplitFirst(payload, ":").value.1;
      && (message == "" ==> r.value == (issuer, EMPTY_MESSAGE))
      && (message != "" ==> r.value.1 == message || r.value == (issuer, ID_INVALID) || r.value == (issuer, NOT_LOGGED))
  {
    match SplitFirst(payload, ":")
    case None => None
    case Some((target, message)) =>
      if message == "" then Some((issuer, EMPTY_MESSAGE))
      else
        match ParseInt(target)
        case None => Some((issuer, ID_INVALID))
        case Some(port) =>
          match FirstWithPort(order, port)
          case None => Some((issuer, NOT_LOGGED))
          case Some(i) => Some((clients[order[i]], message))
  }

  /** The text a private message carries: `<single>:(P)> text`. */
  function PrivateText(port: int, text: string): (r: string)
    ensures |r| > |SINGLE| + 1 && r[..|SINGLE|] == SINGLE && r[|SINGLE|] == ':' && r[|SINGLE| + 1] == '('
  {
    SINGLE + ":(" + IntToString(port) + ")> " + text
  }

  /** A rendered port holds no `:`. */
  lemma PortHasNoColon(port: int)
    ensures ':' !in IntToString(port)
  {
  }

  /** Every prepared private message is split into its target and a non-empty text. */
  lemma PreparedPrivateSplits(port: int, arg: Option<string>)
    ensures var p := SplitFirst(PreparePrivateMessage(port, arg), ":");
      p.Some? && (p.value.1 == ID_OR_MESSAGE_EMPTY || (|p.value.1| > |SINGLE| + 1 && p.value.1[|SINGLE| + 1] == '('))
  {
    var own := IntToString(port);
    PortHasNoColon(port);
    match arg
    case None =>
      SplitFirstAtFresh(own, ":", ID_OR_MESSAGE_EMPTY);
    case Some(a) =>
      match SplitFirst(a, ":")
      case None =>
        SplitFirstAtFresh(own, ":", ID_OR_MESSAGE_EMPTY);
      case Some((target, text)) =>
        ContainsChar(target, ':');
        assert PreparePrivateMessage(port, arg) == target + ":" + PrivateText(port, text);
        SplitFirstAtFresh(target, ":", PrivateText(port, text));
  }

  /**
    The "Empty messages can not be sent" reply can never come out of a private message the
    server prepared: the formatted text always starts with `<single>:(P)> ` or is the
    "Client ID or message is empty" reply, so the emptiness check never sees an empty text,
    and the payload always has a `:`, so routing never raises.
   */
  lemma PreparedPrivateNeverEmpty(order: seq<Address>, clients: map<Address, SockId>, issuer: SockId, port: int, arg: Option<string>)
    requires forall i :: 0 <= i < |order| ==> order[i] in clients
    ensures var d := PrivateDelivery(order, clients, issuer, PreparePrivateMessage(port, arg));
      d.Some? && d.value.1 != EMPTY_MESSAGE
  {
    PreparedPrivateSplits(port, arg);
    RepliesDiffer();
  }

  /** The four routing replies are distinct, and the empty-message one has no `(` after its tag. */
  lemma RepliesDiffer()
    ensures |EMPTY_MESSAGE| > |SINGLE| + 1 && EMPTY_MESSAGE[|SINGLE| + 1] != '('
    ensures EMPTY_MESSAGE != ID_OR_MESSAGE_EMPTY && EMPTY_MESSAGE != ID_INVALID && EMPTY_MESSAGE != NOT_LOGGED
  {
    assert |EMPTY_MESSAGE| > 17 && EMPTY_MESSAGE[|SINGLE| + 1] == 'S' && EMPTY_MESSAGE[17] == 'E';
    assert |ID_OR_MESSAGE_EMPTY| > 17 && ID_OR_MESSAGE_EMPTY[17] == 'C';
    assert |ID_INVALID| > 17 && ID_INVALID[17] == 'U';
    assert |NOT_LOGGED| > 17 && NOT_LOGGED[17] == 'T';
  }

  /** How the three outcomes of `/msg:T:text` are told apart, once T holds no `:`. */
  lemma PrivateMessageSplits(port: int, target: string, text: string)
    requires ':' !in target
    ensures SplitFirst(PreparePrivateMessage(port, Some(target + ":" + text)), ":") == Some((target, PrivateText(port, text)))
  {
    SplitFirstAtFresh(target, ":", text);
    assert PreparePrivateMessage(port, Some(target + ":" + text)) == target + ":" + PrivateText(port, text);
    SplitFirstAtFresh(target, ":", PrivateText(port, text));
  }

  /**
    `/msg:T:text` from port P reaches the first registered client whose port is `int(T)`,
    as `<single>:(P)> text`; nobody else receives anything.
   */
  lemma PrivateMessageReachesTarget(order: seq<Address>, clients: map<Address, SockId>, issuer: SockId,
                                    port: int, target: string, text: string, i: nat)
    requires forall k :: 0 <= k < |order| ==> order[k] in clients
    requires ':' !in target && ParseInt(target).Some?
    requires FirstWithPort(order, ParseInt(target).value) == Some(i)
    ensures PrivateDelivery(order, clients, issuer, PreparePrivateMessage(port, Some(target + ":" + text)))
         == Some((clients[order[i]], PrivateText(port, text)))
  {
    PrivateMessageSplits(port, target, text);
  }

  /** `/msg:T:text` to a port nobody holds comes back to the sender as "The client is not logged now". */
  lemma PrivateMessageToAbsentTarget(order: seq<Address>, clients: map<Address, SockId>, issuer: SockId,
                                     port: int, target: string, text: string)
    requires forall k :: 0 <= k < |order| ==> order[k] in clients
    requires ':' !in target && ParseInt(target).Some?
    requires FirstWithPort(order, ParseInt(target).value).None?
    ensures PrivateDelivery(order, clients, issuer, PreparePrivateMessage(port, Some(target + ":" + text)))
         == Some((issuer, NOT_LOGGED))
  {
    PrivateMessageSplits(port, target, text);
  }

  /** `/msg:T:text` with a T that is not an integer comes back to the sender as "User ID invalid". */
  lemma PrivateMessageToInvalidId(order: seq<Address>, clients: map<Address, SockId>, issuer: SockId,
                                  port: int, target: string, text: string)
    requires forall k :: 0 <= k < |order| ==> order[k] in clients
    requires ':' !in target && ParseInt(target).None?
    ensures PrivateDelivery(order, clients, issuer, PreparePrivateMessage(port, Some(target + ":" + text)))
         == Some((issuer, ID_INVALID))
  {
    PrivateMessageSplits(port, target, text);
  }

  /**
    `/msg` with no `:` in its argument is addressed back to the sender's own port P,
    carrying "Client ID or message is empty".
   */
  lemma PrivateMessageWithoutTarget(port: int, arg: Option<string>)
    requires arg.None? || ':' !in arg.value
    ensures SplitFirst(PreparePrivateMessage(port, arg), ":") == Some((IntToString(port), ID_OR_MESSAGE_EMPTY))
  {
    if arg.Some? {
      ContainsChar(arg.value, ':');
    }
    PortHasNoColon(port);
    SplitFirstAtFresh(IntToString(port), ":", ID_OR_MESSAGE_EMPTY);
  }
}
