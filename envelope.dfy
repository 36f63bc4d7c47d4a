/**
  The wire envelope `TAG[:payload]` and the file descriptor `name||size`.
  Both endpoints split an incoming envelope at its first `:`; a file descriptor
  is split at `||` by the server (every occurrence, expecting exactly two pieces)
  and by the client (first occurrence only).
 */
module Envelope {
  import opened Wrappers
  import opened Text

  const ARG_SEP := ":"
  const SIZE_SEP := "||"

  /**
    `separate_function_from_arguments` (server) and `separating_function_from_arguments`
    (client): the key before the first `:` and the rest, or the whole string and None.
   */
  function Separate(s: string): (r: (string, Option<string>))
    ensures ':' !in r.0
    ensures r.1.Some? ==> s == r.0 + ARG_SEP + r.1.value
    ensures r.1.None? ==> s == r.0
  {
    match SplitFirst(s, ARG_SEP)
    case None =>
      ContainsChar(s, ':');
      (s, None)
    case Some((key, args)) =>
      ContainsChar(key, ':');
      (key, Some(args))
  }

  /** The key of an envelope that does not open with `:` is non-empty and opens with the envelope's first character. */
  lemma SeparateHead(s: string)
    requires |s| > 0 && s[0] != ':'
    ensures |Separate(s).0| > 0 && Separate(s).0[0] == s[0]
  {
    var (key, args) := Separate(s);
    if args.Some? {
      assert s == key + ARG_SEP + args.value;
    }
  }

  /** The envelope a sender writes: the tag, then `:` and the payload when there is one. */
  function Encode(tag: string, payload: Option<string>): string
  {
    match payload
    case None => tag
    case Some(p) => tag + ARG_SEP + p
  }

  /** Splitting an encoded envelope gives back its tag and payload, for every tag without `:`. */
  lemma SeparateEncode(tag: string, payload: Option<string>)
    requires ':' !in tag
    ensures Separate(Encode(tag, payload)) == (tag, payload)
  {
    match payload
    case None =>
      LacksFirstChar(tag, ARG_SEP);
    case Some(p) =>
      FindAfterFreshChar(tag, ARG_SEP, p);
      var s := tag + ARG_SEP + p;
      assert s[..|tag|] == tag && s[|tag| + 1..] == p;
  }

  /** The head of every reply the server writes to one client on its own behalf. */
  const SERVER_REPLY := "<single>:SERVER: "

  /** A server reply separates into the `<single>` tag and the text after it. */
  lemma SeparateServerReply(text: string)
    ensures Separate(SERVER_REPLY + text) == ("<single>", Some("SERVER: " + text))
  {
    assert SERVER_REPLY + text == "<single>" + ARG_SEP + ("SERVER: " + text);
    SeparateEncode("<single>", Some("SERVER: " + text));
  }

  /** The descriptor `name||size` sent in `<confirm>`, `<send_file>`, `<conf>` and `<file_inf>`. */
  function FileInfo(name: string, size: int): string
  {
    name + SIZE_SEP + IntToString(size)
  }

  /**
    `separete_file_infomation` on the server: split on every `||`, demand exactly two
    pieces and an integer size. None stands for the exception it raises (ValueError on a
    wrong piece count or size, AttributeError when there is no payload at all).
   */
  function SeparateFileInformation(payload: Option<string>): (r: Option<(string, int)>)
    ensures r.Some? ==> payload.Some? && !Contains(r.value.0, SIZE_SEP)
    ensures r.Some? ==> |r.value.0| + 2 <= |payload.value|
    ensures r.Some? ==> payload.value[..|r.value.0|] == r.value.0
    ensures r.Some? ==> OccursAt(payload.value, SIZE_SEP, |r.value.0|)
    ensures r.Some? ==> ParseInt(payload.value[|r.value.0| + 2..]) == Some(r.value.1)
    ensures r.Some? ==> !Contains(payload.value[|r.value.0| + 2..], SIZE_SEP)
  {
    match payload
    case None => None
    case Some(s) =>
      var parts := SplitAll(s, SIZE_SEP);
      if |parts| != 2 then None
      else
        SplitAllTwo(s);
        match ParseInt(parts[1])
        case None => None
        case Some(size) => Some((parts[0], size))
  }

  /** Two pieces from `split('||')` mean exactly one separator, with the pieces around it. */
  lemma SplitAllTwo(s: string)
    requires |SplitAll(s, SIZE_SEP)| == 2
    ensures var parts := SplitAll(s, SIZE_SEP);
      && s == parts[0] + SIZE_SEP + parts[1]
      && !Contains(parts[0], SIZE_SEP) && !Contains(parts[1], SIZE_SEP)
  {
    var parts := SplitAll(s, SIZE_SEP);
    assert Find(s, SIZE_SEP).Some?;
    var i := Find(s, SIZE_SEP).value;
    var tail := s[i + 2..];
    assert parts == [s[..i]] + SplitAll(tail, SIZE_SEP);
    assert |SplitAll(tail, SIZE_SEP)| == 1;
    assert Find(tail, SIZE_SEP).None?;
    assert parts[0] == s[..i] && parts[1] == tail;
    var split := SplitFirst(s, SIZE_SEP);
    assert split == Some((s[..i], tail));
  }

  /**
    The client's `split('||', 1)` and `int(...)` in `confirm_receiving_file` and
    `prepare_information_to_send_file`; None stands for the ValueError they raise.
   */
  function SplitFileInfo(payload: string): (r: Option<(string, int)>)
    ensures r.None? <==> SplitFirst(payload, SIZE_SEP).None? || ParseInt(SplitFirst(payload, SIZE_SEP).value.1).None?
    ensures r.Some? ==> !Contains(r.value.0, SIZE_SEP)
    ensures r.Some? ==> |r.value.0| + 2 <= |payload| && payload[..|r.value.0|] == r.value.0
    ensures r.Some? ==> OccursAt(payload, SIZE_SEP, |r.value.0|)
    ensures r.Some? ==> ParseInt(payload[|r.value.0| + 2..]) == Some(r.value.1)
  {
    match SplitFirst(payload, SIZE_SEP)
    case None => None
    case Some((name, size)) =>
      assert payload[..|name|] == name && payload[|name| + 2..] == size;
      assert payload[|name|..|name| + 2] == SIZE_SEP;
      match ParseInt(size)
      case None => None
      case Some(n) => Some((name, n))
  }

  /**
    A file name that `name||size` carries unambiguously: it holds no `||` and does not end
    in a bar, so the first `||` of the descriptor is the one written after it.
   */
  predicate PlainName(name: string)
  {
    !Contains(name, SIZE_SEP) && (name == [] || name[|name| - 1] != '|')
  }

  /** In `name||rest` with a plain name, the first `||` is the one right after the name. */
  lemma FindAfterPlainName(name: string, rest: string)
    requires PlainName(name)
    ensures Find(name + SIZE_SEP + rest, SIZE_SEP) == Some(|name|)
  {
    var t := name + SIZE_SEP + rest;
    assert t[|name|..|name| + 2] == SIZE_SEP;
    assert OccursAt(t, SIZE_SEP, |name|);
    forall j | 0 <= j < |name|
      ensures !OccursAt(t, SIZE_SEP, j)
    {
      if j + 2 <= |name| {
        assert t[j..j + 2] == name[j..j + 2];
        assert !OccursAt(name, SIZE_SEP, j);
      } else {
        assert t[j] == name[|name| - 1];
      }
    }
  }

  /** A rendered integer holds no bar, so `||` cannot occur in it. */
  lemma SizeHasNoBar(size: int)
    ensures '|' !in IntToString(size)
    ensures !Contains(IntToString(size), SIZE_SEP)
  {
    LacksFirstChar(IntToString(size), SIZE_SEP);
  }

  /**
    Conversely, a payload `name||t` with a plain name and no further `||` parses
    exactly when `t` is an integer, and then gives back the name and that integer.
   */
  lemma SeparateFileInformationOfPieces(name: string, t: string)
    requires PlainName(name) && !Contains(t, SIZE_SEP)
    ensures SeparateFileInformation(Some(name + SIZE_SEP + t))
         == if ParseInt(t).Some? then Some((name, ParseInt(t).value)) else None
  {
    var s := name + SIZE_SEP + t;
    FindAfterPlainName(name, t);
    assert s[..|name|] == name && s[|name| + 2..] == t;
    assert Find(t, SIZE_SEP).None?;
    assert SplitAll(s, SIZE_SEP) == [name, t];
  }

  /** A payload without `||` never parses. */
  lemma SeparateFileInformationWithoutBars(s: string)
    requires !Contains(s, SIZE_SEP)
    ensures SeparateFileInformation(Some(s)).None?
  {
    assert SplitAll(s, SIZE_SEP) == [s];
  }

  /** The server reads back the descriptor it (or the client) wrote, for plain names. */
  lemma SeparateFileInformationOfFileInfo(name: string, size: int)
    requires PlainName(name)
    ensures SeparateFileInformation(Some(FileInfo(name, size))) == Some((name, size))
  {
    SizeHasNoBar(size);
    SeparateFileInformationOfPieces(name, IntToString(size));
    ParseIntToString(size);
  }

  /** The client reads back a descriptor, for plain names. */
  lemma SplitFileInfoOfFileInfo(name: string, size: int)
    requires PlainName(name)
    ensures SplitFileInfo(FileInfo(name, size)) == Some((name, size))
  {
    var digits := IntToString(size);
    var s := FileInfo(name, size);
    FindAfterPlainName(name, digits);
    assert s[..|name|] == name && s[|name| + 2..] == digits;
    ParseIntToString(size);
  }
}
