/**
  The byte-count framing of a file transfer. A sender reads its file 1024 bytes at a time
  and writes each piece until the count reaches the declared size; a receiver calls
  `recv(1024)` and appends each piece until the count reaches the declared size. Nothing
  else delimits the file on the wire.
 */
module Transfer {

  /** A directory: file name to file content. */
  type Folder = map<string, string>

  const CHUNK_SIZE := 1024

  /** The bytes carried by a sequence of pieces, in order. */
  function Concat(chunks: seq<string>): string
  {
    if chunks == [] then "" else chunks[0] + Concat(chunks[1..])
  }

  lemma {:induction false} ConcatAppend(a: seq<string>, b: seq<string>)
    ensures Concat(a + b) == Concat(a) + Concat(b)
    decreases |a|
  {
    if a == [] {
      assert a + b == b;
    } else {
      assert (a + b)[0] == a[0] && (a + b)[1..] == a[1..] + b;
      ConcatAppend(a[1..], b);
    }
  }

  /**
    The pieces a send loop writes when it has already sent `sent` bytes of `content` and
    must reach `size`: each piece is what `read(1024)` returns at that offset. The loop
    ends only because `size <= |content|`; with a shorter file `read` returns empty
    pieces and the count never reaches the size.
   */
  function ChunksFrom(content: string, size: int, sent: nat): seq<string>
    requires sent <= |content| && size <= |content|
    decreases |content| - sent
  {
    if sent >= size then []
    else
      var end := if sent + CHUNK_SIZE <= |content| then sent + CHUNK_SIZE else |content|;
      [content[sent..end]] + ChunksFrom(content, size, end)
  }

  /**
    What the send loop writes from offset `sent`: non-empty pieces of at most 1024 bytes
    that are, in order, the bytes of `content` from `sent` on, stopping at the first piece
    boundary at or past `size`.
   */
  lemma ChunksFromMeaning(content: string, size: int, sent: nat)
    requires sent <= |content| && size <= |content|
    ensures var chunks := ChunksFrom(content, size, sent);
      && (forall i :: 0 <= i < |chunks| ==> 0 < |chunks[i]| <= CHUNK_SIZE)
      && sent + |Concat(chunks)| <= |content|
      && Concat(chunks) == content[sent..sent + |Concat(chunks)|]
      && (sent < size ==> size <= sent + |Concat(chunks)| < size + CHUNK_SIZE)
  {
    ChunkSizes(content, size, sent);
    ChunksCover(content, size, sent);
  }

  /** Every piece the send loop writes is non-empty and at most 1024 bytes long. */
  lemma {:induction false} ChunkSizes(content: string, size: int, sent: nat)
    requires sent <= |content| && size <= |content|
    ensures forall i :: 0 <= i < |ChunksFrom(content, size, sent)| ==>
      0 < |ChunksFrom(content, size, sent)[i]| <= CHUNK_SIZE
    decreases |content| - sent
  {
    if sent < size {
      var end := if sent + CHUNK_SIZE <= |content| then sent + CHUNK_SIZE else |content|;
      var rest := ChunksFrom(content, size, end);
      var chunks := [content[sent..end]] + rest;
      assert chunks == ChunksFrom(content, size, sent);
      ChunkSizes(content, size, end);
      forall i | 0 <= i < |chunks|
        ensures 0 < |chunks[i]| <= CHUNK_SIZE
      {
        if i == 0 {
          assert chunks[0] == content[sent..end];
        } else {
          assert chunks[i] == rest[i - 1];
          assert 0 < |rest[i - 1]| <= CHUNK_SIZE;
        }
      }
    }
  }

  /**
    The pieces carry, in order, the bytes of `content` from `sent` on, and stop at the
    first piece boundary at or past `size`.
   */
  lemma {:induction false} ChunksCover(content: string, size: int, sent: nat)
    requires sent <= |content| && size <= |content|
    ensures var chunks := ChunksFrom(content, size, sent);
      && sent + |Concat(chunks)| <= |content|
      && Concat(chunks) == content[sent..sent + |Concat(chunks)|]
      && (sent < size ==> size <= sent + |Concat(chunks)| < size + CHUNK_SIZE)
    decreases |content| - sent
  {
    if sent < size {
      var end := if sent + CHUNK_SIZE <= |content| then sent + CHUNK_SIZE else |content|;
      var rest := ChunksFrom(content, size, end);
      var chunks := [content[sent..end]] + rest;
      ChunksCover(content, size, end);
      assert chunks[1..] == rest;
      assert Concat(chunks) == content[sent..end] + Concat(rest);
      assert content[sent..end] + content[end..end + |Concat(rest)|]
          == content[sent..end + |Concat(rest)|];
    }
  }

  /** One turn of a send loop: the next chunk is sent, and what is left is the rest from after it. */
  lemma ChunkStep(content: string, size: int, sent: nat, end: nat)
    requires sent < size <= |content|
    requires end == if sent + CHUNK_SIZE <= |content| then sent + CHUNK_SIZE else |content|
    ensures sent < end <= |content|
    ensures ChunksFrom(content, size, sent) == [content[sent..end]] + ChunksFrom(content, size, end)
  {
  }

  /** Everything a send loop writes for a file of `content` declared with `size`. */
  function FileChunks(content: string, size: int): seq<string>
    requires size <= |content|
  {
    ChunksFrom(content, size, 0)
  }

  /** A send loop writes something exactly when the declared size is positive: a size of 0 sends nothing. */
  lemma NothingToSend(content: string, size: int)
    requires size <= |content|
    ensures FileChunks(content, size) == [] <==> size <= 0
  {
  }

  /** What a receive loop has collected: the bytes, where it stopped, and whether the count was reached. */
  datatype Received = Received(data: string, next: nat, complete: bool)

  /** What a receive loop collects once `written` is already in the file. */
  function After(written: string, r: Received): Received
  {
    Received(written + r.data, r.next, r.complete)
  }

  /**
    A receive loop that still needs `need` bytes and whose next `recv` returns
    `inbox[pos]`. Running out of pieces is a `recv` that raises (the peer reset the
    connection), so the transfer is incomplete.
   */
  function Collect(inbox: seq<string>, pos: nat, need: int): (r: Received)
    requires pos <= |inbox|
    ensures pos <= r.next <= |inbox|
    decreases |inbox| - pos
  {
    if need <= 0 then Received("", pos, true)
    else if pos == |inbox| then Received("", pos, false)
    else After(inbox[pos], Collect(inbox, pos + 1, need - |inbox[pos]|))
  }

  /**
    What a receive loop collects: exactly the pieces it consumed, in order; when it completes
    it has at least `need` bytes and the last piece was needed (without it the count was
    short); when it does not, it consumed every piece and is still short.
   */
  lemma {:induction false} CollectMeaning(inbox: seq<string>, pos: nat, need: int)
    requires pos <= |inbox|
    ensures var r := Collect(inbox, pos, need);
      && r.data == Concat(inbox[pos..r.next])
      && (r.complete ==> need <= |r.data|)
      && (r.complete && pos < r.next ==> |Concat(inbox[pos..r.next - 1])| < need)
      && (!r.complete ==> r.next == |inbox| && |r.data| < need)
    decreases |inbox| - pos
  {
    if need > 0 && pos < |inbox| {
      var r := Collect(inbox, pos + 1, need - |inbox[pos]|);
      CollectMeaning(inbox, pos + 1, need - |inbox[pos]|);
      assert inbox[pos..r.next] == [inbox[pos]] + inbox[pos + 1..r.next];
      assert r.next > pos + 1 ==> inbox[pos..r.next - 1] == [inbox[pos]] + inbox[pos + 1..r.next - 1];
    }
  }

  /**
    A receiver that needs exactly the bytes of `k` non-empty pieces takes those pieces
    and no more: it stops right after them, whatever follows.
   */
  lemma {:induction false} CollectExact(inbox: seq<string>, pos: nat, k: nat)
    requires pos + k <= |inbox|
    requires forall i :: pos <= i < pos + k ==> inbox[i] != ""
    ensures Collect(inbox, pos, |Concat(inbox[pos..pos + k])|)
         == Received(Concat(inbox[pos..pos + k]), pos + k, true)
    decreases k
  {
    if k > 0 {
      assert inbox[pos..pos + k] == [inbox[pos]] + inbox[pos + 1..pos + k];
      assert inbox[pos + 1..pos + k] == inbox[pos + 1..pos + 1 + (k - 1)];
      CollectExact(inbox, pos + 1, k - 1);
    }
  }

  /**
    A file sent with its own length as the declared size arrives whole and exactly: the
    receiver's loop consumes every piece the sender wrote and stops, leaving whatever
    follows on the connection untouched.
   */
  lemma FileArrivesExactly(content: string, after: seq<string>)
    ensures var sent := FileChunks(content, |content|);
      Collect(sent + after, 0, |content|) == Received(content, |sent|, true)
  {
    var sent := FileChunks(content, |content|);
    ChunksFromMeaning(content, |content|, 0);
    var inbox := sent + after;
    assert inbox[0..|sent|] == sent;
    CollectExact(inbox, 0, |sent|);
  }
}
