/** Cutting a TCP stream into chunks of whole lines (receiver/tcp.go), and a chunk into lines
    (receiver/plain.go). */
module TcpFraming {
  import opened ByteArrays
  import opened ByteStrings

  const CHUNK_SIZE := 262144

  /** The longest prefix that ends in a newline. */
  function Complete(s: bytes): bytes
  {
    s[..LastIndexByte(s, NEWLINE) + 1]
  }

  ghost predicate WholeLines(s: bytes)
  {
    s == [] || s[|s| - 1] == NEWLINE
  }

  /** No line, with its newline, is longer than a buffer. */
  ghost predicate LinesFit(s: bytes)
  {
    forall i, j | 0 <= i <= j <= |s| && Unbroken(s, i, j) :: j - i <= 262144
  }

  /** Within one line: at most the last byte is a newline. */
  ghost predicate Unbroken(s: bytes, i: nat, j: nat)
    requires i <= j <= |s|
  {
    i < j ==> Free(s, NEWLINE, i, j - 1)
  }

  lemma CompleteOf(a: bytes, u: bytes)
    requires WholeLines(a) && NEWLINE !in u
    ensures Complete(a + u) == a
  {
    var s := a + u;
    if a == [] {
      LastIndexByteFinds(s, NEWLINE);
    } else {
      LastIndexByteUnique(s, NEWLINE, |a| - 1);
    }
  }

  class LineBuffer {
    const body: array<byte>
    var used: nat

    ghost predicate Valid()
      reads this
    {
      body.Length == CHUNK_SIZE && used <= CHUNK_SIZE
    }

    ghost function Contents(): bytes
      reads this, body
      requires Valid()
    {
      body[..used]
    }

    constructor ()
      ensures Valid() && fresh(body) && Contents() == []
    {
      body := new byte[CHUNK_SIZE];
      used := 0;
    }

    /** `conn.Read(buffer.Body[buffer.Used:])`: the network hands over `n` bytes, if there is room for
        them. */
    method Read(rest: bytes, n: nat) returns (k: nat)
      requires Valid()
      modifies this`used, body
      ensures Valid() && k <= n && k <= |rest| && Contents() == old(Contents()) + rest[..k]
      ensures k > 0 || n == 0 || rest == [] || old(used) == CHUNK_SIZE
    {
      k := if n <= |rest| then n else |rest|;
      if k > CHUNK_SIZE - used {
        k := CHUNK_SIZE - used;
      }
      CopyInto(body, used, rest[..k]);
      assert body[..used] == old(body[..used]);
      assert body[..used + k] == body[..used] + body[used..used + k];
      used := used + k;
    }

    /** The unfinished line goes to the new buffer. */
    method TakeUnfinished(from: LineBuffer, chunkSize: nat)
      requires Valid() && from.Valid() && from != this && from.body != body && used == 0 && chunkSize < from.used
      modifies this`used, body, from`used
      ensures Valid() && from.Valid()
      ensures Contents() == old(from.Contents())[chunkSize..] && from.Contents() == old(from.Contents())[..chunkSize]
    {
      ghost var was := from.Contents();
      CopyInto(body, 0, from.body[chunkSize..from.used]);
      used := from.used - chunkSize;
      from.used := chunkSize;
      assert from.body[..from.used] == was[..chunkSize];
    }
  }

  /** What is whole is cut off as a chunk, if there is anything; what is not stays, or moves to a new
      buffer. */
  method CutChunk(buffer: LineBuffer) returns (next: LineBuffer, chunk: bytes)
    requires buffer.Valid()
    modifies buffer
    ensures next.Valid() && (next == buffer || (fresh(next) && fresh(next.body)))
    ensures chunk + next.Contents() == old(buffer.Contents()) && NEWLINE !in next.Contents()
    ensures WholeLines(chunk) && |chunk| <= CHUNK_SIZE
  {
    ghost var all := buffer.Contents();
    LastIndexByteFinds(all, NEWLINE);
    hide LastIndexByte;
    var chunkSize := LastIndexByte(buffer.body[..buffer.used], NEWLINE) + 1;
    next, chunk := buffer, [];
    if chunkSize > 0 {
      next := new LineBuffer();
      if chunkSize < buffer.used {
        next.TakeUnfinished(buffer, chunkSize);
      }
      chunk := buffer.body[..buffer.used];
      assert chunk == all[..chunkSize] && next.Contents() == all[chunkSize..];
    } else {
      assert [] + all == all;
    }
  }

  /** A full buffer without a newline, with more to come, is a line that is too long. */
  lemma FullBufferIsLongLine(stream: bytes, consumed: nat, held: bytes, before: bytes)
    requires consumed < |stream| && before + held == stream[..consumed] && NEWLINE !in held && |held| == CHUNK_SIZE
    ensures !LinesFit(stream)
  {
    var i := consumed - CHUNK_SIZE;
    forall k | i <= k < consumed
      ensures stream[k] != NEWLINE
    {
      assert stream[k] == (before + held)[k] == held[k - i];
      assert held[k - i] in held;
    }
    assert Unbroken(stream, i, consumed + 1);
  }

  lemma ChunkThenFit(c: bytes, rest: bytes)
    requires WholeLines(c) && |c| <= CHUNK_SIZE && LinesFit(rest)
    ensures LinesFit(c + rest)
  {
    var s := c + rest;
    assert c != [] ==> s[|c| - 1] == NEWLINE;
    forall i, j | 0 <= i <= j <= |s| && Unbroken(s, i, j)
      ensures j - i <= CHUNK_SIZE
    {
      if i >= |c| {
        assert forall k | i - |c| <= k < j - |c| - 1 :: rest[k] == s[k + |c|] != NEWLINE;
        assert Unbroken(rest, i - |c|, j - |c|);
      }
    }
  }

  lemma {:induction false} ChunksFit(chunks: seq<bytes>, held: bytes)
    requires |held| <= CHUNK_SIZE && forall c | c in chunks :: WholeLines(c) && |c| <= CHUNK_SIZE
    ensures LinesFit(Concat(chunks) + held)
  {
    hide WholeLines, LinesFit;
    if chunks == [] {
      assert [] + held == held;
      ShortFits(held);
    } else {
      assert chunks[0] in chunks && forall c | c in chunks[1..] :: c in chunks;
      ChunksFit(chunks[1..], held);
      Assoc(chunks[0], Concat(chunks[1..]), held);
      ChunkThenFit(chunks[0], Concat(chunks[1..]) + held);
    }
  }

  lemma ShortFits(s: bytes)
    requires |s| <= CHUNK_SIZE
    ensures LinesFit(s)
  {
  }

  lemma {:induction false} ChunksWhole(chunks: seq<bytes>)
    requires forall c | c in chunks :: WholeLines(c)
    ensures WholeLines(Concat(chunks))
  {
    if chunks != [] {
      assert chunks[0] in chunks && forall c | c in chunks[1..] :: c in chunks;
      ChunksWhole(chunks[1..]);
    }
  }

  lemma ChunksSnoc(chunks: seq<bytes>, chunk: bytes, held: bytes)
    ensures Concat(chunks + [chunk]) + held == Concat(chunks) + (chunk + held)
  {
    ConcatAppend(chunks, [chunk]);
    assert [chunk][1..] == [] && chunk + [] == chunk;
    Assoc(Concat(chunks), chunk, held);
  }

  lemma Consume(stream: bytes, consumed: nat, k: nat)
    requires consumed + k <= |stream|
    ensures stream[..consumed] + stream[consumed..][..k] == stream[..consumed + k]
  {
  }

  /** The read loop, over the sizes that the network delivers. What it hands on are whole lines, and
      it keeps the rest; how the stream is cut into reads does not matter. It gets stuck exactly on a
      line that is longer than a buffer. */
  method HandleConnection(stream: bytes, sizes: seq<nat>) returns (chunks: seq<bytes>, consumed: nat)
    requires forall n | n in sizes :: n > 0
    ensures consumed <= |stream| && Concat(chunks) == Complete(stream[..consumed])
    ensures forall c | c in chunks :: c != [] && WholeLines(c) && |c| <= CHUNK_SIZE
    ensures LinesFit(stream) ==> consumed == |stream| || consumed >= |sizes|
    ensures consumed == |stream| ==> LinesFit(stream)
  {
    hide WholeLines, LinesFit, Complete, Concat;
    chunks, consumed := [], 0;
    var buffer := new LineBuffer();
    StartEmpty(stream);
    for i := 0 to |sizes|
      invariant buffer.Valid() && fresh(buffer) && fresh(buffer.body) && consumed <= |stream|
      invariant Concat(chunks) + buffer.Contents() == stream[..consumed] && NEWLINE !in buffer.Contents()
      invariant forall c | c in chunks :: c != [] && WholeLines(c) && |c| <= CHUNK_SIZE
      invariant LinesFit(stream) ==> consumed == |stream| || consumed >= i
    {
      ghost var held := buffer.Contents();
      assert sizes[i] in sizes && |held| == buffer.used;
      if |held| == CHUNK_SIZE && consumed < |stream| {
        FullBufferIsLongLine(stream, consumed, held, Concat(chunks));
      }
      var k := buffer.Read(stream[consumed..], sizes[i]);
      Consume(stream, consumed, k);
      Assoc(Concat(chunks), held, stream[consumed..][..k]);
      consumed := consumed + k;
      var next, chunk := CutChunk(buffer);
      if chunk != [] {
        ChunksSnoc(chunks, chunk, next.Contents());
        chunks := chunks + [chunk];
      } else {
        EmptyFirst(next.Contents());
      }
      buffer := next;
    }
    ChunksWhole(chunks);
    CompleteOf(Concat(chunks), buffer.Contents());
    ChunksFit(chunks, buffer.Contents());
    assert stream[..|stream|] == stream;
  }

  lemma StartEmpty(stream: bytes)
    ensures Concat([]) + [] == stream[..0]
  {
  }

  /* ---- the lines of a chunk ---- */

  /** The lines that are not empty, each with its newline; what follows the last newline is none. */
  function LinesOf(s: bytes): seq<bytes>
    decreases |s|
  {
    var i := IndexByte(s, NEWLINE);
    if i < 0 then [] else LineTo(s, i) + LinesOf(s[i + 1..])
  }

  function LineTo(s: bytes, i: nat): seq<bytes>
    requires i < |s|
  {
    if i == 0 then [] else [s[..i + 1]]
  }

  lemma LinesStep(s: bytes, done: seq<bytes>)
    ensures
      var i := IndexByte(s, NEWLINE);
      done + LinesOf(s) ==
      if i < 0 then done else if i == 0 then done + LinesOf(s[1..]) else (done + [s[..i + 1]]) + LinesOf(s[i + 1..])
  {
    var i := IndexByte(s, NEWLINE);
    hide IndexByte;
    if i < 0 {
      assert done + [] == done;
    } else if i == 0 {
      EmptyFirst(LinesOf(s[1..]));
    } else {
      Assoc(done, [s[..i + 1]], LinesOf(s[i + 1..]));
    }
  }

  lemma WholeStep(body: bytes, offset: nat)
    requires offset < |body|
    ensures
      var i := IndexByte(body[offset..], NEWLINE);
      if i < 0 then !WholeLines(body)
      else WholeLines(body[..offset + i + 1]) && body[offset..][i + 1..] == body[offset + i + 1..]
  {
    var rest := body[offset..];
    IndexByteFinds(rest, NEWLINE);
    hide IndexByte;
    assert rest[|rest| - 1] == body[|body| - 1] && rest[|rest| - 1] in rest;
  }

  /** The loop of `PlainParseBuffer`: the lines it parses, and whether it ended on an unfinished one. */
  method ParseBuffer(body: bytes) returns (lines: seq<bytes>, unfinished: bool)
    ensures lines == LinesOf(body)
    ensures unfinished <==> !WholeLines(body)
  {
    hide IndexByte, LinesOf, WholeLines;
    var offset := 0;
    lines, unfinished := [], false;
    EmptyFirst(LinesOf(body));
    assert body[0..] == body;
    while offset < |body|
      invariant 0 <= offset <= |body| && lines + LinesOf(body[offset..]) == LinesOf(body)
      invariant offset == |body| && body != [] ==> WholeLines(body)
    {
      var rest := body[offset..];
      var lineEnd := IndexByte(rest, NEWLINE);
      LinesStep(rest, lines);
      WholeStep(body, offset);
      assert body[..|body|] == body;
      if lineEnd < 0 {
        unfinished := true;
        return;
      }
      if lineEnd == 0 {
        offset := offset + 1;
      } else {
        lines := lines + [rest[..lineEnd + 1]];
        offset := offset + (lineEnd + 1);
      }
    }
    NoLines(lines);
    assert body[|body|..] == [];
  }

  lemma NoLines(done: seq<bytes>)
    ensures done + LinesOf([]) == done && WholeLines([])
  {
  }

  lemma LinesUnfold(s: bytes)
    ensures var i := IndexByte(s, NEWLINE);
            LinesOf(s) == if i < 0 then [] else LineTo(s, i) + LinesOf(s[i + 1..])
  {
    hide IndexByte;
  }

  lemma NewlineFirst(a: bytes, b: bytes)
    requires WholeLines(a) && a != []
    ensures
      var i := IndexByte(a, NEWLINE);
      && i >= 0 && IndexByte(a + b, NEWLINE) == i && WholeLines(a[i + 1..])
      && (a + b)[i + 1..] == a[i + 1..] + b && LineTo(a + b, i) == LineTo(a, i)
  {
    IndexByteFinds(a, NEWLINE);
    assert a[|a| - 1] in a;
    IndexByteUnique(a + b, NEWLINE, IndexByte(a, NEWLINE));
    var i := IndexByte(a, NEWLINE);
    hide IndexByte;
    assert (a + b)[..i + 1] == a[..i + 1];
  }

  lemma {:induction false} LinesOfWhole(a: bytes, b: bytes)
    requires WholeLines(a)
    ensures LinesOf(a + b) == LinesOf(a) + LinesOf(b)
    decreases |a|
  {
    hide *;
    if a == [] {
      EmptyFirst(b);
      EmptyFirst(LinesOf(b));
      LinesOfNothing();
    } else {
      var i := IndexByte(a, NEWLINE);
      NewlineFirst(a, b);
      LinesUnfold(a);
      LinesUnfold(a + b);
      LinesOfWhole(a[i + 1..], b);
      Assoc(LineTo(a, i), LinesOf(a[i + 1..]), LinesOf(b));
    }
  }

  lemma LinesOfNothing()
    ensures LinesOf([]) == []
  {
  }

  function AllLines(chunks: seq<bytes>): seq<bytes>
  {
    if chunks == [] then [] else LinesOf(chunks[0]) + AllLines(chunks[1..])
  }

  lemma {:induction false} LinesOfChunks(chunks: seq<bytes>)
    requires forall c | c in chunks :: WholeLines(c)
    ensures AllLines(chunks) == LinesOf(Concat(chunks))
  {
    hide WholeLines;
    if chunks != [] {
      assert chunks[0] in chunks && forall c | c in chunks[1..] :: c in chunks;
      LinesOfWhole(chunks[0], Concat(chunks[1..]));
      LinesOfChunks(chunks[1..]);
    } else {
      assert LinesOf([]) == [];
    }
  }

  lemma CompleteAndRest(s: bytes) returns (u: bytes)
    ensures s == Complete(s) + u && WholeLines(Complete(s)) && NEWLINE !in u
  {
    LastIndexByteFinds(s, NEWLINE);
    u := s[LastIndexByte(s, NEWLINE) + 1..];
  }

  lemma UnfinishedIsNoLine(s: bytes)
    ensures LinesOf(s) == LinesOf(Complete(s))
  {
    hide *;
    var u := CompleteAndRest(s);
    LinesOfWhole(Complete(s), u);
    IndexByteNone(u, NEWLINE);
    LinesStep(u, LinesOf(Complete(s)));
  }

  /** However a stream is cut into reads, the parsers see the lines of the stream itself, in order. */
  lemma {:induction false} LinesIndependentOfReads(stream: bytes, chunks: seq<bytes>)
    requires Concat(chunks) == Complete(stream) && forall c | c in chunks :: WholeLines(c)
    ensures AllLines(chunks) == LinesOf(stream)
  {
    LinesOfChunks(chunks);
    UnfinishedIsNoLine(stream);
  }

  /** The parts that are not empty, each with a newline. */
  function Terminated(parts: seq<bytes>): seq<bytes>
  {
    if parts == [] then []
    else (if parts[0] == [] then [] else [parts[0] + [NEWLINE]]) + Terminated(parts[1..])
  }

  lemma SplitUnfold(s: bytes)
    ensures var i := IndexByte(s, NEWLINE);
            Split(s, NEWLINE) == if i < 0 then [s] else [s[..i]] + Split(s[i + 1..], NEWLINE)
  {
    hide IndexByte;
  }

  lemma LineBefore(s: bytes, i: nat)
    requires i < |s| && s[i] == NEWLINE
    ensures LineTo(s, i) == if s[..i] == [] then [] else [s[..i] + [NEWLINE]]
  {
    assert s[..i + 1] == s[..i] + [NEWLINE];
  }

  lemma TerminatedFirst(p: bytes, rest: seq<bytes>)
    requires rest != []
    ensures Terminated(([p] + rest)[..|rest|]) ==
        (if p == [] then [] else [p + [NEWLINE]]) + Terminated(rest[..|rest| - 1])
  {
    var parts := ([p] + rest)[..|rest|];
    assert parts[1..] == rest[..|rest| - 1];
  }

  /** The lines are what stands between the newlines, but for what is empty and what comes last. */
  lemma {:induction false} LinesAreParts(s: bytes)
    ensures LinesOf(s) == Terminated(Split(s, NEWLINE)[..|Split(s, NEWLINE)| - 1])
    decreases |s|
  {
    hide *;
    var i := IndexByte(s, NEWLINE);
    LinesUnfold(s);
    SplitUnfold(s);
    if i >= 0 {
      var rest := Split(s[i + 1..], NEWLINE);
      IndexByteFinds(s, NEWLINE);
      LineBefore(s, i);
      LinesAreParts(s[i + 1..]);
      TerminatedFirst(s[..i], rest);
      assert ([s[..i]] + rest)[..|rest|] == Split(s, NEWLINE)[..|Split(s, NEWLINE)| - 1];
    } else {
      NothingTerminated();
      assert Split(s, NEWLINE)[..0] == [];
    }
  }

  lemma NothingTerminated()
    ensures Terminated([]) == []
  {
  }
}
