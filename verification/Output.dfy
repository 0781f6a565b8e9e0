/**
 Captured process output, end to end: the guest's retained buffer (crates/agent/src/executor/io.rs),
 the envelope check (crates/agent-protocol/src/validation.rs) and the client's cursor check
 (crates/agent-protocol/src/client.rs).

 Output is one log of units. A data byte and an end-of-file mark each take one sequence number, so
 unit `k` of the log, counted from one, has sequence number `k`, and a cursor is a log length.
 */
module Output {
  import opened Bytes

  const OUTPUT_BUFFER_BYTES: nat := 8 * 1024 * 1024
  const MAX_IO_PAYLOAD_BYTES: nat := 4 * 1024 * 1024

  datatype Stream = Stdout | Stderr

  datatype Unit = Datum(stream: Stream, value: byte) | End(stream: Stream)

  /** A stretch of one stream; `sequence` is the number of its last unit. */
  datatype Chunk = Chunk(sequence: nat, stream: Stream, data: Text, eof: bool)

  function Width(chunk: Chunk): nat { if chunk.eof then 1 else |chunk.data| }

  function Units(chunk: Chunk): (units: seq<Unit>)
    ensures |units| == Width(chunk)
  {
    if chunk.eof then [End(chunk.stream)]
    else seq(|chunk.data|, i requires 0 <= i < |chunk.data| => Datum(chunk.stream, chunk.data[i]))
  }

  function AllUnits(chunks: seq<Chunk>): seq<Unit> {
    if chunks == [] then [] else AllUnits(chunks[..|chunks| - 1]) + Units(chunks[|chunks| - 1])
  }

  function DataBytes(chunks: seq<Chunk>): nat {
    if chunks == [] then 0 else DataBytes(chunks[..|chunks| - 1]) + |chunks[|chunks| - 1].data|
  }

  function EofMarks(chunks: seq<Chunk>): nat {
    if chunks == [] then 0 else EofMarks(chunks[..|chunks| - 1]) + (if chunks[|chunks| - 1].eof then 1 else 0)
  }

  /** Data chunks carry data, end-of-file chunks none. */
  predicate Shaped(chunks: seq<Chunk>) {
    forall i :: 0 <= i < |chunks| ==> (chunks[i].eof <==> chunks[i].data == [])
  }

  /** The cursor after the chunks, starting from `cursor`. */
  function Last(cursor: nat, chunks: seq<Chunk>): nat {
    if chunks == [] then cursor else chunks[|chunks| - 1].sequence
  }

  /** Each chunk starts right behind the one before it, the first right behind the cursor. */
  predicate Contiguous(cursor: nat, chunks: seq<Chunk>) {
    chunks == [] || (
      var front, last := chunks[..|chunks| - 1], chunks[|chunks| - 1];
      Contiguous(cursor, front) && last.sequence == Last(cursor, front) + Width(last) < U64_LIMIT)
  }

  // ---------------------------------------------------------------- slices of a log

  lemma SliceOfSlice(log: seq<Unit>, start: nat, end: nat, from: nat, to: nat)
    requires start <= from <= to <= end <= |log|
    ensures log[start..end][from - start..to - start] == log[from..to]
  {
    var inner, direct := log[start..end][from - start..to - start], log[from..to];
    assert forall k :: 0 <= k < |inner| ==> inner[k] == direct[k];
  }

  lemma DropOfConcat(log: seq<Unit>, units: seq<Unit>, dropped: nat)
    requires dropped <= |log|
    ensures (log + units)[dropped..] == log[dropped..] + units
  {
  }

  /** Where the second of two stretches lies, if they start what is left of a log. */
  lemma SecondStretch(first: seq<Unit>, second: seq<Unit>, log: seq<Unit>, dropped: nat)
    requires dropped <= |log| && first + second <= log[dropped..]
    ensures dropped + |first| + |second| <= |log|
    ensures log[dropped + |first|..dropped + |first| + |second|] == second
  {
    var found := log[dropped + |first|..dropped + |first| + |second|];
    assert forall k :: 0 <= k < |second| ==> found[k] == log[dropped..][|first| + k] == (first + second)[|first| + k];
  }

  lemma TailOf(first: seq<Unit>, rest: seq<Unit>, log: seq<Unit>, dropped: nat)
    requires dropped <= |log| && first + rest == log[dropped..]
    ensures dropped + |first| <= |log| && log[dropped + |first|..] == rest
  {
    assert (first + rest)[|first|..] == rest;
    assert log[dropped..][|first|..] == log[dropped + |first|..];
  }

  // ---------------------------------------------------------------- lists of chunks

  lemma {:induction false} CursorCountsUnits(cursor: nat, chunks: seq<Chunk>)
    requires Contiguous(cursor, chunks)
    ensures Last(cursor, chunks) == cursor + |AllUnits(chunks)|
    ensures Shaped(chunks) ==> |AllUnits(chunks)| == DataBytes(chunks) + EofMarks(chunks)
  {
    if chunks != [] {
      CursorCountsUnits(cursor, chunks[..|chunks| - 1]);
    }
  }

  lemma {:induction false} HeadUnits(chunks: seq<Chunk>)
    requires chunks != []
    ensures AllUnits(chunks) == Units(chunks[0]) + AllUnits(chunks[1..])
    ensures DataBytes(chunks) == |chunks[0].data| + DataBytes(chunks[1..])
  {
    if |chunks| > 1 {
      var front := chunks[..|chunks| - 1];
      HeadUnits(front);
      assert front[1..] == chunks[1..][..|chunks| - 2];
      Associative(Units(chunks[0]), AllUnits(front[1..]), Units(chunks[|chunks| - 1]));
    }
  }

  lemma {:induction false} TailIsContiguous(cursor: nat, chunks: seq<Chunk>)
    requires chunks != [] && Contiguous(cursor, chunks)
    ensures chunks[0].sequence == cursor + Width(chunks[0]) && Contiguous(chunks[0].sequence, chunks[1..])
  {
    if |chunks| > 1 {
      var front := chunks[..|chunks| - 1];
      TailIsContiguous(cursor, front);
      assert front[1..] == chunks[1..][..|chunks| - 2];
    } else {
      assert chunks[..0] == [];
    }
  }

  lemma {:induction false} PrefixIsContiguous(cursor: nat, chunks: seq<Chunk>, i: nat)
    requires i <= |chunks| && Contiguous(cursor, chunks)
    ensures Contiguous(cursor, chunks[..i]) && DataBytes(chunks[..i]) <= DataBytes(chunks)
  {
    if i < |chunks| {
      assert chunks[..|chunks| - 1][..i] == chunks[..i];
      PrefixIsContiguous(cursor, chunks[..|chunks| - 1], i);
    } else {
      assert chunks[..i] == chunks;
    }
  }

  lemma {:induction false} PrefixUnits(chunks: seq<Chunk>, i: nat)
    requires i <= |chunks|
    ensures AllUnits(chunks[..i]) <= AllUnits(chunks)
  {
    if i < |chunks| {
      assert chunks[..|chunks| - 1][..i] == chunks[..i];
      PrefixUnits(chunks[..|chunks| - 1], i);
    } else {
      assert chunks[..i] == chunks;
    }
  }

  /** Taking the first chunk away takes its units from the front of the retained log. */
  lemma WithoutFirst(log: seq<Unit>, dropped: nat, chunks: seq<Chunk>)
    requires chunks != [] && Contiguous(dropped, chunks) && dropped <= |log| && AllUnits(chunks) == log[dropped..]
    ensures var next := chunks[0].sequence;
            dropped <= next <= |log| && Contiguous(next, chunks[1..]) && AllUnits(chunks[1..]) == log[next..]
            && DataBytes(chunks) == |chunks[0].data| + DataBytes(chunks[1..])
  {
    HeadUnits(chunks);
    TailIsContiguous(dropped, chunks);
    TailOf(Units(chunks[0]), AllUnits(chunks[1..]), log, dropped);
  }

  lemma MovedFirst<T>(gone: seq<T>, rest: seq<T>)
    requires rest != []
    ensures gone + rest == (gone + [rest[0]]) + rest[1..]
  {
  }

  lemma Parts<T>(gone: seq<T>, rest: seq<T>)
    ensures (gone + rest)[..|gone|] == gone && (gone + rest)[|gone|..] == rest
    ensures gone != [] ==> (gone + rest)[|gone| - 1..] == [gone[|gone| - 1]] + rest
  {
  }

  /** The first chunks are gone, and not one more than had to be: with the last of them the rest is too much. */
  predicate Trimmed(all: seq<Chunk>, gone: seq<Chunk>, rest: seq<Chunk>, restBytes: nat) {
    all == gone + rest && (gone != [] ==> |gone[|gone| - 1].data| + restBytes > OUTPUT_BUFFER_BYTES)
  }

  lemma {:induction false} LaterIsLess(chunks: seq<Chunk>, i: nat, j: nat)
    requires i <= j <= |chunks|
    ensures DataBytes(chunks[j..]) <= DataBytes(chunks[i..])
    decreases j - i
  {
    if i < j {
      HeadUnits(chunks[i..]);
      assert chunks[i..][1..] == chunks[i + 1..];
      LaterIsLess(chunks, i + 1, j);
    }
  }

  lemma FirstBytes(chunk: Chunk, rest: seq<Chunk>)
    ensures DataBytes([chunk] + rest) == |chunk.data| + DataBytes(rest)
  {
    HeadUnits([chunk] + rest);
    assert ([chunk] + rest)[1..] == rest;
  }

  /** After trimming, a chunk is kept exactly if the data from it on fits the buffer. */
  lemma KeptExactly(all: seq<Chunk>, gone: seq<Chunk>, rest: seq<Chunk>, i: nat)
    requires Trimmed(all, gone, rest, DataBytes(rest)) && DataBytes(rest) <= OUTPUT_BUFFER_BYTES && i <= |all|
    ensures |gone| <= i <==> DataBytes(all[i..]) <= OUTPUT_BUFFER_BYTES
  {
    Parts(gone, rest);
    if |gone| <= i {
      LaterIsLess(all, |gone|, i);
    } else {
      FirstBytes(gone[|gone| - 1], rest);
      LaterIsLess(all, i, |gone| - 1);
    }
  }

  /** And a cursor that points behind some chunk survives exactly if everything behind it fits. */
  lemma SurvivingCursors(before: nat, all: seq<Chunk>, gone: seq<Chunk>, rest: seq<Chunk>, i: nat)
    requires Trimmed(all, gone, rest, DataBytes(rest)) && DataBytes(rest) <= OUTPUT_BUFFER_BYTES && i <= |all|
    requires Contiguous(before, all) && Shaped(all)
    ensures Last(before, gone) <= Last(before, all[..i]) <==> DataBytes(all[i..]) <= OUTPUT_BUFFER_BYTES
  {
    KeptExactly(all, gone, rest, i);
    Parts(gone, rest);
    if |gone| <= i { CursorsRise(before, all, |gone|, i); } else { CursorsRise(before, all, i, |gone|); }
  }

  /** Cursors rise strictly from chunk to chunk. */
  lemma {:induction false} CursorsRise(cursor: nat, chunks: seq<Chunk>, i: nat, j: nat)
    requires Contiguous(cursor, chunks) && Shaped(chunks) && i <= j <= |chunks|
    ensures i < j ==> Last(cursor, chunks[..i]) < Last(cursor, chunks[..j])
    decreases j
  {
    if i < j {
      CursorsRise(cursor, chunks, i, j - 1);
      PrefixIsContiguous(cursor, chunks, j);
      assert chunks[..j][..j - 1] == chunks[..j - 1] && chunks[..j][j - 1] == chunks[j - 1];
    }
  }

  /** The sequence number counts all units up to the end of the chunk. */
  predicate Numbered(cursor: nat, chunks: seq<Chunk>, i: nat)
    requires i < |chunks|
  {
    chunks[i].sequence == cursor + |AllUnits(chunks[..i + 1])| < U64_LIMIT
  }

  /** Contiguous chunks are exactly those numbered by counting units. */
  lemma {:induction false} NumberedByUnits(cursor: nat, chunks: seq<Chunk>)
    ensures Contiguous(cursor, chunks) <==> forall i :: 0 <= i < |chunks| ==> Numbered(cursor, chunks, i)
  {
    if chunks != [] {
      var last := |chunks| - 1;
      var front := chunks[..last];
      NumberedByUnits(cursor, front);
      assert chunks[..last + 1] == chunks;
      forall i | 0 <= i < last ensures Numbered(cursor, front, i) <==> Numbered(cursor, chunks, i) {
        assert front[..i + 1] == chunks[..i + 1];
      }
      if Contiguous(cursor, front) { CursorCountsUnits(cursor, front); }
      assert Numbered(cursor, chunks, last) <==>
             chunks[last].sequence == cursor + |AllUnits(front)| + Width(chunks[last]) < U64_LIMIT;
    }
  }

  // ---------------------------------------------------------------- the two receivers' checks

  datatype Verdict = Accepted | Exhausted | ZeroSequence | BadShape | NotContiguous | Overflow | OverBudget

  /** The first `n` chunks pass the envelope's check: numbered, shaped, each right behind the last. */
  predicate Chained(chunks: seq<Chunk>, n: nat)
    requires n <= |chunks|
  {
    n == 0 || (
      && Chained(chunks, n - 1)
      && chunks[n - 1].sequence != 0 && (chunks[n - 1].eof <==> chunks[n - 1].data == [])
      && (n > 1 ==> chunks[n - 1].sequence == chunks[n - 2].sequence + Width(chunks[n - 1]) < U64_LIMIT))
  }

  predicate WellFormed(chunks: seq<Chunk>) {
    Chained(chunks, |chunks|) && DataBytes(chunks) <= MAX_IO_PAYLOAD_BYTES
  }

  /** The envelope's check is the client's, started behind the first chunk, whose own start it does not look at. */
  lemma {:induction false} ChainedIsContiguous(chunks: seq<Chunk>, n: nat)
    requires 0 < n <= |chunks|
    ensures Chained(chunks, n) <==>
            chunks[0].sequence != 0 && Shaped(chunks[..n]) && Contiguous(chunks[0].sequence, chunks[1..n])
  {
    if n > 1 {
      ChainedIsContiguous(chunks, n - 1);
      assert chunks[1..n][..n - 2] == chunks[1..n - 1];
      assert Last(chunks[0].sequence, chunks[1..n - 1]) == chunks[n - 2].sequence;
      assert chunks[..n] == chunks[..n - 1] + [chunks[n - 1]];
    } else {
      assert chunks[1..1] == [];
    }
  }

  lemma {:induction false} ChainedBefore(chunks: seq<Chunk>, i: nat, n: nat)
    requires i <= n <= |chunks| && Chained(chunks, n)
    ensures Chained(chunks, i)
  {
    if i < n { ChainedBefore(chunks, i, n - 1); }
  }

  lemma {:induction false} DataBytesGrow(chunks: seq<Chunk>, i: nat)
    requires i <= |chunks|
    ensures DataBytes(chunks[..i]) <= DataBytes(chunks)
  {
    if i < |chunks| {
      assert chunks[..|chunks| - 1][..i] == chunks[..i];
      DataBytesGrow(chunks[..|chunks| - 1], i);
    } else {
      assert chunks[..i] == chunks;
    }
  }

  method ValidateOutputChunks(chunks: seq<Chunk>) returns (r: Verdict)
    ensures r.Accepted? <==> WellFormed(chunks)
  {
    var previous: Option<nat> := None;
    var total := 0;
    for i := 0 to |chunks|
      invariant previous == if i == 0 then None else Some(chunks[i - 1].sequence)
      invariant total == DataBytes(chunks[..i]) < U64_LIMIT
      invariant Chained(chunks, i)
    {
      var chunk := chunks[i];
      if Chained(chunks, |chunks|) { ChainedBefore(chunks, i + 1, |chunks|); }
      if chunk.sequence == 0 { return ZeroSequence; }
      if !chunk.eof && chunk.data == [] { return BadShape; }
      if chunk.eof && chunk.data != [] { return BadShape; }
      if previous.Some? {
        var expected := previous.value + Width(chunk);
        if expected >= U64_LIMIT { return Exhausted; }
        if chunk.sequence != expected { return NotContiguous; }
      }
      DataBytesGrow(chunks, i + 1);
      assert chunks[..i + 1][..i] == chunks[..i];
      total := total + |chunk.data|;
      if total >= U64_LIMIT { return Overflow; }
      previous := Some(chunk.sequence);
    }
    assert chunks[..|chunks|] == chunks;
    if total > MAX_IO_PAYLOAD_BYTES { return OverBudget; }
    return Accepted;
  }

  /** The client's check of a reply against its own cursor and budget. */
  method CheckReply(after: nat, budget: nat, chunks: seq<Chunk>) returns (r: Verdict)
    requires after < U64_LIMIT && budget < U64_LIMIT
    ensures r.Accepted? <==> Contiguous(after, chunks) && DataBytes(chunks) <= budget
    // the byte total cannot overflow on a reply that passed the envelope's check
    ensures WellFormed(chunks) ==> !r.Overflow?
  {
    var previous := after;
    var total := 0;
    for i := 0 to |chunks|
      invariant previous == Last(after, chunks[..i]) < U64_LIMIT
      invariant total == DataBytes(chunks[..i]) < U64_LIMIT
      invariant Contiguous(after, chunks[..i])
    {
      var chunk := chunks[i];
      DataBytesGrow(chunks, i + 1);
      assert chunks[..i + 1][..i] == chunks[..i];
      if Contiguous(after, chunks) { PrefixIsContiguous(after, chunks, i + 1); }
      var expected := previous + Width(chunk);
      if expected >= U64_LIMIT { return Exhausted; }
      if chunk.sequence != expected { return NotContiguous; }
      total := total + |chunk.data|;
      if total >= U64_LIMIT { return Overflow; }
      previous := chunk.sequence;
    }
    assert chunks[..|chunks|] == chunks;
    return if total > budget then OverBudget else Accepted;
  }

  // ---------------------------------------------------------------- the guest's buffer

  datatype Poll = Ready(chunks: seq<Chunk>) | Complete | Pending | FellBehind | Ahead | Broken

  class OutputState {
    ghost var log: seq<Unit>           // everything ever accepted
    var chunks: seq<Chunk>             // what is retained
    var retainedBytes: nat
    var nextSequence: nat
    var droppedThrough: nat
    var openStreams: nat
    var terminalError: bool

    /** The retained chunks are exactly the log behind the dropped part. */
    ghost predicate Valid()
      reads this
    {
      && nextSequence == |log| + 1 < U64_LIMIT
      && droppedThrough <= |log|
      && Shaped(chunks) && Contiguous(droppedThrough, chunks)
      && AllUnits(chunks) == log[droppedThrough..]
      && retainedBytes == DataBytes(chunks) <= OUTPUT_BUFFER_BYTES
    }

    constructor (openStreams: nat)
      ensures Valid() && log == [] && this.openStreams == openStreams && !terminalError
    {
      log, chunks, retainedBytes, nextSequence, droppedThrough := [], [], 0, 1, 0;
      this.openStreams, terminalError := openStreams, false;
    }

    method DropFirst()
      requires Shaped(chunks) && Contiguous(droppedThrough, chunks) && retainedBytes == DataBytes(chunks)
      requires droppedThrough <= |log| && AllUnits(chunks) == log[droppedThrough..] && chunks != []
      modifies this`chunks, this`retainedBytes, this`droppedThrough
      ensures chunks == old(chunks)[1..] && droppedThrough == old(chunks)[0].sequence
      ensures Shaped(chunks) && Contiguous(droppedThrough, chunks)
      ensures retainedBytes == DataBytes(chunks) == old(retainedBytes) - |old(chunks)[0].data|
      ensures old(droppedThrough) <= droppedThrough <= |log| && AllUnits(chunks) == log[droppedThrough..]
    {
      var dropped := chunks[0];
      WithoutFirst(log, droppedThrough, chunks);
      chunks := chunks[1..];
      retainedBytes := retainedBytes - |dropped.data|;
      droppedThrough := dropped.sequence;
    }

    /** Drop whole chunks from the front until the rest fits: exactly those from which on there is too much. */
    method Trim() returns (ghost gone: seq<Chunk>)
      requires Shaped(chunks) && Contiguous(droppedThrough, chunks) && retainedBytes == DataBytes(chunks)
      requires droppedThrough <= |log| && AllUnits(chunks) == log[droppedThrough..]
      modifies this`chunks, this`retainedBytes, this`droppedThrough
      ensures Shaped(chunks) && Contiguous(droppedThrough, chunks)
      ensures retainedBytes == DataBytes(chunks) <= OUTPUT_BUFFER_BYTES
      ensures old(droppedThrough) <= droppedThrough <= |log| && AllUnits(chunks) == log[droppedThrough..]
      ensures Trimmed(old(chunks), gone, chunks, retainedBytes) && droppedThrough == Last(old(droppedThrough), gone)
    {
      gone := [];
      while retainedBytes > OUTPUT_BUFFER_BYTES
        invariant old(droppedThrough) <= droppedThrough <= |log|
        invariant Shaped(chunks) && Contiguous(droppedThrough, chunks)
        invariant AllUnits(chunks) == log[droppedThrough..]
        invariant retainedBytes == DataBytes(chunks)
        invariant Trimmed(old(chunks), gone, chunks, retainedBytes) && droppedThrough == Last(old(droppedThrough), gone)
        decreases |chunks|
      {
        if chunks == [] {
          assert false;
        }
        MovedFirst(gone, chunks);
        gone := gone + [chunks[0]];
        DropFirst();
      }
    }

    /** The part of `append` before the trimming: the stretch is numbered, counted and put behind the others. */
    method Push(stream: Stream, data: Text, eof: bool) returns (ok: bool)
      requires Valid() && (eof <==> data == []) && |data| < U64_LIMIT / 2
      modifies this`log, this`chunks, this`retainedBytes, this`nextSequence
      ensures ok <==> |old(log)| + Width(Chunk(0, stream, data, eof)) < U64_LIMIT - 1
      ensures !ok ==> Valid() && log == old(log) && chunks == old(chunks)
      ensures ok ==> log == old(log) + Units(Chunk(0, stream, data, eof)) && nextSequence == |log| + 1 < U64_LIMIT
      ensures ok ==> chunks == old(chunks) + [Chunk(|log|, stream, data, eof)]
      ensures ok ==> Shaped(chunks) && Contiguous(droppedThrough, chunks) && retainedBytes == DataBytes(chunks)
      ensures ok ==> droppedThrough <= |log| && AllUnits(chunks) == log[droppedThrough..]
    {
      var width := if eof then 1 else |data|;
      var next := nextSequence + width;
      if next >= U64_LIMIT { return false; }
      var chunk := Chunk(next - 1, stream, data, eof);
      WithLast(log, droppedThrough, chunks, chunk);
      nextSequence := next;
      retainedBytes := retainedBytes + |data|;
      if retainedBytes >= U64_LIMIT {
        assert false;
      }
      chunks := chunks + [chunk];
      assert Units(chunk) == Units(Chunk(0, stream, data, eof));
      log := log + Units(chunk);
      return true;
    }

    /**
     Add a stretch of output. The log grows by exactly these units, or not at all when the sequence
     space is used up. Of the old chunks and the new one the first are dropped, and no more than needed
     for the rest to fit 8 MiB; the cursor behind them is the oldest that survives.
     */
    method Append(stream: Stream, data: Text, eof: bool) returns (ok: bool, ghost gone: seq<Chunk>)
      requires Valid() && (eof <==> data == []) && |data| < U64_LIMIT / 2
      modifies this`log, this`chunks, this`retainedBytes, this`nextSequence, this`droppedThrough
      ensures Valid()
      ensures ok <==> |old(log)| + Width(Chunk(0, stream, data, eof)) < U64_LIMIT - 1
      ensures log == old(log) + if ok then Units(Chunk(0, stream, data, eof)) else []
      ensures !ok ==> chunks == old(chunks) && droppedThrough == old(droppedThrough)
      ensures ok ==>
                && Trimmed(old(chunks) + [Chunk(|log|, stream, data, eof)], gone, chunks, retainedBytes)
                && droppedThrough == Last(old(droppedThrough), gone)
    {
      gone := [];
      ok := Push(stream, data, eof);
      if ok { gone := Trim(); }
    }

    /** A stretch read from a pipe; nothing is recorded for an empty one. */
    method Capture(stream: Stream, data: Text) returns (ghost gone: seq<Chunk>)
      requires Valid() && |data| < U64_LIMIT / 2
      modifies this
      ensures Valid() && openStreams == old(openStreams)
      ensures var room := |old(log)| + |data| < U64_LIMIT - 1;
              && log == old(log) + (if room then Units(Chunk(0, stream, data, false)) else [])
              && (terminalError <==> old(terminalError) || (!room && data != []))
              && droppedThrough == Last(old(droppedThrough), gone)
              && if room && data != []
                 then Trimmed(old(chunks) + [Chunk(|log|, stream, data, false)], gone, chunks, retainedBytes)
                 else gone == [] && chunks == old(chunks)
    {
      gone := [];
      if data == [] { return; }
      var ok;
      ok, gone := Append(stream, data, false);
      if !ok { terminalError := true; gone := []; }
    }

    /** The end of a pipe: one mark, and one stream fewer is open. */
    method Finish(stream: Stream, failed: bool) returns (ghost gone: seq<Chunk>)
      requires Valid()
      modifies this
      ensures Valid() && openStreams == (if old(openStreams) > 0 then old(openStreams) - 1 else 0)
      ensures var room := |old(log)| < U64_LIMIT - 2;
              && log == old(log) + (if room then [End(stream)] else [])
              && (terminalError <==> old(terminalError) || failed || !room)
              && droppedThrough == Last(old(droppedThrough), gone)
              && if room then Trimmed(old(chunks) + [Chunk(|log|, stream, [], true)], gone, chunks, retainedBytes)
                 else gone == [] && chunks == old(chunks)
    {
      gone := [];
      if failed { terminalError := true; }
      if openStreams > 0 { openStreams := openStreams - 1; }
      var ok;
      ok, gone := Append(stream, [], true);
      if !ok { terminalError := true; gone := []; }
    }

    /** The part of one chunk that lies behind the cursor, as far as the budget goes. */
    static method Take(chunk: Chunk, after: nat, remaining: nat) returns (piece: Option<Chunk>, goOn: bool)
      requires (chunk.eof <==> chunk.data == []) && Width(chunk) <= chunk.sequence
      ensures chunk.sequence <= after ==> piece.None? && goOn
      ensures chunk.sequence > after ==> (piece.None? <==> !chunk.eof && remaining == 0)
      ensures piece.None? && chunk.sequence > after ==> !goOn
      ensures piece.Some? ==> IsPiece(chunk, Behind(chunk, after), piece.value) && |piece.value.data| <= remaining
      ensures piece.Some? ==> (goOn <==> piece.value.sequence == chunk.sequence)
      ensures piece.Some? && !goOn ==> |piece.value.data| == remaining && piece.value.sequence < chunk.sequence
      ensures !goOn ==> !chunk.eof
    {
      if chunk.sequence <= after { return None, true; }
      if chunk.eof { return Some(Chunk(chunk.sequence, chunk.stream, [], true)), true; }
      if remaining == 0 { return None, false; }
      var first := chunk.sequence + 1 - |chunk.data|;
      var offset := if after >= first then after - first + 1 else 0;
      var available := |chunk.data| - offset;
      var length := if available < remaining then available else remaining;
      var data := chunk.data[offset..offset + length];
      piece := Some(Chunk(first + offset + length - 1, chunk.stream, data, false));
      assert Units(piece.value) == Units(chunk)[offset..offset + length];
      goOn := length == available;
    }

    /** One retained chunk: what it adds to the reply. */
    method Offer(i: nat, after: nat, budget: nat, output: seq<Chunk>, remaining: nat)
      returns (more: seq<Chunk>, left: nat, goOn: bool)
      requires Valid() && droppedThrough <= after <= |log| && i < |chunks|
      requires Faithful(log, after, budget, output) && remaining + DataBytes(output) == budget
      requires Last(after, output) == Max(after, Last(droppedThrough, chunks[..i]))
      ensures Faithful(log, after, budget, more) && left + DataBytes(more) == budget
      ensures goOn ==> Last(after, more) == Max(after, chunks[i].sequence)
      ensures !goOn ==> left == 0 && StopsBeforeData(log, Last(after, more))
      ensures after == |log| ==> more == output && goOn
    {
      more, left := output, remaining;
      RetainedInLog(log, droppedThrough, chunks, i);
      var piece;
      piece, goOn := Take(chunks[i], after, remaining);
      if piece.Some? {
        PieceInLog(log, chunks[i], Last(after, output), piece.value);
        Extends(log, after, budget, output, piece.value);
        more := output + [piece.value];
        left := remaining - |piece.value.data|;
      }
      if !goOn { InsideIsData(log, chunks[i], Last(after, more)); }
    }

    /** The loop over the retained chunks. */
    method Collect(after: nat, budget: nat) returns (output: seq<Chunk>)
      requires Valid() && droppedThrough <= after <= |log|
      ensures Faithful(log, after, budget, output)
      ensures Last(after, output) < |log| ==> DataBytes(output) == budget && StopsBeforeData(log, Last(after, output))
      ensures after == |log| ==> output == []
    {
      var remaining := budget;
      output := [];
      CursorCountsUnits(droppedThrough, chunks);
      for i := 0 to |chunks|
        invariant Faithful(log, after, budget, output) && remaining + DataBytes(output) == budget
        invariant Last(after, output) == Max(after, Last(droppedThrough, chunks[..i]))
        invariant after == |log| ==> output == []
      {
        var goOn;
        output, remaining, goOn := Offer(i, after, budget, output, remaining);
        if !goOn { return; }
        assert chunks[..i + 1][i] == chunks[i];
      }
      assert chunks[..|chunks|] == chunks;
    }

    /**
     What is there behind a cursor. A reply is the log from the cursor on, cut off only before a data byte
     for which the budget is used up; end marks cost nothing. Nothing is replied exactly when nothing can
     be, and then the state of the streams decides.
     */
    method PollAfter(after: nat, budget: nat) returns (r: Poll)
      requires Valid()
      ensures r.FellBehind? <==> after < droppedThrough
      ensures r.Ahead? <==> droppedThrough <= after && |log| < after
      ensures r.Ready? ==> r.chunks != [] && Faithful(log, after, budget, r.chunks)
      ensures r.Ready? && Last(after, r.chunks) < |log| ==>
                DataBytes(r.chunks) == budget && StopsBeforeData(log, Last(after, r.chunks))
      ensures !r.FellBehind? && !r.Ahead? ==> (r.Ready? <==> after < |log| && (budget > 0 || log[after].End?))
      ensures r.Ready? || r.FellBehind? || r.Ahead?
              || r == if openStreams > 0 then Pending else if terminalError then Broken else Complete
    {
      if after < droppedThrough { return FellBehind; }
      if after >= nextSequence { return Ahead; }
      var output := Collect(after, budget);
      if output != [] {
        ReplyTakesNext(log, after, budget, output);
        return Ready(output);
      }
      if openStreams == 0 {
        return if terminalError then Broken else Complete;
      }
      return Pending;
    }
  }

  function Max(a: nat, b: nat): nat { if a < b then b else a }

  /** Where the part of a chunk behind the cursor starts. */
  function Behind(chunk: Chunk, after: nat): nat
    requires Width(chunk) <= chunk.sequence
  {
    Max(after, chunk.sequence - Width(chunk))
  }

  /** `piece` is a non-empty part of `chunk`, starting behind position `from`. */
  predicate IsPiece(chunk: Chunk, from: nat, piece: Chunk)
    requires Width(chunk) <= chunk.sequence
  {
    && (piece.eof <==> piece.data == []) && piece.sequence == from + Width(piece) <= chunk.sequence
    && var start := chunk.sequence - Width(chunk);
       start <= from && Units(piece) == Units(chunk)[from - start..piece.sequence - start]
  }

  /** The next unit is a data byte. */
  predicate StopsBeforeData(log: seq<Unit>, cursor: nat) { cursor < |log| && log[cursor].Datum? }

  lemma InsideIsData(log: seq<Unit>, chunk: Chunk, cursor: nat)
    requires InLog(log, chunk) && !chunk.eof && chunk.sequence - Width(chunk) <= cursor < chunk.sequence
    ensures StopsBeforeData(log, cursor)
  {
    var start := chunk.sequence - Width(chunk);
    assert log[start..chunk.sequence][cursor - start] == Units(chunk)[cursor - start];
  }

  /** A reply that is not empty takes the next unit, with no budget only an end mark. */
  lemma ReplyTakesNext(log: seq<Unit>, after: nat, budget: nat, chunks: seq<Chunk>)
    requires Faithful(log, after, budget, chunks) && chunks != []
    ensures after < |log| && (budget == 0 ==> log[after].End?)
  {
    HeadUnits(chunks);
    CursorCountsUnits(after, chunks);
    assert log[after..Last(after, chunks)][0] == Units(chunks[0])[0];
  }

  /** The chunks before one, and that one. */
  lemma UpTo(dropped: nat, retained: seq<Chunk>, i: nat)
    requires Contiguous(dropped, retained) && i < |retained|
    ensures AllUnits(retained[..i + 1]) == AllUnits(retained[..i]) + Units(retained[i])
    ensures Contiguous(dropped, retained[..i]) && retained[i].sequence == Last(dropped, retained[..i]) + Width(retained[i])
  {
    var upTo := retained[..i + 1];
    assert upTo[..i] == retained[..i] && upTo[i] == retained[i];
    PrefixIsContiguous(dropped, retained, i + 1);
  }

  lemma StretchInLog(log: seq<Unit>, dropped: nat, first: seq<Unit>, chunk: Chunk)
    requires dropped <= |log| && first + Units(chunk) <= log[dropped..] && chunk.sequence == dropped + |first| + Width(chunk)
    ensures InLog(log, chunk)
  {
    SecondStretch(first, Units(chunk), log, dropped);
  }

  /** The units before a chunk, and its own, start what is retained. */
  lemma StretchBefore(dropped: nat, retained: seq<Chunk>, i: nat) returns (first: seq<Unit>)
    requires Contiguous(dropped, retained) && i < |retained|
    ensures first + Units(retained[i]) <= AllUnits(retained)
    ensures dropped + |first| == Last(dropped, retained[..i]) == retained[i].sequence - Width(retained[i])
  {
    UpTo(dropped, retained, i);
    CursorCountsUnits(dropped, retained[..i]);
    PrefixUnits(retained, i + 1);
    first := AllUnits(retained[..i]);
  }

  /** A retained chunk holds the log's own units. */
  lemma RetainedInLog(log: seq<Unit>, dropped: nat, retained: seq<Chunk>, i: nat)
    requires dropped <= |log| && i < |retained|
    requires Contiguous(dropped, retained) && AllUnits(retained) == log[dropped..]
    ensures InLog(log, retained[i]) && retained[i].sequence - Width(retained[i]) == Last(dropped, retained[..i])
  {
    var first := StretchBefore(dropped, retained, i);
    StretchInLog(log, dropped, first, retained[i]);
  }

  predicate InLog(log: seq<Unit>, chunk: Chunk) {
    Width(chunk) <= chunk.sequence <= |log| && log[chunk.sequence - Width(chunk)..chunk.sequence] == Units(chunk)
  }

  lemma PieceInLog(log: seq<Unit>, chunk: Chunk, from: nat, piece: Chunk)
    requires InLog(log, chunk) && IsPiece(chunk, from, piece)
    ensures InLog(log, piece) && piece.sequence == from + Width(piece)
  {
    SliceOfSlice(log, chunk.sequence - Width(chunk), chunk.sequence, from, piece.sequence);
  }

  /** A reply is contiguous from the cursor, within budget, and holds the log's own units. */
  predicate Faithful(log: seq<Unit>, after: nat, budget: nat, chunks: seq<Chunk>) {
    && Shaped(chunks) && Contiguous(after, chunks) && DataBytes(chunks) <= budget
    && after <= |log| && Last(after, chunks) <= |log|
    && Last(after, chunks) >= after && AllUnits(chunks) == log[after..Last(after, chunks)]
  }

  lemma Pushed(cursor: nat, chunks: seq<Chunk>, chunk: Chunk)
    requires Contiguous(cursor, chunks) && chunk.sequence == Last(cursor, chunks) + Width(chunk) < U64_LIMIT
    ensures Contiguous(cursor, chunks + [chunk])
    ensures AllUnits(chunks + [chunk]) == AllUnits(chunks) + Units(chunk)
    ensures DataBytes(chunks + [chunk]) == DataBytes(chunks) + |chunk.data|
  {
    var more := chunks + [chunk];
    assert more[..|chunks|] == chunks;
  }

  lemma WithLast(log: seq<Unit>, dropped: nat, chunks: seq<Chunk>, chunk: Chunk)
    requires Contiguous(dropped, chunks) && dropped <= |log| && AllUnits(chunks) == log[dropped..]
    requires chunk.sequence == |log| + Width(chunk) < U64_LIMIT
    ensures Contiguous(dropped, chunks + [chunk]) && AllUnits(chunks + [chunk]) == (log + Units(chunk))[dropped..]
    ensures DataBytes(chunks + [chunk]) == DataBytes(chunks) + |chunk.data|
  {
    CursorCountsUnits(dropped, chunks);
    Pushed(dropped, chunks, chunk);
    DropOfConcat(log, Units(chunk), dropped);
  }

  lemma Extends(log: seq<Unit>, after: nat, budget: nat, chunks: seq<Chunk>, chunk: Chunk)
    requires Faithful(log, after, budget, chunks)
    requires chunk.eof <==> chunk.data == []
    requires chunk.sequence == Last(after, chunks) + Width(chunk) && |log| < U64_LIMIT && InLog(log, chunk)
    requires DataBytes(chunks) + |chunk.data| <= budget
    ensures Faithful(log, after, budget, chunks + [chunk])
    ensures DataBytes(chunks + [chunk]) == DataBytes(chunks) + |chunk.data|
  {
    Pushed(after, chunks, chunk);
  }

  // ---------------------------------------------------------------- runs of polls

  /** One accepted poll: the log at that moment, the caller's budget, and the reply. */
  datatype Round = Round(log: seq<Unit>, budget: nat, reply: seq<Chunk>)

  /** Every reply passes the client's check at the cursor the previous one left. */
  predicate AllAccepted(cursor: nat, rounds: seq<Round>)
    decreases |rounds|
  {
    rounds == [] || (
      && Contiguous(cursor, rounds[0].reply) && Shaped(rounds[0].reply)
      && DataBytes(rounds[0].reply) <= rounds[0].budget
      && AllAccepted(Last(cursor, rounds[0].reply), rounds[1..]))
  }

  function FinalCursor(cursor: nat, rounds: seq<Round>): nat
    decreases |rounds|
  {
    if rounds == [] then cursor else FinalCursor(Last(cursor, rounds[0].reply), rounds[1..])
  }

  function Delivered(rounds: seq<Round>): seq<Unit> {
    if rounds == [] then [] else AllUnits(rounds[0].reply) + Delivered(rounds[1..])
  }

  function TotalBytes(rounds: seq<Round>): nat {
    if rounds == [] then 0 else DataBytes(rounds[0].reply) + TotalBytes(rounds[1..])
  }

  function TotalMarks(rounds: seq<Round>): nat {
    if rounds == [] then 0 else EofMarks(rounds[0].reply) + TotalMarks(rounds[1..])
  }

  function TotalBudget(rounds: seq<Round>): nat {
    if rounds == [] then 0 else rounds[0].budget + TotalBudget(rounds[1..])
  }

  /**
   Whatever guest is on the other side: over any run of accepted polls that feed the last sequence
   back as the cursor, the cursor moves by exactly the bytes and end marks delivered, within budget.
   */
  lemma {:induction false} CursorConservation(cursor: nat, rounds: seq<Round>)
    requires AllAccepted(cursor, rounds)
    ensures FinalCursor(cursor, rounds) == cursor + TotalBytes(rounds) + TotalMarks(rounds)
    ensures |Delivered(rounds)| == TotalBytes(rounds) + TotalMarks(rounds)
    ensures TotalBytes(rounds) <= TotalBudget(rounds)
    decreases |rounds|
  {
    if rounds != [] {
      CursorCountsUnits(cursor, rounds[0].reply);
      CursorConservation(Last(cursor, rounds[0].reply), rounds[1..]);
    }
  }

  /** Every reply is this guest's answer at its moment, and the log only grows in between. */
  predicate AllServed(cursor: nat, rounds: seq<Round>)
    decreases |rounds|
  {
    rounds == [] || (
      && Faithful(rounds[0].log, cursor, rounds[0].budget, rounds[0].reply)
      && (|rounds| > 1 ==> rounds[0].log <= rounds[1].log)
      && AllServed(Last(cursor, rounds[0].reply), rounds[1..]))
  }

  lemma {:induction false} LogsGrow(cursor: nat, rounds: seq<Round>)
    requires rounds != [] && AllServed(cursor, rounds)
    ensures rounds[0].log <= rounds[|rounds| - 1].log
    decreases |rounds|
  {
    if |rounds| > 1 { LogsGrow(Last(cursor, rounds[0].reply), rounds[1..]); }
  }

  lemma JoinSlices(early: seq<Unit>, late: seq<Unit>, a: nat, b: nat, c: nat)
    requires a <= b <= c <= |late| && b <= |early| && early <= late
    ensures early[a..b] + late[b..c] == late[a..c]
  {
    assert early[a..b] == late[a..b];
  }

  /**
   With the guest's buffer on the other side, what a run of polls delivers is the process's output
   itself, unit by unit and in order, from the first cursor to the last: nothing lost, repeated,
   reordered or moved between streams, whatever is appended and dropped in between.
   */
  lemma {:induction false} DeliversTheLog(cursor: nat, rounds: seq<Round>)
    requires rounds != [] && AllServed(cursor, rounds)
    ensures var final := rounds[|rounds| - 1].log;
            cursor <= FinalCursor(cursor, rounds) <= |final|
            && Delivered(rounds) == final[cursor..FinalCursor(cursor, rounds)]
    ensures AllAccepted(cursor, rounds)
    decreases |rounds|
  {
    var next := Last(cursor, rounds[0].reply);
    var final := rounds[|rounds| - 1].log;
    if |rounds| > 1 {
      LogsGrow(cursor, rounds);
      DeliversTheLog(next, rounds[1..]);
      JoinSlices(rounds[0].log, final, cursor, next, FinalCursor(cursor, rounds));
    } else {
      assert rounds[1..] == [];
    }
  }

  /** The guest's reply passes the envelope's check whenever the request's budget was allowed. */
  lemma {:induction false} FaithfulIsChained(log: seq<Unit>, after: nat, budget: nat, chunks: seq<Chunk>, n: nat)
    requires Faithful(log, after, budget, chunks) && n <= |chunks|
    ensures Chained(chunks, n)
  {
    if n > 0 {
      FaithfulIsChained(log, after, budget, chunks, n - 1);
      PrefixIsContiguous(after, chunks, n);
      assert chunks[..n][..n - 1] == chunks[..n - 1];
      assert chunks[..n][n - 1] == chunks[n - 1];
    }
  }

  lemma ReplyPassesBothChecks(log: seq<Unit>, after: nat, budget: nat, chunks: seq<Chunk>)
    requires Faithful(log, after, budget, chunks) && budget <= MAX_IO_PAYLOAD_BYTES
    ensures WellFormed(chunks)
    ensures Contiguous(after, chunks) && DataBytes(chunks) <= budget
  {
    FaithfulIsChained(log, after, budget, chunks, |chunks|);
  }

  /** What happens to a buffer and its reader, in any order. */
  datatype Event = Captured(stream: Stream, data: Text) | Finished(stream: Stream, failed: bool) | Polled(budget: nat)

  /** The log after an event; what finds no room in the sequence space is not recorded. */
  function Recorded(log: seq<Unit>, e: Event): seq<Unit> {
    match e
    case Captured(stream, data) =>
      log + (if |log| + |data| < U64_LIMIT - 1 then Units(Chunk(0, stream, data, false)) else [])
    case Finished(stream, _) => log + (if |log| < U64_LIMIT - 2 then [End(stream)] else [])
    case Polled(_) => log
  }

  /** One event: the log and the reader's cursor before and after it, and the reply if it was a poll. */
  datatype Moment = Moment(event: Event, log: seq<Unit>, cursor: nat, reply: seq<Chunk>, nextLog: seq<Unit>, nextCursor: nat)

  /** A poll of this log at this cursor, answered as far as the budget goes. */
  predicate Answered(log: seq<Unit>, cursor: nat, budget: nat, reply: seq<Chunk>) {
    && Faithful(log, cursor, budget, reply)
    && (Last(cursor, reply) < |log| ==> DataBytes(reply) == budget && StopsBeforeData(log, Last(cursor, reply)))
  }

  /** Output is recorded and leaves the cursor alone; a poll is answered and moves the cursor behind the reply. */
  predicate Moves(m: Moment) {
    && m.nextLog == Recorded(m.log, m.event)
    && (if m.event.Polled? then Answered(m.log, m.cursor, m.event.budget, m.reply) && m.nextCursor == Last(m.cursor, m.reply)
        else m.nextCursor == m.cursor)
  }

  predicate AllMove(trace: seq<Moment>) { forall k :: 0 <= k < |trace| ==> Moves(trace[k]) }

  /** Each event starts where the one before it ended, from this log and cursor to those. */
  predicate Linked(trace: seq<Moment>, log: seq<Unit>, cursor: nat, finalLog: seq<Unit>, finalCursor: nat) {
    && (forall k :: 0 < k < |trace| ==> trace[k].log == trace[k - 1].nextLog && trace[k].cursor == trace[k - 1].nextCursor)
    && if trace == [] then finalLog == log && finalCursor == cursor
       else var last := trace[|trace| - 1];
            trace[0].log == log && trace[0].cursor == cursor && last.nextLog == finalLog && last.nextCursor == finalCursor
  }

  lemma LinkOn(trace: seq<Moment>, log: seq<Unit>, cursor: nat, m: Moment)
    requires Linked(trace, log, cursor, m.log, m.cursor)
    ensures Linked(trace + [m], log, cursor, m.nextLog, m.nextCursor)
  {
  }

  lemma MoveOn(trace: seq<Moment>, m: Moment)
    requires AllMove(trace) && Moves(m)
    ensures AllMove(trace + [m])
  {
    forall k | 0 <= k < |trace + [m]| ensures Moves((trace + [m])[k]) {
      if k < |trace| { assert (trace + [m])[k] == trace[k]; } else { assert (trace + [m])[k] == m; }
    }
  }

  /** The answered polls of a reader, in order. */
  function Rounds(trace: seq<Moment>): seq<Round> {
    if trace == [] then []
    else
      var m := trace[0];
      (if m.event.Polled? then [Round(m.log, m.event.budget, m.reply)] else []) + Rounds(trace[1..])
  }

  lemma LinkedTail(trace: seq<Moment>, log: seq<Unit>, cursor: nat, finalLog: seq<Unit>, finalCursor: nat)
    requires trace != [] && AllMove(trace) && Linked(trace, log, cursor, finalLog, finalCursor)
    ensures AllMove(trace[1..]) && Linked(trace[1..], trace[0].nextLog, trace[0].nextCursor, finalLog, finalCursor)
  {
    forall k | 0 <= k < |trace[1..]| ensures Moves(trace[1..][k]) { assert trace[1..][k] == trace[k + 1]; }
  }

  lemma FirstRound(round: Round, more: seq<Round>, cursor: nat)
    requires Faithful(round.log, cursor, round.budget, round.reply) && AllServed(Last(cursor, round.reply), more)
    requires more != [] ==> round.log <= more[0].log
    ensures AllServed(cursor, [round] + more)
    ensures FinalCursor(cursor, [round] + more) == FinalCursor(Last(cursor, round.reply), more)
  {
    assert ([round] + more)[1..] == more;
  }

  /** Every such reader's polls are a run of served polls, so it is the log that they deliver. */
  lemma {:induction false} TraceIsServed(trace: seq<Moment>, log: seq<Unit>, cursor: nat, finalLog: seq<Unit>, finalCursor: nat)
    requires AllMove(trace) && Linked(trace, log, cursor, finalLog, finalCursor)
    ensures AllServed(cursor, Rounds(trace)) && FinalCursor(cursor, Rounds(trace)) == finalCursor
    ensures Rounds(trace) != [] ==> log <= Rounds(trace)[0].log
    decreases |trace|
  {
    if trace != [] {
      var first, more := trace[0], Rounds(trace[1..]);
      assert Moves(first);
      LinkedTail(trace, log, cursor, finalLog, finalCursor);
      TraceIsServed(trace[1..], first.nextLog, first.nextCursor, finalLog, finalCursor);
      if first.event.Polled? {
        FirstRound(Round(first.log, first.event.budget, first.reply), more, cursor);
      } else {
        assert [] + more == more && first.log <= first.nextLog;
      }
    }
  }

  /** Output that arrives, or ends. */
  method Record(buffer: OutputState, e: Event)
    requires buffer.Valid() && !e.Polled? && (e.Captured? ==> |e.data| < U64_LIMIT / 2)
    modifies buffer
    ensures buffer.Valid() && buffer.log == Recorded(old(buffer.log), e)
  {
    ghost var gone;
    match e {
      case Captured(stream, data) => gone := buffer.Capture(stream, data);
      case Finished(stream, failed) => gone := buffer.Finish(stream, failed);
    }
  }

  /** One poll of a reader, with both checks of the reply. */
  method ReadOnce(buffer: OutputState, cursor: nat, budget: nat) returns (behind: bool, chunks: seq<Chunk>)
    requires buffer.Valid() && cursor <= |buffer.log| && budget <= MAX_IO_PAYLOAD_BYTES
    ensures behind <==> cursor < buffer.droppedThrough
    ensures !behind ==> Answered(buffer.log, cursor, budget, chunks)
  {
    var reply := buffer.PollAfter(cursor, budget);
    if reply.FellBehind? { return true, []; }
    chunks := if reply.Ready? then reply.chunks else [];
    EmptyIsFaithful(buffer.log, cursor, budget);
    ReplyPassesBothChecks(buffer.log, cursor, budget, chunks);
    var formed := ValidateOutputChunks(chunks);
    var verdict := CheckReply(cursor, budget, chunks);
    if !formed.Accepted? || !verdict.Accepted? {
      assert false;
    }
    return false, chunks;
  }

  /** One event for a reader that has collected the log up to its cursor. */
  method Turn(buffer: OutputState, start: nat, cursor: nat, collected: seq<Unit>, e: Event)
    returns (behind: bool, next: nat, more: seq<Unit>, ghost m: Moment)
    requires buffer.Valid() && start <= cursor <= |buffer.log| && collected == buffer.log[start..cursor]
    requires (e.Captured? ==> |e.data| < U64_LIMIT / 2) && (e.Polled? ==> e.budget <= MAX_IO_PAYLOAD_BYTES)
    modifies buffer
    ensures buffer.Valid() && start <= next <= |buffer.log| && more == buffer.log[start..next]
    ensures behind ==> e.Polled? && next == cursor < buffer.droppedThrough && buffer.log == old(buffer.log)
    ensures !behind ==> Moves(m) && m.event == e && m.log == old(buffer.log) && m.cursor == cursor
    ensures !behind ==> m.nextLog == buffer.log && m.nextCursor == next
  {
    behind, next, more := false, cursor, collected;
    m := Moment(e, buffer.log, cursor, [], buffer.log, cursor);
    if !e.Polled? {
      Record(buffer, e);
      GrownLog(m.log, buffer.log, start, cursor);
      m := m.(nextLog := buffer.log);
    } else {
      var chunks;
      behind, chunks := ReadOnce(buffer, cursor, e.budget);
      if behind { return; }
      next := Last(cursor, chunks);
      JoinSlices(buffer.log, buffer.log, start, cursor, next);
      more := collected + AllUnits(chunks);
      m := m.(reply := chunks, nextCursor := next);
    }
  }

  /**
   A reader that polls a live buffer while output arrives and old output is dropped. Every poll up to
   one that finds it has fallen behind is answered from the log as it stood, as far as the budget goes,
   at the cursor the polls before it left; every reply passes the envelope's and the client's check; and
   what has been collected is the log from the first cursor on.
   */
  method ReadAlong(buffer: OutputState, start: nat, events: seq<Event>)
    returns (cursor: nat, collected: seq<Unit>, ghost trace: seq<Moment>)
    requires buffer.Valid() && buffer.droppedThrough <= start <= |buffer.log|
    requires forall e <- events :: (e.Captured? ==> |e.data| < U64_LIMIT / 2) && (e.Polled? ==> e.budget <= MAX_IO_PAYLOAD_BYTES)
    modifies buffer
    ensures buffer.Valid() && AllMove(trace) && Linked(trace, old(buffer.log), start, buffer.log, cursor)
    ensures |trace| <= |events| && forall k :: 0 <= k < |trace| ==> trace[k].event == events[k]
    ensures |trace| < |events| ==> events[|trace|].Polled? && cursor < buffer.droppedThrough
    ensures start <= cursor <= |buffer.log| && collected == buffer.log[start..cursor]
  {
    cursor, collected, trace := start, [], [];
    assert buffer.log[start..start] == [];
    for i := 0 to |events|
      invariant buffer.Valid() && AllMove(trace) && Linked(trace, old(buffer.log), start, buffer.log, cursor)
      invariant |trace| == i && forall k :: 0 <= k < i ==> trace[k].event == events[k]
      invariant start <= cursor <= |buffer.log| && collected == buffer.log[start..cursor]
    {
      var behind;
      ghost var m;
      behind, cursor, collected, m := Turn(buffer, start, cursor, collected, events[i]);
      if behind { return; }
      MoveOn(trace, m);
      LinkOn(trace, old(buffer.log), start, m);
      trace := trace + [m];
    }
  }

  lemma EmptyIsFaithful(log: seq<Unit>, after: nat, budget: nat)
    requires after <= |log|
    ensures Faithful(log, after, budget, [])
  {
    assert log[after..after] == [];
  }

  lemma GrownLog(before: seq<Unit>, after: seq<Unit>, a: nat, b: nat)
    requires before <= after && a <= b <= |before|
    ensures before[a..b] == after[a..b]
  {
  }
}
