/** Reassembling streamed responses: event-stream lines out of arbitrary network chunks, and HTTP
chunks out of the fragments they arrive in. */
module Streams {

  import opened ByteStrings
  import opened Wrappers

  const NEWLINE: Byte := 10

  function Concat(parts: seq<Bytes>): Bytes {
    if parts == [] then [] else Concat(parts[..|parts| - 1]) + parts[|parts| - 1]
  }

  lemma {:induction false} ConcatMore(parts: seq<Bytes>, k: nat)
    requires k < |parts|
    ensures Concat(parts[..k + 1]) == Concat(parts[..k]) + parts[k]
  {
    assert parts[..k + 1][..k] == parts[..k];
  }

  // ---------- lines ----------

  /** The bytes from which these lines, each ended by a newline, are read. */
  function Terminated(lines: seq<Bytes>): Bytes {
    if lines == [] then [] else lines[0] + [NEWLINE] + Terminated(lines[1..])
  }

  ghost predicate OneLine(line: Bytes) { NEWLINE !in line }

  /** The lines of a byte string and what follows the last newline. */
  ghost predicate Splits(bytes: Bytes, lines: seq<Bytes>, rest: Bytes) {
    bytes == Terminated(lines) + rest && OneLine(rest) && forall line | line in lines :: OneLine(line)
  }

  predicate Blank(bytes: Bytes) { forall b | b in bytes :: b == 32 || 9 <= b <= 13 }

  /** What the collector must be given: every line, then the remainder unless it is blank. */
  ghost predicate Delivered(bytes: Bytes, given: seq<Bytes>) {
    exists lines, rest :: Splits(bytes, lines, rest) && given == lines + if Blank(rest) then [] else [rest]
  }

  function IndexOfNewline(buffer: Bytes): (k: nat)
    requires NEWLINE in buffer
    ensures k < |buffer| && buffer[k] == NEWLINE && OneLine(buffer[..k])
  {
    if buffer[0] == NEWLINE then 0 else
      var k := IndexOfNewline(buffer[1..]);
      assert buffer[..k + 1] == [buffer[0]] + buffer[1..][..k];
      k + 1
  }

  /** The read loop of the streaming chat client. */
  method ReadLines(chunks: seq<Bytes>) returns (given: seq<Bytes>)
    ensures Delivered(Concat(chunks), given)
  {
    NoLines();
    hide Terminated, Concat, Blank;
    var buffer: Bytes := [];
    given := [];
    for c := 0 to |chunks|
      invariant Splits(Concat(chunks[..c]), given, buffer)
    {
      ConcatMore(chunks, c);
      buffer := buffer + chunks[c];
      while NEWLINE in buffer
        invariant Concat(chunks[..c + 1]) == Terminated(given) + buffer
        invariant forall line | line in given :: OneLine(line)
        decreases |buffer|
      {
        var k := IndexOfNewline(buffer);
        var line := buffer[..k];
        TerminatedMore(given, line);
        assert buffer == line + [NEWLINE] + buffer[k + 1..];
        buffer := buffer[k + 1..];
        given := given + [line];
      }
    }
    assert chunks[..|chunks|] == chunks;
    assert Splits(Concat(chunks), given, buffer);
    if !Blank(buffer) {
      given := given + [buffer];
    }
  }

  lemma {:induction false} NoLines()
    ensures Terminated([]) == [] && Concat([]) == []
  {}

  lemma {:induction false} TerminatedMore(lines: seq<Bytes>, line: Bytes)
    ensures Terminated(lines + [line]) == Terminated(lines) + line + [NEWLINE]
  {
    if lines == [] {
      assert Terminated([line]) == line + [NEWLINE] + Terminated([]);
    } else {
      assert (lines + [line])[1..] == lines[1..] + [line];
      TerminatedMore(lines[1..], line);
    }
  }

  /** There is only one way to read a byte string as lines and a remainder. */
  lemma {:induction false} SplitIsUnique(bytes: Bytes, a: seq<Bytes>, p: Bytes, b: seq<Bytes>, q: Bytes)
    requires Splits(bytes, a, p) && Splits(bytes, b, q)
    ensures a == b && p == q
  {
    assert a == [] ==> bytes == p;
    assert b == [] ==> bytes == q;
    if a == [] {
      if b != [] { FirstNewline(bytes, b, q); }
    } else if b == [] {
      FirstNewline(bytes, a, p);
    } else {
      FirstNewline(bytes, a, p);
      FirstNewline(bytes, b, q);
      SameLength(bytes, a[0], b[0]);
      SplitIsUnique(bytes[|a[0]| + 1..], a[1..], p, b[1..], q);
      assert a == [a[0]] + a[1..] && b == [b[0]] + b[1..];
    }
  }

  lemma {:induction false} FirstNewline(bytes: Bytes, lines: seq<Bytes>, rest: Bytes)
    requires Splits(bytes, lines, rest) && lines != []
    ensures |lines[0]| < |bytes| && bytes[..|lines[0]|] == lines[0] && bytes[|lines[0]|] == NEWLINE
    ensures OneLine(lines[0]) && Splits(bytes[|lines[0]| + 1..], lines[1..], rest)
  {
    var tail := Terminated(lines[1..]) + rest;
    assert bytes == lines[0] + [NEWLINE] + tail;
    assert bytes[|lines[0]| + 1..] == tail;
    assert forall line | line in lines[1..] :: line in lines;
  }

  lemma {:induction false} SameLength(bytes: Bytes, x: Bytes, y: Bytes)
    requires |x| < |bytes| && bytes[..|x|] == x && bytes[|x|] == NEWLINE && OneLine(x)
    requires |y| < |bytes| && bytes[..|y|] == y && bytes[|y|] == NEWLINE && OneLine(y)
    ensures x == y
  {
    assert forall k | 0 <= k < |x| :: bytes[k] == x[k] && x[k] != NEWLINE;
    assert forall k | 0 <= k < |y| :: bytes[k] == y[k] && y[k] != NEWLINE;
  }

  /** However the network cuts the stream, the collector sees the same lines. */
  lemma {:induction false} CutsAreInvisible(one: seq<Bytes>, other: seq<Bytes>, given: seq<Bytes>, givenOther: seq<Bytes>)
    requires Concat(one) == Concat(other)
    requires Delivered(Concat(one), given) && Delivered(Concat(other), givenOther)
    ensures given == givenOther
  {
    var a, p :| Splits(Concat(one), a, p) && given == a + if Blank(p) then [] else [p];
    var b, q :| Splits(Concat(other), b, q) && givenOther == b + if Blank(q) then [] else [q];
    SplitIsUnique(Concat(one), a, p, b, q);
  }

  // ---------- HTTP chunks ----------

  /** What the transport hands over: some bytes, whether they end an HTTP chunk, and the time. */
  datatype Fragment = Fragment(data: Bytes, ends: bool, now: real)

  datatype HttpChunk = HttpChunk(data: Bytes, start: real)

  function Data(fragments: seq<Fragment>): Bytes {
    if fragments == [] then [] else Data(fragments[..|fragments| - 1]) + fragments[|fragments| - 1].data
  }

  /** The time of the first fragment that carries bytes. */
  function Start(fragments: seq<Fragment>): real
    requires Data(fragments) != []
  {
    var front := fragments[..|fragments| - 1];
    if Data(front) != [] then Start(front) else fragments[|fragments| - 1].now
  }

  /** A start time of zero counts as unset. */
  function Stamp(start: real, fallback: real): real { if start != 0.0 then start else fallback }

  /** Groups that each end at an end-of-chunk mark, with no mark inside. */
  ghost predicate Marked(groups: seq<seq<Fragment>>) {
    forall g: seq<Fragment> | g in groups :: g != [] && g[|g| - 1].ends && Unmarked(g[..|g| - 1])
  }

  ghost predicate Unmarked(fragments: seq<Fragment>) { forall f | f in fragments :: !f.ends }

  function Flatten(groups: seq<seq<Fragment>>): seq<Fragment> {
    if groups == [] then [] else Flatten(groups[..|groups| - 1]) + groups[|groups| - 1]
  }

  /** One chunk for every group with bytes, in order, stamped with when its bytes began to come. */
  function Yielded(groups: seq<seq<Fragment>>): seq<HttpChunk>
  {
    if groups == [] then [] else
      var g := groups[|groups| - 1];
      Yielded(groups[..|groups| - 1]) +
      if Data(g) == [] then [] else [HttpChunk(Data(g), Stamp(Start(g), g[|g| - 1].now))]
  }

  /** The fragments read as closed groups and an unfinished one; that one is yielded at the end. */
  ghost predicate Chunked(fragments: seq<Fragment>, groups: seq<seq<Fragment>>, open: seq<Fragment>) {
    fragments == Flatten(groups) + open && Marked(groups) && Unmarked(open)
  }

  /** What must be yielded: a chunk for every closed group with bytes, and one for what is left. */
  ghost predicate YieldsAll(chunks: seq<HttpChunk>, fragments: seq<Fragment>, after: real) {
    exists groups, open :: Chunked(fragments, groups, open) && chunks == Yielded(groups) + Leftover(open, after)
  }

  function Leftover(open: seq<Fragment>, after: real): seq<HttpChunk> {
    if Data(open) == [] then [] else [HttpChunk(Data(open), Stamp(Start(open), after))]
  }

  method IterResponseHttpChunks(fragments: seq<Fragment>, after: real) returns (chunks: seq<HttpChunk>)
    ensures YieldsAll(chunks, fragments, after)
  {
    chunks := [];
    ghost var groups: seq<seq<Fragment>>, open: seq<Fragment> := [], [];
    var pending: Bytes := [];
    var pendingStart := 0.0;
    NothingRead();
    hide *;
    for k := 0 to |fragments|
      invariant Chunked(fragments[..k], groups, open)
      invariant pending == Data(open) && (pending != [] ==> pendingStart == Start(open))
      invariant chunks == Yielded(groups)
    {
      var f := fragments[k];
      assert fragments[..k + 1] == fragments[..k] + [f];
      OneMoreFragment(fragments[..k], groups, open, f);
      if f.data != [] {
        if pending == [] {
          pendingStart := f.now;
        }
        pending := pending + f.data;
      }
      open := open + [f];
      assert pending == Data(open);
      if f.ends {
        if pending != [] {
          chunks := chunks + [HttpChunk(pending, Stamp(pendingStart, f.now))];
        }
        groups, open := groups + [open], [];
        pending := [];
      }
    }
    assert fragments[..|fragments|] == fragments;
    AllYielded(fragments, groups, open, after);
    if pending != [] {
      chunks := chunks + [HttpChunk(pending, Stamp(pendingStart, after))];
    }
  }

  lemma {:induction false} AllYielded(fragments: seq<Fragment>, groups: seq<seq<Fragment>>, open: seq<Fragment>, after: real)
    requires Chunked(fragments, groups, open)
    ensures YieldsAll(if Data(open) == [] then Yielded(groups)
                      else Yielded(groups) + [HttpChunk(Data(open), Stamp(Start(open), after))], fragments, after)
  {
    hide Chunked, Yielded, Start, Data;
    assert Data(open) == [] ==> Yielded(groups) == Yielded(groups) + Leftover(open, after);
  }

  lemma {:induction false} NothingRead()
    ensures Chunked([], [], []) && Data([]) == [] && Yielded([]) == []
  {}

  /** Reading one more fragment extends the unfinished group and, at a mark, closes it. */
  lemma {:induction false} OneMoreFragment(fragments: seq<Fragment>, groups: seq<seq<Fragment>>, open: seq<Fragment>, f: Fragment)
    requires Chunked(fragments, groups, open)
    ensures if f.ends then Chunked(fragments + [f], groups + [open + [f]], []) else Chunked(fragments + [f], groups, open + [f])
    ensures Data([]) == [] && Data(open + [f]) == if f.data == [] then Data(open) else Data(open) + f.data
    ensures Data(open + [f]) != [] ==> Start(open + [f]) == if Data(open) != [] then Start(open) else f.now
    ensures Yielded(groups + [open + [f]]) ==
      Yielded(groups) +
      if Data(open + [f]) == [] then [] else [HttpChunk(Data(open + [f]), Stamp(Start(open + [f]), f.now))]
  {
    MarksGrow(fragments, groups, open, f);
    DataGrows(open, f);
    hide *;
    OneMoreGroup(groups, open + [f]);
  }

  lemma {:induction false} DataGrows(open: seq<Fragment>, f: Fragment)
    ensures Data([]) == [] && Data(open + [f]) == if f.data == [] then Data(open) else Data(open) + f.data
    ensures Data(open + [f]) != [] ==> Start(open + [f]) == if Data(open) != [] then Start(open) else f.now
  {
    assert (open + [f])[..|open|] == open;
  }

  lemma {:induction false} MarksGrow(fragments: seq<Fragment>, groups: seq<seq<Fragment>>, open: seq<Fragment>, f: Fragment)
    requires Chunked(fragments, groups, open)
    ensures if f.ends then Chunked(fragments + [f], groups + [open + [f]], []) else Chunked(fragments + [f], groups, open + [f])
  {
    OneMoreGroup(groups, open + [f]);
    Regroup(Flatten(groups), open, [f]);
    if f.ends {
      Closing(groups, open, f);
    } else {
      Extending(open, f);
    }
    hide Flatten, Marked, Unmarked;
    assert Flatten(groups) + (open + [f]) == Flatten(groups) + (open + [f]) + [];
  }

  lemma {:induction false} Extending(open: seq<Fragment>, f: Fragment)
    requires Unmarked(open) && !f.ends
    ensures Unmarked(open + [f])
  {}

  lemma {:induction false} Closing(groups: seq<seq<Fragment>>, open: seq<Fragment>, f: Fragment)
    requires Marked(groups) && Unmarked(open) && f.ends
    ensures Marked(groups + [open + [f]]) && Unmarked([])
  {
    var g := open + [f];
    assert g[..|g| - 1] == open;
  }

  lemma {:induction false} OneMoreGroup(groups: seq<seq<Fragment>>, g: seq<Fragment>)
    requires g != []
    ensures Flatten(groups + [g]) == Flatten(groups) + g
    ensures Yielded(groups + [g]) ==
      Yielded(groups) + if Data(g) == [] then [] else [HttpChunk(Data(g), Stamp(Start(g), g[|g| - 1].now))]
  {
    hide Data, Start;
    assert (groups + [g])[..|groups|] == groups;
  }

  /** Nothing is lost, reordered or yielded empty. */
  lemma {:induction false} YieldedKeepsBytes(groups: seq<seq<Fragment>>)
    ensures Concat(Payloads(Yielded(groups))) == Data(Flatten(groups))
    ensures forall c | c in Yielded(groups) :: c.data != []
  {
    if groups != [] {
      var front, g := groups[..|groups| - 1], groups[|groups| - 1];
      YieldedKeepsBytes(front);
      DataConcat(Flatten(front), g);
      if Data(g) == [] {
        assert Yielded(groups) == Yielded(front);
      } else {
        var chunk := HttpChunk(Data(g), Stamp(Start(g), g[|g| - 1].now));
        assert Yielded(groups) == Yielded(front) + [chunk];
        hide *;
        OneMorePayload(Yielded(front), chunk);
      }
    }
  }

  lemma {:induction false} OneMorePayload(chunks: seq<HttpChunk>, chunk: HttpChunk)
    ensures Concat(Payloads(chunks + [chunk])) == Concat(Payloads(chunks)) + chunk.data
    ensures forall c | c in chunks + [chunk] :: c in chunks || c == chunk
  {
    assert Payloads(chunks + [chunk])[..|chunks|] == Payloads(chunks);
  }

  function Payloads(chunks: seq<HttpChunk>): (r: seq<Bytes>)
    ensures |r| == |chunks| && forall k | 0 <= k < |r| :: r[k] == chunks[k].data
  { Project((c: HttpChunk) => c.data, chunks) }

  lemma {:induction false} DataConcat(a: seq<Fragment>, b: seq<Fragment>)
    ensures Data(a + b) == Data(a) + Data(b)
  {
    if b == [] {
      assert a + b == a;
    } else {
      assert (a + b)[..|a + b| - 1] == a + b[..|b| - 1];
      DataConcat(a, b[..|b| - 1]);
    }
  }

  /** Every byte of the stream is yielded, in order. */
  lemma {:induction false} BytesArrive(chunks: seq<HttpChunk>, fragments: seq<Fragment>, after: real)
    requires YieldsAll(chunks, fragments, after)
    ensures Concat(Payloads(chunks)) == Data(fragments)
    ensures forall c | c in chunks :: c.data != []
  {
    var groups, open :| Chunked(fragments, groups, open) && chunks == Yielded(groups) + Leftover(open, after);
    YieldedKeepsBytes(groups);
    DataConcat(Flatten(groups), open);
    if Data(open) == [] {
      assert chunks == Yielded(groups);
    } else {
      OneMorePayload(Yielded(groups), Leftover(open, after)[0]);
    }
  }

  // ---------- which time a chunk carries ----------

  /** The time of the fragment at k, or, when that is zero, of the end mark that closes its chunk, or
      the time of the end of the stream. */
  ghost predicate TimedBy(fragments: seq<Fragment>, k: nat, start: real, after: real)
    requires k < |fragments|
  {
    if fragments[k].now != 0.0 then start == fragments[k].now
    else
      || (exists e :: k <= e < |fragments| && fragments[e].ends && start == fragments[e].now &&
            forall n | k <= n < e :: !fragments[n].ends)
      || (start == after && forall n | k <= n < |fragments| :: !fragments[n].ends)
  }

  /** A chunk is timed by the fragment its first byte came in. */
  ghost predicate TimedByFirstByte(fragments: seq<Fragment>, taken: Bytes, chunk: HttpChunk, after: real) {
    exists k :: 0 <= k < |fragments| && fragments[k].data != [] && Data(fragments[..k]) == taken &&
      TimedBy(fragments, k, chunk.start, after)
  }

  lemma {:induction false} StartIsFirst(g: seq<Fragment>) returns (m: nat)
    requires Data(g) != []
    ensures m < |g| && g[m].data != [] && Data(g[..m]) == [] && Start(g) == g[m].now
  {
    var front := g[..|g| - 1];
    if Data(front) != [] {
      m := StartIsFirst(front);
      assert g[..m] == front[..m];
    } else {
      m := |g| - 1;
    }
  }

  /** Fragments of a group closed at its end. */
  lemma {:induction false} ClosedTimed(before: seq<Fragment>, g: seq<Fragment>, after: real)
    requires Data(g) != [] && g[|g| - 1].ends && Unmarked(g[..|g| - 1])
    ensures TimedByFirstByte(before + g, Data(before), HttpChunk(Data(g), Stamp(Start(g), g[|g| - 1].now)), after)
  {
    var all, b := before + g, |before|;
    var m := StartIsFirst(g);
    var k, e := b + m, b + |g| - 1;
    FirstByteAt(before, g, m);
    hide Data, Start, Unmarked;
    forall n | k <= n < e ensures !all[n].ends { Inside(g, n - b); }
    assert all[e] == g[|g| - 1] && all[k] == g[m];
    assert TimedBy(all, k, Stamp(Start(g), g[|g| - 1].now), after);
  }

  /** Fragments left open at the end of the stream. */
  lemma {:induction false} OpenTimed(before: seq<Fragment>, g: seq<Fragment>, after: real)
    requires Data(g) != [] && Unmarked(g)
    ensures TimedByFirstByte(before + g, Data(before), HttpChunk(Data(g), Stamp(Start(g), after)), after)
  {
    var all, b := before + g, |before|;
    var m := StartIsFirst(g);
    var k := b + m;
    FirstByteAt(before, g, m);
    forall n | k <= n < |all| ensures !all[n].ends { assert all[n] == g[n - b] && g[n - b] in g; }
    assert all[k] == g[m];
    hide Data, Start, Unmarked;
    assert TimedBy(all, k, Stamp(Start(g), after), after);
  }

  lemma {:induction false} Inside(g: seq<Fragment>, n: nat)
    requires n + 1 < |g| && Unmarked(g[..|g| - 1])
    ensures !g[n].ends
  {
    assert g[..|g| - 1][n] == g[n] && g[n] in g[..|g| - 1];
  }

  lemma {:induction false} FirstByteAt(before: seq<Fragment>, g: seq<Fragment>, m: nat)
    requires m < |g| && Data(g[..m]) == []
    ensures Data((before + g)[..|before| + m]) == Data(before)
  {
    assert (before + g)[..|before| + m] == before + g[..m];
    DataConcat(before, g[..m]);
  }

  lemma {:induction false} TimedStays(fragments: seq<Fragment>, more: seq<Fragment>, taken: Bytes, chunk: HttpChunk, after: real)
    requires TimedByFirstByte(fragments, taken, chunk, after) && (fragments == [] || fragments[|fragments| - 1].ends)
    ensures TimedByFirstByte(fragments + more, taken, chunk, after)
  {
    var k :| 0 <= k < |fragments| && fragments[k].data != [] && Data(fragments[..k]) == taken &&
             TimedBy(fragments, k, chunk.start, after);
    var all := fragments + more;
    assert all[..k] == fragments[..k];
    assert forall n | 0 <= n < |fragments| :: all[n] == fragments[n];
    hide Data;
    if fragments[k].now == 0.0 {
      if e :| k <= e < |fragments| && fragments[e].ends && chunk.start == fragments[e].now &&
              forall n | k <= n < e :: !fragments[n].ends {
        assert all[e].ends;
      }
    }
  }

  lemma {:induction false} FlattenEnds(groups: seq<seq<Fragment>>)
    requires Marked(groups)
    ensures Flatten(groups) == [] || Flatten(groups)[|Flatten(groups)| - 1].ends
  {
    if groups != [] { assert groups[|groups| - 1] in groups; }
  }

  lemma {:induction false} YieldedTimed(groups: seq<seq<Fragment>>, i: nat, after: real)
    requires Marked(groups) && i < |Yielded(groups)|
    ensures TimedByFirstByte(Flatten(groups), Concat(Payloads(Yielded(groups)[..i])), Yielded(groups)[i], after)
    decreases |groups|, 0
  {
    hide *;
    SomeGroup(groups);
    var front, g := groups[..|groups| - 1], groups[|groups| - 1];
    var chunks := Yielded(groups);
    MarkedParts(groups);
    LastGroup(groups);
    GroupChunkTimed(front, g, after, chunks, i);
  }

  lemma {:induction false} SomeGroup(groups: seq<seq<Fragment>>)
    requires Yielded(groups) != []
    ensures groups != []
  {}

  lemma {:induction false} LastGroup(groups: seq<seq<Fragment>>)
    requires groups != []
    ensures var front, g := groups[..|groups| - 1], groups[|groups| - 1];
      && Flatten(groups) == Flatten(front) + g
      && Yielded(groups) ==
           Yielded(front) + if Data(g) == [] then [] else [HttpChunk(Data(g), Stamp(Start(g), g[|g| - 1].now))]
  {}

  lemma {:induction false} GroupChunkTimed(front: seq<seq<Fragment>>, g: seq<Fragment>, after: real, chunks: seq<HttpChunk>, i: nat)
    requires Marked(front) && g != [] && g[|g| - 1].ends && Unmarked(g[..|g| - 1]) && i < |chunks|
    requires chunks == Yielded(front) + if Data(g) == [] then [] else [HttpChunk(Data(g), Stamp(Start(g), g[|g| - 1].now))]
    ensures TimedByFirstByte(Flatten(front) + g, Concat(Payloads(chunks[..i])), chunks[i], after)
    decreases |front|, 1
  {
    hide *;
    var done := Yielded(front);
    if i < |done| {
      YieldedTimed(front, i, after);
      FlattenEnds(front);
      EarlierTimed(Flatten(front), g, done, chunks, i, after);
    } else {
      YieldedKeepsBytes(front);
      ClosedTimed(Flatten(front), g, after);
      assert chunks[..i] == done;
    }
  }

  lemma {:induction false} MarkedParts(groups: seq<seq<Fragment>>)
    requires Marked(groups) && groups != []
    ensures var g := groups[|groups| - 1];
      Marked(groups[..|groups| - 1]) && g != [] && g[|g| - 1].ends && Unmarked(g[..|g| - 1])
  {
    assert groups[|groups| - 1] in groups && forall h | h in groups[..|groups| - 1] :: h in groups;
  }

  /** What holds of the chunks so far stays true when the stream goes on. */
  lemma {:induction false} EarlierTimed(fragments: seq<Fragment>, more: seq<Fragment>, chunks: seq<HttpChunk>, all: seq<HttpChunk>,
                                        i: nat, after: real)
    requires i < |chunks| && chunks <= all && (fragments == [] || fragments[|fragments| - 1].ends)
    requires TimedByFirstByte(fragments, Concat(Payloads(chunks[..i])), chunks[i], after)
    ensures TimedByFirstByte(fragments + more, Concat(Payloads(all[..i])), all[i], after)
  {
    hide *;
    assert all[..i] == chunks[..i] && all[i] == chunks[i];
    TimedStays(fragments, more, Concat(Payloads(chunks[..i])), chunks[i], after);
  }

  /** Every chunk carries the time of the fragment that brought its first byte; a time of zero counts
      as unset and is replaced by that of the closing mark, or of the end of the stream. */
  lemma {:induction false} ChunksCarryFirstTimes(chunks: seq<HttpChunk>, fragments: seq<Fragment>, after: real)
    requires YieldsAll(chunks, fragments, after)
    ensures forall i | 0 <= i < |chunks| :: TimedByFirstByte(fragments, Concat(Payloads(chunks[..i])), chunks[i], after)
  {
    var groups, open :| Chunked(fragments, groups, open) && chunks == Yielded(groups) + Leftover(open, after);
    assert Marked(groups) && Unmarked(open) && fragments == Flatten(groups) + open;
    assert Leftover(open, after) == if Data(open) == [] then [] else [HttpChunk(Data(open), Stamp(Start(open), after))];
    hide *;
    forall i | 0 <= i < |chunks| ensures TimedByFirstByte(fragments, Concat(Payloads(chunks[..i])), chunks[i], after) {
      ChunkTimed(groups, open, after, chunks, i);
    }
  }

  lemma {:induction false} ChunkTimed(groups: seq<seq<Fragment>>, open: seq<Fragment>, after: real, chunks: seq<HttpChunk>, i: nat)
    requires Marked(groups) && Unmarked(open) && i < |chunks|
    requires chunks == Yielded(groups) + if Data(open) == [] then [] else [HttpChunk(Data(open), Stamp(Start(open), after))]
    ensures TimedByFirstByte(Flatten(groups) + open, Concat(Payloads(chunks[..i])), chunks[i], after)
  {
    hide *;
    var done := Yielded(groups);
    if i < |done| {
      YieldedTimed(groups, i, after);
      FlattenEnds(groups);
      EarlierTimed(Flatten(groups), open, done, chunks, i, after);
    } else {
      YieldedKeepsBytes(groups);
      OpenTimed(Flatten(groups), open, after);
      assert chunks[..i] == done;
    }
  }

  /** The fragments determine what is yielded. */
  lemma {:induction false} OneOutcome(a: seq<HttpChunk>, b: seq<HttpChunk>, fragments: seq<Fragment>, after: real)
    requires YieldsAll(a, fragments, after) && YieldsAll(b, fragments, after)
    ensures a == b
  {
    hide Chunked, Yielded, Leftover;
    var g, p :| Chunked(fragments, g, p) && a == Yielded(g) + Leftover(p, after);
    var h, q :| Chunked(fragments, h, q) && b == Yielded(h) + Leftover(q, after);
    GroupingIsUnique(fragments, g, p, h, q);
  }

  /** The grouping is determined by the fragments. */
  lemma {:induction false} GroupingIsUnique(fragments: seq<Fragment>, a: seq<seq<Fragment>>, p: seq<Fragment>,
                                            b: seq<seq<Fragment>>, q: seq<Fragment>)
    requires Chunked(fragments, a, p) && Chunked(fragments, b, q)
    ensures a == b && p == q
  {
    if fragments == [] {
      NothingGrouped(a, p);
      NothingGrouped(b, q);
    } else {
      LastFragment(fragments, a, p);
      LastFragment(fragments, b, q);
      hide *;
      var front, f := fragments[..|fragments| - 1], fragments[|fragments| - 1];
      if f.ends {
        var ga, gb := a[|a| - 1], b[|b| - 1];
        GroupingIsUnique(front, a[..|a| - 1], ga[..|ga| - 1], b[..|b| - 1], gb[..|gb| - 1]);
        SameEnds(ga, gb);
        SameEnds(a, b);
      } else {
        GroupingIsUnique(front, a, p[..|p| - 1], b, q[..|q| - 1]);
        SameEnds(p, q);
      }
    }
  }

  lemma {:induction false} SameEnds<T>(xs: seq<T>, ys: seq<T>)
    requires xs != [] && ys != [] && xs[..|xs| - 1] == ys[..|ys| - 1] && xs[|xs| - 1] == ys[|ys| - 1]
    ensures xs == ys
  {
    assert xs == xs[..|xs| - 1] + [xs[|xs| - 1]];
    assert ys == ys[..|ys| - 1] + [ys[|ys| - 1]];
  }

  lemma {:induction false} NothingGrouped(groups: seq<seq<Fragment>>, open: seq<Fragment>)
    requires Chunked([], groups, open)
    ensures groups == [] && open == []
  {
    GroupsHoldFragments(groups);
  }

  lemma {:induction false} GroupsHoldFragments(groups: seq<seq<Fragment>>)
    requires Marked(groups)
    ensures |Flatten(groups)| >= |groups|
  {
    if groups != [] {
      assert groups[|groups| - 1] in groups;
      GroupsHoldFragments(groups[..|groups| - 1]);
    }
  }

  /** A mark closes the last group; any other fragment extends the unfinished one. */
  lemma {:induction false} LastFragment(fragments: seq<Fragment>, groups: seq<seq<Fragment>>, open: seq<Fragment>)
    requires Chunked(fragments, groups, open) && fragments != []
    ensures var front, f := fragments[..|fragments| - 1], fragments[|fragments| - 1];
      if f.ends then
        && open == [] && groups != [] && groups[|groups| - 1] != []
        && groups[|groups| - 1][|groups[|groups| - 1]| - 1] == f
        && Chunked(front, groups[..|groups| - 1], groups[|groups| - 1][..|groups[|groups| - 1]| - 1])
      else open != [] && open[|open| - 1] == f && Chunked(front, groups, open[..|open| - 1])
  {
    if open != [] {
      assert open[|open| - 1] in open;
      assert fragments[..|fragments| - 1] == Flatten(groups) + open[..|open| - 1];
    } else {
      assert fragments == Flatten(groups);
      var before, g := groups[..|groups| - 1], groups[|groups| - 1];
      assert g in groups && forall h | h in before :: h in groups;
      assert fragments[..|fragments| - 1] == Flatten(before) + g[..|g| - 1];
    }
  }

  /** The remainder is delivered exactly when it holds a byte that is no white space: neither a space
      nor one of the bytes 9 to 13. */
  lemma {:induction false} RemainderDelivered(bytes: Bytes, lines: seq<Bytes>, rest: Bytes, given: seq<Bytes>)
    requires Splits(bytes, lines, rest) && Delivered(bytes, given)
    ensures if exists b :: b in rest && b !in {9, 10, 11, 12, 13, 32} then given == lines + [rest] else given == lines
  {
    var a, p :| Splits(bytes, a, p) && given == a + if Blank(p) then [] else [p];
    SplitIsUnique(bytes, a, p, lines, rest);
    hide Splits;
    assert lines + [] == lines;
  }
}
