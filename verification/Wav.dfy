/** Two walkers over the chunks of a RIFF/WAVE body, and the fixed-offset reader of its duration. */
module Wav {
  import opened ByteStrings

  const RIFF: Bytes := [82, 73, 70, 70]
  const WAVE: Bytes := [87, 65, 86, 69]
  const FMT: Bytes := [102, 109, 116, 32]
  const DATA: Bytes := [100, 97, 116, 97]

  datatype Format = Format(rate: nat, channels: nat, bits: nat)

  const UNSET := Format(0, 0, 0)

  function FormatOf(body: Bytes): Format
    requires |body| >= 16
  { Format(Little(body[4..8]), Little(body[2..4]), Little(body[14..16])) }

  predicate Playable(body: Bytes)
    requires |body| >= 16
  { Little(body[..2]) == 1 && FormatOf(body).channels > 0 && FormatOf(body).rate > 0 }

  datatype Info = NoInfo | Info(format: Format, data: Bytes)

  function Finish(format: Format, body: Bytes): Info {
    if format.rate == 0 || format.channels == 0 || format.bits == 0 then NoInfo else Info(format, body)
  }

  /** What follows a chunk of this size: the rest after its padding, if there is any. */
  function After(rest: Bytes, size: nat): Bytes {
    if 8 + size + size % 2 <= |rest| then rest[8 + size + size % 2..] else []
  }

  /** Walking from here with the format found so far. */
  function Walk(rest: Bytes, format: Format): Info
    decreases |rest|
  {
    if |rest| < 8 || 8 + Little(rest[4..8]) > |rest| then NoInfo else
    var id, size := rest[..4], Little(rest[4..8]);
    var body := rest[8..8 + size];
    if id == FMT && size >= 16 then if Playable(body) then Walk(After(rest, size), FormatOf(body)) else NoInfo
    else if id == DATA then Finish(format, body)
    else Walk(After(rest, size), format)
  }

  function Body(data: Bytes): Bytes { From(data, 12) }

  function From(data: Bytes, pos: nat): Bytes { if pos <= |data| then data[pos..] else [] }

  lemma {:induction false} FromAt(data: Bytes, pos: nat)
    requires pos + 8 <= |data|
    ensures |From(data, pos)| == |data| - pos
    ensures From(data, pos)[..4] == data[pos..pos + 4] && From(data, pos)[4..8] == data[pos + 4..pos + 8]
  {}

  lemma {:induction false} FromBody(data: Bytes, pos: nat, size: nat)
    requires pos + 8 + size <= |data|
    ensures From(data, pos)[8..8 + size] == data[pos + 8..pos + 8 + size]
    ensures After(From(data, pos), size) == From(data, pos + 8 + size + size % 2)
  {}

  method WavInfo(data: Bytes) returns (info: Info)
    ensures info == Walk(Body(data), UNSET)
  {
    hide From, After, Little, FormatOf, Playable, Finish;
    var format := UNSET;
    var pos: nat := 12;
    while pos + 8 <= |data|
      invariant Walk(From(data, pos), format) == Walk(Body(data), UNSET)
      decreases |data| - pos
    {
      FromAt(data, pos);
      var id, size := data[pos..pos + 4], Little(data[pos + 4..pos + 8]);
      var start := pos + 8;
      var end := start + size;
      if end > |data| {
        return NoInfo;
      }
      FromBody(data, pos, size);
      var body := data[start..end];
      if id == FMT && size >= 16 {
        if !Playable(body) {
          return NoInfo;
        }
        format := FormatOf(body);
      } else if id == DATA {
        return Finish(format, body);
      }
      pos := end + size % 2;
    }
    Short(data, pos);
    info := NoInfo;
  }

  lemma {:induction false} Short(data: Bytes, pos: nat)
    requires pos + 8 > |data|
    ensures |From(data, pos)| < 8
  {}

  // ---------- what a successful walk means ----------

  /** A chunk as it stands in the file; the size field counts the body, the padding makes it even. */
  datatype Chunk = Chunk(id: Bytes, size: Bytes, body: Bytes, pad: Bytes)

  predicate WellFormed(c: Chunk) {
    |c.id| == |c.size| == 4 && Little(c.size) == |c.body| && |c.pad| == |c.body| % 2
  }

  function Print(c: Chunk): Bytes { c.id + c.size + c.body + c.pad }

  function PrintAll(chunks: seq<Chunk>): Bytes {
    if chunks == [] then [] else Print(chunks[0]) + PrintAll(chunks[1..])
  }

  predicate IsFormat(c: Chunk) { c.id == FMT && |c.body| >= 16 }

  /** The last well-formed format chunk, or the one given. */
  function LastFormat(chunks: seq<Chunk>, otherwise: Format): Format {
    if chunks == [] then otherwise
    else LastFormat(chunks[1..], if IsFormat(chunks[0]) then FormatOf(chunks[0].body) else otherwise)
  }

  ghost predicate AllPlayable(chunks: seq<Chunk>) {
    forall c | c in chunks && IsFormat(c) :: Playable(c.body)
  }

  /** Chunks other than data, then the first data chunk, then anything at all. */
  ghost predicate Layout(bytes: Bytes, before: seq<Chunk>, size: Bytes, body: Bytes, rest: Bytes) {
    && bytes == PrintAll(before) + (DATA + size + body + rest)
    && (forall c | c in before :: WellFormed(c) && c.id != DATA)
    && |size| == 4 && Little(size) == |body|
  }

  /** The walk passes a chunk that is not data, taking up its format. */
  lemma {:induction false} WalkPasses(c: Chunk, tail: Bytes, format: Format)
    requires WellFormed(c) && c.id != DATA
    ensures Walk(Print(c) + tail, format) ==
      if !IsFormat(c) then Walk(tail, format) else if Playable(c.body) then Walk(tail, FormatOf(c.body)) else NoInfo
    ensures |Print(c)| > 0
  {
    var bytes := Print(c) + tail;
    hide Little, Playable, FormatOf, Finish;
    assert bytes == c.id + c.size + c.body + (c.pad + tail);
    AtChunk(c.id, c.size, c.body, c.pad + tail);
    assert After(bytes, |c.body|) == tail;
  }

  lemma {:induction false} WalkEnds(size: Bytes, body: Bytes, rest: Bytes, format: Format)
    requires |size| == 4 && Little(size) == |body|
    ensures Walk(DATA + size + body + rest, format) == Finish(format, body)
  {
    hide Little, Playable, FormatOf, Finish;
    AtChunk(DATA, size, body, rest);
  }

  /** The walk follows any layout. */
  lemma {:induction false} WalkFollows(bytes: Bytes, before: seq<Chunk>, size: Bytes, body: Bytes, rest: Bytes, format: Format)
    requires Layout(bytes, before, size, body, rest)
    ensures Walk(bytes, format) == if AllPlayable(before) then Finish(LastFormat(before, format), body) else NoInfo
    decreases |before|
  {
    hide Walk, Little, Playable, FormatOf, Finish, After, Print;
    if before == [] {
      assert bytes == DATA + size + body + rest;
      WalkEnds(size, body, rest, format);
    } else {
      var c, more := before[0], before[1..];
      var tail := PrintAll(more) + (DATA + size + body + rest);
      assert c in before && forall d | d in more :: d in before;
      assert bytes == Print(c) + tail;
      WalkPasses(c, tail, format);
      WalkFollows(tail, more, size, body, rest, if IsFormat(c) then FormatOf(c.body) else format);
      assert before == [c] + more;
      FirstPlayable(c, more);
    }
  }

  lemma {:induction false} FirstPlayable(c: Chunk, more: seq<Chunk>)
    ensures AllPlayable([c] + more) <==> (IsFormat(c) ==> Playable(c.body)) && AllPlayable(more)
  {
    assert forall d | d in more :: d in [c] + more;
    assert c in [c] + more;
  }

  lemma {:induction false} AtChunk(id: Bytes, size: Bytes, body: Bytes, rest: Bytes)
    requires |id| == |size| == 4
    ensures var bytes := id + size + body + rest;
      && bytes[..4] == id && bytes[4..8] == size && bytes[8..8 + |body|] == body
      && |bytes| == 8 + |body| + |rest| && bytes[8 + |body|..] == rest
  {}

  /** One step of a successful walk. */
  lemma {:induction false} WalkStep(bytes: Bytes, format: Format) returns (c: Chunk)
    requires Walk(bytes, format).Info?
    ensures |c.size| == 4 && Little(c.size) == |c.body|
    ensures c.id == DATA ==> (exists rest :: bytes == DATA + c.size + c.body + rest) && Walk(bytes, format) == Info(format, c.body)
    ensures c.id != DATA ==>
      && WellFormed(c) && bytes == Print(c) + After(bytes, |c.body|) && (IsFormat(c) ==> Playable(c.body))
      && Walk(bytes, format) == Walk(After(bytes, |c.body|), if IsFormat(c) then FormatOf(c.body) else format)
  {
    LongEnough(bytes, format);
    var n := Little(bytes[4..8]);
    c := Chunk(bytes[..4], bytes[4..8], bytes[8..8 + n], if n % 2 == 1 && 8 + n < |bytes| then [bytes[8 + n]] else []);
    hide Walk, Little, Playable, FormatOf, Finish, After;
    WalkUnfolds(bytes, format, n);
    Reads(bytes, n);
    if c.id == DATA {
      FinishKeeps(format, c.body);
      assert bytes == DATA + c.size + c.body + bytes[8 + n..];
    } else {
      NothingLeft(if IsFormat(c) then FormatOf(c.body) else format);
      AfterMeans(bytes, n);
      Joins(bytes, c, After(bytes, n));
    }
  }

  lemma {:induction false} LongEnough(rest: Bytes, format: Format)
    requires Walk(rest, format).Info?
    ensures |rest| >= 8 && |rest| >= 8 + Little(rest[4..8])
  {}

  lemma {:induction false} WalkUnfolds(rest: Bytes, format: Format, size: nat)
    requires Walk(rest, format).Info? && |rest| >= 8 && size == Little(rest[4..8]) && |rest| >= 8 + size
    ensures var body := rest[8..8 + size];
      if rest[..4] == FMT && size >= 16 then Playable(body) && Walk(rest, format) == Walk(After(rest, size), FormatOf(body))
      else if rest[..4] == DATA then Walk(rest, format) == Finish(format, body)
      else Walk(rest, format) == Walk(After(rest, size), format)
  {
    hide After, Little, FormatOf, Finish;
  }

  lemma {:induction false} FinishKeeps(format: Format, body: Bytes)
    requires Finish(format, body).Info?
    ensures Finish(format, body) == Info(format, body)
  {}

  lemma {:induction false} AfterMeans(bytes: Bytes, n: nat)
    requires 8 + n <= |bytes| && After(bytes, n) != []
    ensures 8 + n + n % 2 <= |bytes| && After(bytes, n) == bytes[8 + n + n % 2..]
  {}

  lemma {:induction false} Reads(bytes: Bytes, n: nat)
    requires 8 + n <= |bytes|
    ensures bytes == bytes[..4] + bytes[4..8] + bytes[8..8 + n] + bytes[8 + n..]
  {}

  lemma {:induction false} NothingLeft(format: Format)
    ensures Walk([], format) == NoInfo
  {}

  /** A successful walk has met a layout. */
  lemma {:induction false} WalkMeets(bytes: Bytes, format: Format) returns (before: seq<Chunk>, size: Bytes, rest: Bytes)
    requires Walk(bytes, format).Info?
    ensures Layout(bytes, before, size, Walk(bytes, format).data, rest) && AllPlayable(before)
    ensures Walk(bytes, format).format == LastFormat(before, format)
    decreases |bytes|
  {
    var c := WalkStep(bytes, format);
    hide Walk, Little, Playable, FormatOf, After;
    if c.id == DATA {
      rest :| bytes == DATA + c.size + c.body + rest;
      before, size := [], c.size;
      assert bytes == [] + (DATA + size + c.body + rest);
    } else {
      var next := After(bytes, |c.body|);
      var more: seq<Chunk>;
      more, size, rest := WalkMeets(next, if IsFormat(c) then FormatOf(c.body) else format);
      before := [c] + more;
      hide *;
      FirstPlayable(c, more);
      OneMoreChunk(bytes, c, next, more, size, Walk(bytes, format).data, rest, format);
    }
  }

  lemma {:induction false} OneMoreChunk(bytes: Bytes, c: Chunk, next: Bytes, more: seq<Chunk>, size: Bytes, body: Bytes,
                                        rest: Bytes, format: Format)
    requires Layout(next, more, size, body, rest) && WellFormed(c) && c.id != DATA && bytes == Print(c) + next
    ensures Layout(bytes, [c] + more, size, body, rest)
    ensures LastFormat([c] + more, format) == LastFormat(more, if IsFormat(c) then FormatOf(c.body) else format)
  {
    hide Print, Little, FormatOf;
    assert ([c] + more)[1..] == more;
    assert bytes == Print(c) + PrintAll(more) + (DATA + size + body + rest);
  }

  lemma {:induction false} Joins(bytes: Bytes, c: Chunk, next: Bytes)
    requires |bytes| >= 8 + |c.body| + |c.pad| && WellFormed(c)
    requires c.id == bytes[..4] && c.size == bytes[4..8] && c.body == bytes[8..8 + |c.body|]
    requires c.pad == bytes[8 + |c.body|..8 + |c.body| + |c.pad|] && next == bytes[8 + |c.body| + |c.pad|..]
    ensures bytes == Print(c) + next
  {
    var n := |c.body|;
    hide Little;
    Reads(bytes, n);
    assert bytes[8 + n..] == bytes[8 + n..8 + n + |c.pad|] + bytes[8 + n + |c.pad|..];
    assert c.id + c.size + c.body + (c.pad + next) == Print(c) + next;
  }

  /** `_wav_info` succeeds exactly on a body whose chunks lead to a data chunk, with every format
      chunk on the way playable and at least one of them with a sample width; it returns the last
      such format and that data. */
  lemma {:induction false} InfoIffLayout(bytes: Bytes, format: Format, data: Bytes)
    ensures Walk(bytes, UNSET) == Info(format, data) <==>
      && format.rate > 0 && format.channels > 0 && format.bits > 0
      && exists before, size, rest ::
        Layout(bytes, before, size, data, rest) && AllPlayable(before) && LastFormat(before, UNSET) == format
  {
    if Walk(bytes, UNSET) == Info(format, data) {
      var before, size, rest := WalkMeets(bytes, UNSET);
      WalkFollows(bytes, before, size, data, rest, UNSET);
    }
    if before, size, rest :|
      Layout(bytes, before, size, data, rest) && AllPlayable(before) && LastFormat(before, UNSET) == format {
      WalkFollows(bytes, before, size, data, rest, UNSET);
    }
  }

  // ---------- durations ----------

  datatype Found = Found(format: Format, dataSize: nat)

  datatype Duration = Seconds(value: real) | DivisionByZero

  /** The duration walker keeps what it has when a chunk is cut short, and checks no encoding. */
  function WalkSize(rest: Bytes, format: Format): Found
    decreases |rest|
  {
    if |rest| < 8 || 8 + Little(rest[4..8]) > |rest| then Found(format, 0) else
    var id, size := rest[..4], Little(rest[4..8]);
    var body := rest[8..8 + size];
    if id == FMT && size >= 16 then WalkSize(After(rest, size), FormatOf(body))
    else if id == DATA then Found(format, size)
    else WalkSize(After(rest, size), format)
  }

  predicate IsRiffWave(data: Bytes) { |data| >= 12 && data[..4] == RIFF && data[8..12] == WAVE }

  function Share(size: nat, bytesPerSecond: nat): Duration {
    if bytesPerSecond == 0 then DivisionByZero else Seconds(size as real / bytesPerSecond as real)
  }

  function DurationOf(found: Found): Duration {
    var f := found.format;
    if f.rate == 0 || f.channels == 0 || f.bits == 0 || found.dataSize == 0 then Seconds(0.0)
    else Share(found.dataSize, f.rate * f.channels * f.bits / 8)
  }

  method WavDuration(data: Bytes) returns (duration: Duration)
    ensures duration == if IsRiffWave(data) then DurationOf(WalkSize(Body(data), UNSET)) else Seconds(0.0)
  {
    if !IsRiffWave(data) {
      return Seconds(0.0);
    }
    var found := FindData(data);
    duration := DurationOf(found);
  }

  /** The loop of the duration walker. */
  method FindData(data: Bytes) returns (found: Found)
    ensures found == WalkSize(Body(data), UNSET)
  {
    assert Body(data) == From(data, 12);
    hide *;
    found := Found(UNSET, 0);
    var pos: nat, ended := 12, false;
    while !ended && pos + 8 <= |data|
      invariant if ended then found == WalkSize(From(data, 12), UNSET)
                else found.dataSize == 0 && WalkSize(From(data, pos), found.format) == WalkSize(From(data, 12), UNSET)
      decreases !ended, |data| - pos
    {
      ended, pos, found := FindTurn(data, pos, found.format);
    }
    if !ended { SizeOfNothing(data, pos, found.format); }
  }

  /** One turn of it: the walk ends here, or goes on at a later position. */
  method FindTurn(data: Bytes, pos: nat, format: Format) returns (ended: bool, next: nat, found: Found)
    requires pos + 8 <= |data|
    ensures if ended then WalkSize(From(data, pos), format) == found
            else next > pos && found.dataSize == 0 &&
                 WalkSize(From(data, next), found.format) == WalkSize(From(data, pos), format)
  {
    hide *;
    SizeStep(data, pos, format);
    var size := SizeAt(data, pos);
    var end := pos + 8 + size;
    ended, next, found := true, end + size % 2, Found(format, 0);
    if end > |data| {
      return;
    }
    if HasTag(data, pos, FMT) && size >= 16 {
      ended, found := false, Found(FormatAt(data, pos), 0);
    } else if HasTag(data, pos, DATA) {
      found := Found(format, size);
    } else {
      ended := false;
    }
  }

  /** The fields of the chunk at a position. */
  predicate HasTag(data: Bytes, pos: nat, tag: Bytes)
    requires pos + 8 <= |data|
  { data[pos..pos + 4] == tag }

  function SizeAt(data: Bytes, pos: nat): nat
    requires pos + 8 <= |data|
  { Little(data[pos + 4..pos + 8]) }

  function FormatAt(data: Bytes, pos: nat): Format
    requires pos + 8 <= |data|
  {
    var end := pos + 8 + SizeAt(data, pos);
    if pos + 24 <= end <= |data| then FormatOf(data[pos + 8..end]) else UNSET
  }

  lemma {:induction false} SizeStep(data: Bytes, pos: nat, format: Format)
    requires pos + 8 <= |data|
    ensures var size := SizeAt(data, pos);
      var end := pos + 8 + size;
      WalkSize(From(data, pos), format) ==
      if end > |data| then Found(format, 0)
      else if HasTag(data, pos, FMT) && size >= 16 then WalkSize(From(data, end + size % 2), FormatAt(data, pos))
      else if HasTag(data, pos, DATA) then Found(format, size)
      else WalkSize(From(data, end + size % 2), format)
  {
    FromAt(data, pos);
    var size := SizeAt(data, pos);
    if pos + 8 + size <= |data| { FromBody(data, pos, size); }
    var rest := From(data, pos);
    SizeUnfolds(rest, format, size);
    hide From, After, Little, FormatOf, WalkSize;
  }

  lemma {:induction false} SizeUnfolds(rest: Bytes, format: Format, size: nat)
    requires |rest| >= 8 && size == Little(rest[4..8])
    ensures WalkSize(rest, format) ==
      if 8 + size > |rest| then Found(format, 0)
      else if rest[..4] == FMT && size >= 16 then WalkSize(After(rest, size), FormatOf(rest[8..8 + size]))
      else if rest[..4] == DATA then Found(format, size)
      else WalkSize(After(rest, size), format)
  {
    hide After, Little, FormatOf;
  }

  lemma {:induction false} SizeOfNothing(data: Bytes, pos: nat, format: Format)
    requires pos + 8 > |data|
    ensures WalkSize(From(data, pos), format) == Found(format, 0)
  {}

  /** The duration the validator reports for what `_wav_info` found. */
  function ValidatedDuration(info: Info): Duration
    requires info.Info?
  { Share(|info.data|, info.format.rate * info.format.channels * (info.format.bits / 8)) }

  lemma {:induction false} WalkersMeet(rest: Bytes, format: Format)
    requires Walk(rest, format).Info?
    ensures WalkSize(rest, format) == Found(Walk(rest, format).format, |Walk(rest, format).data|)
    decreases |rest|
  {
    var size := Little(rest[4..8]);
    var body := rest[8..8 + size];
    if rest[..4] == FMT && size >= 16 {
      WalkersMeet(After(rest, size), FormatOf(body));
    } else if rest[..4] != DATA {
      WalkersMeet(After(rest, size), format);
    }
  }

  /** Whenever `_wav_info` succeeds on a RIFF/WAVE body of whole-byte samples, the duration walker
      reports the same duration. */
  lemma {:induction false} WalkersAgree(data: Bytes)
    requires IsRiffWave(data) && Walk(Body(data), UNSET).Info? && Walk(Body(data), UNSET).format.bits % 8 == 0
    ensures DurationOf(WalkSize(Body(data), UNSET)) == ValidatedDuration(Walk(Body(data), UNSET))
    ensures DurationOf(WalkSize(Body(data), UNSET)).Seconds?
  {
    var info := Walk(Body(data), UNSET);
    var f := info.format;
    WalkersMeet(Body(data), UNSET);
    InfoIffLayout(Body(data), f, info.data);
    hide *;
    SameShare(f, |info.data|);
    assert info == Info(f, info.data);
    ValidatedShare(info);
  }

  lemma {:induction false} ValidatedShare(info: Info)
    requires info.Info?
    ensures ValidatedDuration(info) ==
            Share(|info.data|, info.format.rate * info.format.channels * (info.format.bits / 8))
  {}

  lemma {:induction false} SameShare(f: Format, size: nat)
    requires f.rate > 0 && f.channels > 0 && f.bits > 0 && f.bits % 8 == 0
    ensures DurationOf(Found(f, size)) == Share(size, f.rate * f.channels * (f.bits / 8))
    ensures DurationOf(Found(f, size)).Seconds?
  {
    WholeBytes(f.rate, f.channels, f.bits / 8);
    assert f.bits / 8 * 8 == f.bits;
  }

  lemma {:induction false} WholeBytes(rate: nat, channels: nat, width: nat)
    requires rate > 0 && channels > 0 && width > 0
    ensures rate * channels * (width * 8) / 8 == rate * channels * width > 0
    ensures rate * (channels * (width * 8) / 8) == rate * channels * width
  {
    assert rate * channels > 0;
    assert rate * channels * (width * 8) == 8 * (rate * channels * width);
    assert channels * (width * 8) == 8 * (channels * width);
    assert rate * (channels * width) == rate * channels * width;
  }

  // ---------- the canonical header ----------

  /** The fixed-offset reader takes everything after byte 44 as samples. */
  function GetWavDuration(data: Bytes): Duration {
    if |data| <= 44 then Seconds(0.0) else
      var f := Format(Little(data[24..28]), Little(data[22..24]), Little(data[34..36]));
      if f.rate == 0 || f.channels == 0 || f.bits == 0 then Seconds(0.0)
      else Share(|data| - 44, f.rate * (f.channels * f.bits / 8))
  }

  function Canonical(riffSize: Bytes, format: Bytes, size: Bytes, samples: Bytes): Bytes {
    RIFF + riffSize + WAVE + (FMT + [16, 0, 0, 0] + format + []) + (DATA + size + samples + [])
  }

  lemma {:induction false} CanonicalWalk(riffSize: Bytes, format: Bytes, size: Bytes, samples: Bytes)
    requires |riffSize| == |size| == 4 && |format| == 16 && Little(size) == |samples|
    requires Playable(format) && FormatOf(format).bits > 0
    ensures var data := Canonical(riffSize, format, size, samples);
      IsRiffWave(data) && Walk(Body(data), UNSET) == Info(FormatOf(format), samples)
  {
    var data := Canonical(riffSize, format, size, samples);
    var c := Chunk(FMT, [16, 0, 0, 0], format, []);
    Sixteen();
    CanonicalBody(riffSize, format, size, samples);
    assert LastFormat([c], UNSET) == LastFormat([], FormatOf(format)) == FormatOf(format);
    hide Print, Walk, Little, FormatOf, Canonical, Body, PrintAll, LastFormat;
    WalkFollows(Body(data), [c], size, samples, [], UNSET);
  }

  lemma {:induction false} CanonicalBody(riffSize: Bytes, format: Bytes, size: Bytes, samples: Bytes)
    requires |riffSize| == 4
    ensures var data := Canonical(riffSize, format, size, samples);
      IsRiffWave(data) && Body(data) == PrintAll([Chunk(FMT, [16, 0, 0, 0], format, [])]) + (DATA + size + samples + [])
  {
    var data, c := Canonical(riffSize, format, size, samples), Chunk(FMT, [16, 0, 0, 0], format, []);
    assert PrintAll([c]) == Print(c) + PrintAll([]) == Print(c);
    var rest := (FMT + [16, 0, 0, 0] + format + []) + (DATA + size + samples + []);
    assert data == RIFF + riffSize + WAVE + rest;
    assert data[..4] == RIFF && data[8..12] == WAVE && data[12..] == rest;
  }

  lemma {:induction false} Sixteen()
    ensures Little([16, 0, 0, 0]) == 16
  {
    assert Little([0]) == 0 + 256 * Little([]);
    assert Little([0, 0]) == 0 + 256 * Little([0]);
    assert Little([0, 0, 0]) == 0 + 256 * Little([0, 0]);
    assert Little([16, 0, 0, 0]) == 16 + 256 * Little([0, 0, 0]);
  }

  lemma {:induction false} CanonicalOffsets(riffSize: Bytes, format: Bytes, size: Bytes, samples: Bytes)
    requires |riffSize| == |size| == 4 && |format| == 16
    ensures var data := Canonical(riffSize, format, size, samples);
      && |data| == 44 + |samples|
      && Format(Little(data[24..28]), Little(data[22..24]), Little(data[34..36])) == FormatOf(format)
  {
    var data := Canonical(riffSize, format, size, samples);
    assert data[20..36] == format;
    assert data[24..28] == format[4..8] && data[22..24] == format[2..4] && data[34..36] == format[14..16];
  }

  /** On a canonical 44-byte header all three durations agree for whole-byte samples. */
  lemma {:induction false} CanonicalAgree(riffSize: Bytes, format: Bytes, size: Bytes, samples: Bytes)
    requires |riffSize| == |size| == 4 && |format| == 16 && Little(size) == |samples|
    requires Playable(format) && FormatOf(format).bits > 0 && FormatOf(format).bits % 8 == 0
    ensures var data := Canonical(riffSize, format, size, samples);
      && IsRiffWave(data) && Walk(Body(data), UNSET) == Info(FormatOf(format), samples)
      && GetWavDuration(data) == DurationOf(WalkSize(Body(data), UNSET)) == ValidatedDuration(Walk(Body(data), UNSET))
  {
    var data, f := Canonical(riffSize, format, size, samples), FormatOf(format);
    CanonicalWalk(riffSize, format, size, samples);
    CanonicalOffsets(riffSize, format, size, samples);
    hide Walk, WalkSize, Little, Canonical, Body;
    WalkersAgree(data);
    WholeBytes(f.rate, f.channels, f.bits / 8);
    assert f.bits / 8 * 8 == f.bits;
  }

  // ---------- the bytes themselves ----------

  lemma {:induction false} LittleTwo(b: Bytes)
    requires |b| == 2
    ensures Little(b) == b[0] as int + 256 * b[1] as int
  {
    assert b[1..][1..] == [];
    assert Little(b[1..]) == b[1] as int + 256 * Little(b[1..][1..]) == b[1] as int;
  }

  lemma {:induction false} LittleFour(b: Bytes)
    requires |b| == 4
    ensures Little(b) == b[0] as int + 256 * b[1] as int + 65536 * b[2] as int + 16777216 * b[3] as int
  {
    LittleTwo(b[2..]);
    assert b[1..][1..] == b[2..];
    assert Little(b[1..]) == b[1] as int + 256 * Little(b[2..]);
  }

  /** Where the fields of a format chunk stand, and when it is accepted: plain PCM, some channel and
      some rate. */
  lemma {:induction false} FormatBytes(body: Bytes)
    requires |body| >= 16
    ensures FormatOf(body).rate ==
            body[4] as int + 256 * body[5] as int + 65536 * body[6] as int + 16777216 * body[7] as int
    ensures FormatOf(body).channels == body[2] as int + 256 * body[3] as int
    ensures FormatOf(body).bits == body[14] as int + 256 * body[15] as int
    ensures Playable(body) <==>
      && body[0] == 1 && body[1] == 0 && (body[2] != 0 || body[3] != 0)
      && (body[4] != 0 || body[5] != 0 || body[6] != 0 || body[7] != 0)
  {
    LittleTwo(body[..2]);
    LittleTwo(body[2..4]);
    LittleFour(body[4..8]);
    LittleTwo(body[14..16]);
    hide Little;
  }

  lemma {:induction false} TagBytes()
    ensures RIFF == ['R' as int, 'I' as int, 'F' as int, 'F' as int]
    ensures WAVE == ['W' as int, 'A' as int, 'V' as int, 'E' as int]
    ensures FMT == ['f' as int, 'm' as int, 't' as int, ' ' as int]
    ensures DATA == ['d' as int, 'a' as int, 't' as int, 'a' as int]
  {}

  // ---------- the duration walker on its own ----------

  /** The duration walker finds the size of the first data chunk and the last format before it,
      whatever their encoding. */
  lemma {:induction false} SizeFollows(bytes: Bytes, before: seq<Chunk>, size: Bytes, body: Bytes, rest: Bytes, format: Format)
    requires Layout(bytes, before, size, body, rest)
    ensures WalkSize(bytes, format) == Found(LastFormat(before, format), |body|)
    decreases |before|
  {
    hide WalkSize, Little, FormatOf, After, Print;
    if before == [] {
      assert bytes == DATA + size + body + rest;
      SizeEnds(size, body, rest, format);
    } else {
      var c, more := before[0], before[1..];
      var tail := PrintAll(more) + (DATA + size + body + rest);
      assert c in before && forall d | d in more :: d in before;
      assert bytes == Print(c) + tail;
      SizePasses(c, tail, format);
      SizeFollows(tail, more, size, body, rest, if IsFormat(c) then FormatOf(c.body) else format);
    }
  }

  lemma {:induction false} SizeEnds(size: Bytes, body: Bytes, rest: Bytes, format: Format)
    requires |size| == 4 && Little(size) == |body|
    ensures WalkSize(DATA + size + body + rest, format) == Found(format, |body|)
  {
    hide Little, FormatOf;
    AtChunk(DATA, size, body, rest);
  }

  lemma {:induction false} SizePasses(c: Chunk, tail: Bytes, format: Format)
    requires WellFormed(c) && c.id != DATA
    ensures WalkSize(Print(c) + tail, format) == WalkSize(tail, if IsFormat(c) then FormatOf(c.body) else format)
  {
    var bytes := Print(c) + tail;
    hide Little, FormatOf;
    assert bytes == c.id + c.size + c.body + (c.pad + tail);
    AtChunk(c.id, c.size, c.body, c.pad + tail);
    assert After(bytes, |c.body|) == tail;
  }

  /** It finds samples only where there is a data chunk that holds some. */
  lemma {:induction false} SizeMeets(bytes: Bytes, format: Format) returns (before: seq<Chunk>, size: Bytes, body: Bytes, rest: Bytes)
    requires WalkSize(bytes, format).dataSize > 0
    ensures Layout(bytes, before, size, body, rest) && |body| == WalkSize(bytes, format).dataSize
    decreases |bytes|
  {
    var c := SizeStepBack(bytes, format);
    hide WalkSize, Little, FormatOf, After;
    if c.id == DATA {
      rest :| bytes == DATA + c.size + c.body + rest;
      before, size, body := [], c.size, c.body;
      assert bytes == [] + (DATA + size + body + rest);
    } else {
      var next := After(bytes, |c.body|);
      var more: seq<Chunk>;
      var inner := if IsFormat(c) then FormatOf(c.body) else format;
      more, size, body, rest := SizeMeets(next, inner);
      before := [c] + more;
      hide *;
      OneMoreChunk(bytes, c, next, more, size, body, rest, format);
    }
  }

  lemma {:induction false} SizeStepBack(bytes: Bytes, format: Format) returns (c: Chunk)
    requires WalkSize(bytes, format).dataSize > 0
    ensures |c.size| == 4 && Little(c.size) == |c.body|
    ensures c.id == DATA ==> (exists rest :: bytes == DATA + c.size + c.body + rest) && WalkSize(bytes, format).dataSize == |c.body|
    ensures c.id != DATA ==>
      && WellFormed(c) && bytes == Print(c) + After(bytes, |c.body|)
      && WalkSize(bytes, format) == WalkSize(After(bytes, |c.body|), if IsFormat(c) then FormatOf(c.body) else format)
  {
    var n := Little(bytes[4..8]);
    c := Chunk(bytes[..4], bytes[4..8], bytes[8..8 + n], if n % 2 == 1 && 8 + n < |bytes| then [bytes[8 + n]] else []);
    if c.id == DATA {
      Reads(bytes, n);
      assert bytes == DATA + c.size + c.body + bytes[8 + n..];
    } else {
      hide Little, FormatOf;
      var next := if IsFormat(c) then FormatOf(c.body) else format;
      assert WalkSize(bytes, format) == WalkSize(After(bytes, n), next);
      NoSizeLeft(next);
      hide WalkSize;
      Joins(bytes, c, After(bytes, n));
    }
  }

  lemma {:induction false} NoSizeLeft(format: Format)
    ensures WalkSize([], format) == Found(format, 0)
  {}

  /** The duration is the data size over the whole bytes of a second, and a division by zero when a
      second takes less than one byte. */
  lemma {:induction false} DurationInBytes(found: Found, bitsPerSecond: nat)
    requires found.format.rate > 0 && found.format.channels > 0 && found.format.bits > 0
    requires bitsPerSecond == found.format.rate * found.format.channels * found.format.bits
    ensures found.dataSize > 0 && bitsPerSecond < 8 ==> DurationOf(found) == DivisionByZero
    ensures found.dataSize > 0 && bitsPerSecond >= 8 ==>
      DurationOf(found).Seconds? && DurationOf(found).value * (bitsPerSecond / 8) as real == found.dataSize as real
    ensures found.dataSize == 0 ==> DurationOf(found) == Seconds(0.0)
  {}
}
