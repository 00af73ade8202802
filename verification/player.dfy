/** The player object: where its samples come from, the header it keeps,
    and its audio sink.

    The sink is abstracted to the log of buffers written to it and whether
    it is still open; the audio line behind it (its opening with a 4096-byte
    buffer, draining and stopping) is outside the model. */
module Player {
  import opened Outcomes
  import opened LittleEndian
  import WavHeader
  import LocalPlayback

  /** Which constructor built the player: the file one sets `local`, the
      raw-header one leaves it false. The tag never changes afterwards. */
  datatype Source = Local(file: seq<byte>) | Streamed

  /** The audio line as a log of written buffers plus an open flag. */
  datatype Sink = Sink(written: seq<seq<byte>>, open: bool)

  datatype Player = Player(source: Source, header: WavHeader.HeaderBytes, sink: Sink)

  /** A line just opened and started: nothing written yet. */
  const FreshSink: Sink := Sink([], true)

  /** The file constructor: refuses a file shorter than a header, otherwise
      keeps the file's first 44 bytes and opens the sink. */
  function NewLocal(file: seq<byte>): (r: Result<Player>)
    ensures r.Failure? <==> |file| < WavHeader.HeaderSize
    ensures r.Failure? ==> r.error == TruncatedSource
    ensures r.Success? ==> && r.value.source == Local(file)
                           && r.value.header == file[..WavHeader.HeaderSize]
                           && r.value.sink == FreshSink
  {
    match WavHeader.FromFile(file)
    case Failure(e) => Failure(e)
    case Success(h) => Success(Player(Local(file), h, FreshSink))
  }

  /** The raw-header constructor: refuses any length but 44, otherwise keeps
      the buffer as the header and opens the sink, with no file behind it. */
  function NewStreamed(header: seq<byte>): (r: Result<Player>)
    ensures r.Success? <==> |header| == WavHeader.HeaderSize
    ensures r.Failure? ==> r.error == InvalidHeaderSize
    ensures r.Success? ==> && r.value.source == Streamed
                           && r.value.header == header
                           && r.value.sink == FreshSink
  {
    match WavHeader.FromHeaderBuffer(header)
    case Failure(e) => Failure(e)
    case Success(h) => Success(Player(Streamed, h, FreshSink))
  }

  /** `play`: the whole buffer is written to the sink, and nothing else
      about the player changes. */
  function Play(p: Player, buffer: seq<byte>): (r: Player)
    requires p.sink.open
    ensures r.sink.written == p.sink.written + [buffer]
    ensures r.sink.open && r.source == p.source && r.header == p.header
  {
    p.(sink := p.sink.(written := p.sink.written + [buffer]))
  }

  /** Plays every buffer of `chunks` in order. */
  function PlayAll(p: Player, chunks: seq<seq<byte>>): (r: Player)
    requires p.sink.open
    ensures r.sink.written == p.sink.written + chunks
    ensures r.sink.open && r.source == p.source && r.header == p.header
    decreases |chunks|
  {
    if |chunks| == 0 then p
    else
      var r := PlayAll(Play(p, chunks[0]), chunks[1..]);
      assert [chunks[0]] + chunks[1..] == chunks;
      r
  }

  /** True when `playLocal` on p would write to the sink at all. */
  predicate PlayLocalWrites(p: Player)
  {
    p.source.Local? && LocalPlayback.ChunkCount(|p.source.file|) > 0
  }

  /** `playLocal`: a streamed player is left as it is; a local player plays
      the chunks its loop pushes, in order. The sink must be open only when
      something is actually written. */
  function PlayLocal(p: Player): (r: Player)
    requires PlayLocalWrites(p) ==> p.sink.open
    ensures p.source.Streamed? ==> r == p
    ensures p.source.Local? ==> r.sink.written == p.sink.written + LocalPlayback.PushedChunks(p.source.file)
    ensures r.source == p.source && r.header == p.header && r.sink.open == p.sink.open
  {
    match p.source
    case Streamed => p
    case Local(file) =>
      var chunks := LocalPlayback.PushedChunks(file);
      LocalPlayback.PushedChunksShape(file);
      if |chunks| == 0 then p else PlayAll(p, chunks)
  }

  /** `close`: ends the session; what was written stays written. */
  function Close(p: Player): (r: Player)
    requires p.sink.open
    ensures !r.sink.open
    ensures r.sink.written == p.sink.written && r.source == p.source && r.header == p.header
  {
    p.(sink := p.sink.(open := false))
  }

  /** A local player streams its file's samples after the first 90 bytes,
      as 2-byte chunks, in file order, and nothing else. */
  lemma PlayLocalStreamsFile(p: Player)
    requires p.source.Local? && p.sink.open
    ensures var file := p.source.file;
      var added := PlayLocal(p).sink.written[|p.sink.written|..];
      && |added| == LocalPlayback.ChunkCount(|file|)
      && forall j :: 0 <= j < |added| ==> added[j] == file[LocalPlayback.SkippedBytes + 2 * j .. LocalPlayback.SkippedBytes + 2 * j + 2]
  {
    var added := PlayLocal(p).sink.written[|p.sink.written|..];
    assert added == LocalPlayback.PushedChunks(p.source.file);
    LocalPlayback.PushedChunksShape(p.source.file);
  }

  /** Building a player from a file and playing it: the sink receives
      exactly the file's pushed chunks, and the header getters read the
      file's first 44 bytes. */
  lemma NewLocalThenPlay(file: seq<byte>)
    requires |file| >= WavHeader.HeaderSize
    ensures NewLocal(file).Success?
    ensures PlayLocal(NewLocal(file).value).sink.written == LocalPlayback.PushedChunks(file)
    ensures WavHeader.SampleRate(NewLocal(file).value.header) == Signed(file[24..28])
  {
    var p := NewLocal(file).value;
    assert p.header[24..28] == file[24..28];
  }

  /** On a player built from a raw header, `playLocal` is a no-op even on a
      closed sink. */
  lemma StreamedPlayLocalIsNoOp(header: seq<byte>)
    requires |header| == WavHeader.HeaderSize
    ensures NewStreamed(header).Success?
    ensures PlayLocal(NewStreamed(header).value) == NewStreamed(header).value
    ensures PlayLocal(Close(NewStreamed(header).value)) == Close(NewStreamed(header).value)
  {
  }
}
