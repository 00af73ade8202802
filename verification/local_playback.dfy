/** The chunks `playLocal` pushes to the sink when it streams a local file.

    The loop reads the file from its start two bytes at a time and counts
    PAIRS, not bytes: it pushes the pair with counter `count` only when
    `count > 44`, so the first 45 pairs (90 bytes, not the 44-byte header)
    are never pushed. The stream's end-of-file exception is the loop's only
    exit, because `readUnsignedByte` never returns -1; it is modelled as a
    read that returns `None`. A trailing odd byte is read but never pushed. */
module LocalPlayback {
  import opened Outcomes
  import opened LittleEndian

  /** The loop pushes a pair only once its pair counter exceeds this. */
  const LastSkippedPair: nat := 44
  /** Bytes the loop skips before the first pushed pair: 45 pairs. */
  const SkippedBytes: nat := 2 * (LastSkippedPair + 1)

  /** `readUnsignedByte` at position pos: the byte, or None at end of file. */
  function ReadUnsignedByte(file: seq<byte>, pos: nat): (r: Option<byte>)
    ensures r.Some? <==> pos < |file|
    ensures r.Some? ==> r.value == file[pos]
  {
    if pos < |file| then Some(file[pos]) else None
  }

  /** The chunks pushed from the loop iteration whose pair counter is
      `count` (reading at byte 2 * count) until a read hits end of file. */
  function PumpFrom(file: seq<byte>, count: nat): seq<seq<byte>>
    decreases |file| - 2 * count
  {
    match (ReadUnsignedByte(file, 2 * count), ReadUnsignedByte(file, 2 * count + 1))
    case (Some(first), Some(second)) =>
      (if count > LastSkippedPair then [[first, second]] else []) + PumpFrom(file, count + 1)
    case _ => []
  }

  /** Everything one call of `playLocal` pushes, in push order. */
  function PushedChunks(file: seq<byte>): seq<seq<byte>>
  {
    PumpFrom(file, 0)
  }

  /** How many chunks a file of n bytes yields: max(0, n / 2 - 45). */
  function ChunkCount(n: nat): nat
  {
    if n / 2 > LastSkippedPair + 1 then n / 2 - (LastSkippedPair + 1) else 0
  }

  /** The closed form of the pushed chunks: ChunkCount(|file|) of them, the
      j-th being bytes 90 + 2j and 91 + 2j of the file. */
  predicate IsChunking(file: seq<byte>, chunks: seq<seq<byte>>)
  {
    && |chunks| == ChunkCount(|file|)
    && forall j :: 0 <= j < |chunks| ==>
         SkippedBytes + 2 * j + 2 <= |file| && chunks[j] == file[SkippedBytes + 2 * j .. SkippedBytes + 2 * j + 2]
  }

  function Max(a: int, b: int): int { if a < b then b else a }

  /** From counter `count` on, the loop pushes one chunk per complete pair
      from max(count, 45) on. */
  lemma {:induction false} PumpFromLength(file: seq<byte>, count: nat)
    ensures |PumpFrom(file, count)| == Max(0, |file| / 2 - Max(count, LastSkippedPair + 1))
    decreases |file| - 2 * count
  {
    if 2 * count + 1 < |file| {
      PumpFromLength(file, count + 1);
      assert |PumpFrom(file, count)| == |PumpFrom(file, count + 1)| + (if count > LastSkippedPair then 1 else 0);
    } else {
      assert PumpFrom(file, count) == [];
    }
  }

  /** From counter `count` on, the j-th chunk pushed is the pair at
      max(count, 45) + j, as its two file bytes. */
  lemma {:induction false} PumpFromAt(file: seq<byte>, count: nat, j: nat)
    requires j < |PumpFrom(file, count)|
    ensures var at := 2 * (Max(count, LastSkippedPair + 1) + j);
      at + 2 <= |file| && PumpFrom(file, count)[j] == file[at .. at + 2]
    decreases |file| - 2 * count
  {
    var chunks := PumpFrom(file, count);
    assert 2 * count + 1 < |file|;
    var rest := PumpFrom(file, count + 1);
    if count > LastSkippedPair {
      assert chunks == [[file[2 * count], file[2 * count + 1]]] + rest;
      if j == 0 {
        assert file[2 * count .. 2 * count + 2] == [file[2 * count], file[2 * count + 1]];
      } else {
        assert chunks[j] == rest[j - 1];
        PumpFromAt(file, count + 1, j - 1);
      }
    } else {
      assert chunks == rest;
      PumpFromAt(file, count + 1, j);
    }
  }

  /** From counter `count` on, the loop pushes the pairs from max(count, 45)
      up to the last complete pair, each as its two file bytes. */
  lemma PumpFromShape(file: seq<byte>, count: nat)
    ensures var first := Max(count, LastSkippedPair + 1);
      && |PumpFrom(file, count)| == Max(0, |file| / 2 - first)
      && forall j :: 0 <= j < |PumpFrom(file, count)| ==>
           2 * (first + j) + 2 <= |file| && PumpFrom(file, count)[j] == file[2 * (first + j) .. 2 * (first + j) + 2]
  {
    PumpFromLength(file, count);
    forall j | 0 <= j < |PumpFrom(file, count)| {
      PumpFromAt(file, count, j);
    }
  }

  /** Count, contents and order of what `playLocal` pushes. */
  lemma PushedChunksShape(file: seq<byte>)
    ensures IsChunking(file, PushedChunks(file))
  {
    PumpFromShape(file, 0);
  }

  /** The loop of `playLocal` as written: two reads per iteration, a pair
      counter, a push guarded by `count > 44`, and the end of the file as
      the only exit. Returns the chunks handed to `play`, in order. */
  method PlayLocalLoop(file: seq<byte>) returns (pushed: seq<seq<byte>>)
    ensures IsChunking(file, pushed)
    ensures pushed == PushedChunks(file)
  {
    var count: nat := 0;
    pushed := [];
    while true
      invariant 2 * count <= |file|
      invariant pushed + PumpFrom(file, count) == PushedChunks(file)
      decreases |file| - 2 * count
    {
      var first := ReadUnsignedByte(file, 2 * count);
      if first.None? {
        break;
      }
      var second := ReadUnsignedByte(file, 2 * count + 1);
      if second.None? {
        break;
      }
      var step := if count > LastSkippedPair then [[first.value, second.value]] else [];
      assert PumpFrom(file, count) == step + PumpFrom(file, count + 1);
      if count > LastSkippedPair {
        pushed := pushed + [[first.value, second.value]];
      }
      assert pushed + PumpFrom(file, count + 1) == PushedChunks(file);
      count := count + 1;
    }
    assert PumpFrom(file, count) == [];
    PushedChunksShape(file);
  }

  /** A file too short to reach byte 91 pushes nothing; this includes a
      header-only 44-byte file and every file up to 45 sample pairs. */
  lemma ShortFilePushesNothing(file: seq<byte>)
    requires |file| < SkippedBytes + 2
    ensures PushedChunks(file) == []
  {
    PushedChunksShape(file);
  }

  /** A trailing odd byte is never pushed: dropping it changes nothing. */
  lemma TrailingOddByteDropped(file: seq<byte>)
    requires |file| % 2 == 1
    ensures PushedChunks(file) == PushedChunks(file[..|file| - 1])
  {
    var shorter := file[..|file| - 1];
    PushedChunksShape(file);
    PushedChunksShape(shorter);
    var a, b := PushedChunks(file), PushedChunks(shorter);
    assert |a| == |b|;
    forall j | 0 <= j < |a|
      ensures a[j] == b[j]
    {
      assert file[SkippedBytes + 2 * j .. SkippedBytes + 2 * j + 2] == shorter[SkippedBytes + 2 * j .. SkippedBytes + 2 * j + 2];
    }
  }

  /** All pushed bytes, in push order. */
  function Concat(chunks: seq<seq<byte>>): seq<byte>
  {
    if |chunks| == 0 then [] else chunks[0] + Concat(chunks[1..])
  }

  /** From a counter past the skipped pairs on, the pushed bytes are the
      file from byte 2 * count up to its last complete pair. */
  lemma {:induction false} PumpFromConcat(file: seq<byte>, count: nat)
    requires count > LastSkippedPair
    requires 2 * count <= |file|
    ensures Concat(PumpFrom(file, count)) == file[2 * count .. 2 * (|file| / 2)]
    decreases |file| - 2 * count
  {
    if 2 * count + 1 < |file| {
      PumpFromConcat(file, count + 1);
      var chunks := PumpFrom(file, count);
      assert file[2 * count .. 2 * count + 2] == [file[2 * count], file[2 * count + 1]];
      assert chunks == [file[2 * count .. 2 * count + 2]] + PumpFrom(file, count + 1);
      assert chunks[1..] == PumpFrom(file, count + 1);
      assert file[2 * count .. 2 * (|file| / 2)]
          == file[2 * count .. 2 * count + 2] + file[2 * count + 2 .. 2 * (|file| / 2)];
    }
  }

  /** Each pushed chunk is one 2-byte pair, and together they are exactly
      the file from byte 90 up to its last complete pair: no byte is
      repeated, reordered or skipped after the first 90. */
  lemma PushedBytes(file: seq<byte>)
    requires |file| >= SkippedBytes
    ensures Concat(PushedChunks(file)) == file[SkippedBytes .. 2 * (|file| / 2)]
    ensures forall j :: 0 <= j < |PushedChunks(file)| ==> |PushedChunks(file)[j]| == 2
  {
    PushedChunksShape(file);
    PumpFromConcat(file, LastSkippedPair + 1);
    assert PushedChunks(file) == PumpFrom(file, LastSkippedPair + 1) by {
      PumpSkipsPrefix(file, 0);
    }
  }

  /** Iterations with counter up to 44 push nothing, so the loop's output
      equals what it pushes from counter 45 on. */
  lemma {:induction false} PumpSkipsPrefix(file: seq<byte>, count: nat)
    requires count <= LastSkippedPair + 1
    ensures PumpFrom(file, count) == PumpFrom(file, LastSkippedPair + 1)
    decreases LastSkippedPair + 1 - count
  {
    if count < LastSkippedPair + 1 {
      PumpSkipsPrefix(file, count + 1);
      if 2 * count + 1 >= |file| {
        // The file ends before pair `count`, so both sides are empty.
        assert PumpFrom(file, LastSkippedPair + 1) == [];
      }
    }
  }
}
