/** The 44-byte canonical WAV header a player keeps, and the four format
    fields it reads from it.

    Neither constructor checks chunk tags (`RIFF`, `WAVE`, `fmt `, `data`):
    the only structural check is the length. The getters read fixed offsets
    through a little-endian `ByteBuffer` and so return SIGNED values. */
module WavHeader {
  import opened Outcomes
  import opened LittleEndian

  const HeaderSize: nat := 44

  const AudioFormatOffset: nat := 20
  const ChannelsOffset: nat := 22
  const SampleRateOffset: nat := 24
  const BitsPerSampleOffset: nat := 34

  /** The bytes of a header; every player holds exactly 44 of them. */
  type HeaderBytes = s: seq<byte> | |s| == HeaderSize witness seq(HeaderSize, _ => 0 as byte)

  /** Construction from a raw header buffer: any length but 44 is refused. */
  function FromHeaderBuffer(buffer: seq<byte>): (r: Result<HeaderBytes>)
    ensures r.Success? <==> |buffer| == HeaderSize
    ensures r.Success? ==> r.value == buffer
    ensures r.Failure? ==> r.error == InvalidHeaderSize
  {
    if |buffer| == HeaderSize then Success(buffer) else Failure(InvalidHeaderSize)
  }

  /** Construction from a file: a file shorter than a header is refused,
      otherwise its first 44 bytes are kept, in file order. */
  function FromFile(file: seq<byte>): (r: Result<HeaderBytes>)
    ensures r.Failure? <==> |file| < HeaderSize
    ensures r.Failure? ==> r.error == TruncatedSource
    ensures r.Success? ==> forall k :: 0 <= k < HeaderSize ==> r.value[k] == file[k]
  {
    if |file| < HeaderSize then Failure(TruncatedSource) else Success(file[..HeaderSize])
  }

  /** The audio format tag: 1 for PCM, anything else for a compressed encoding. */
  function AudioFormat(h: HeaderBytes): (r: int)
    ensures IsInt16(r)
    ensures r == Signed(h[20..22])
  {
    GetShort(h, AudioFormatOffset)
  }

  function Channels(h: HeaderBytes): (r: int)
    ensures IsInt16(r)
    ensures r == Signed(h[22..24])
  {
    GetShort(h, ChannelsOffset)
  }

  function SampleRate(h: HeaderBytes): (r: int)
    ensures IsInt32(r)
    ensures r == Signed(h[24..28])
  {
    GetInt(h, SampleRateOffset)
  }

  function BitsPerSample(h: HeaderBytes): (r: int)
    ensures IsInt16(r)
    ensures r == Signed(h[34..36])
  {
    GetShort(h, BitsPerSampleOffset)
  }

  /** The four format fields the player reads, as the getters return them. */
  datatype Format = Format(audioFormat: int, channels: int, sampleRate: int, bitsPerSample: int)
  {
    /** Each field fits the Java type its getter reads it as. */
    predicate Representable()
    {
      IsInt16(audioFormat) && IsInt16(channels) && IsInt32(sampleRate) && IsInt16(bitsPerSample)
    }
  }

  /** All four getters at once. */
  function Parse(h: HeaderBytes): (f: Format)
    ensures f.Representable()
  {
    Format(AudioFormat(h), Channels(h), SampleRate(h), BitsPerSample(h))
  }

  /** True when the bytes of a and b outside the four format fields agree. */
  predicate SameOutsideFields(a: HeaderBytes, b: HeaderBytes)
  {
    forall k :: 0 <= k < HeaderSize && !(20 <= k < 28) && !(34 <= k < 36) ==> a[k] == b[k]
  }

  /** Writing the format tag changes only bytes 20 and 21, so the other three
      getters read what they read before. */
  function SetAudioFormat(h: HeaderBytes, v: int): (r: HeaderBytes)
    requires IsInt16(v)
    ensures AudioFormat(r) == v
    ensures Channels(r) == Channels(h) && SampleRate(r) == SampleRate(h) && BitsPerSample(r) == BitsPerSample(h)
    ensures AgreeOutside(r, h, 20, 22)
  {
    var r := PutShort(h, AudioFormatOffset, v);
    assert r[22..24] == h[22..24] && r[24..28] == h[24..28] && r[34..36] == h[34..36];
    r
  }

  function SetChannels(h: HeaderBytes, v: int): (r: HeaderBytes)
    requires IsInt16(v)
    ensures Channels(r) == v
    ensures AudioFormat(r) == AudioFormat(h) && SampleRate(r) == SampleRate(h) && BitsPerSample(r) == BitsPerSample(h)
    ensures AgreeOutside(r, h, 22, 24)
  {
    var r := PutShort(h, ChannelsOffset, v);
    assert r[20..22] == h[20..22] && r[24..28] == h[24..28] && r[34..36] == h[34..36];
    r
  }

  function SetSampleRate(h: HeaderBytes, v: int): (r: HeaderBytes)
    requires IsInt32(v)
    ensures SampleRate(r) == v
    ensures AudioFormat(r) == AudioFormat(h) && Channels(r) == Channels(h) && BitsPerSample(r) == BitsPerSample(h)
    ensures AgreeOutside(r, h, 24, 28)
  {
    var r := PutInt(h, SampleRateOffset, v);
    assert r[20..22] == h[20..22] && r[22..24] == h[22..24] && r[34..36] == h[34..36];
    r
  }

  function SetBitsPerSample(h: HeaderBytes, v: int): (r: HeaderBytes)
    requires IsInt16(v)
    ensures BitsPerSample(r) == v
    ensures AudioFormat(r) == AudioFormat(h) && Channels(r) == Channels(h) && SampleRate(r) == SampleRate(h)
    ensures AgreeOutside(r, h, 34, 36)
  {
    var r := PutShort(h, BitsPerSampleOffset, v);
    assert r[20..22] == h[20..22] && r[22..24] == h[22..24] && r[24..28] == h[24..28];
    r
  }

  /** Writes a format into a header, keeping every other byte of `base`. */
  function Encode(base: HeaderBytes, f: Format): (r: HeaderBytes)
    requires f.Representable()
    ensures Parse(r) == f
    ensures SameOutsideFields(r, base)
  {
    SetBitsPerSample(SetSampleRate(SetChannels(SetAudioFormat(base, f.audioFormat), f.channels), f.sampleRate), f.bitsPerSample)
  }

  /** The other round trip: re-encoding what a header parses to gives the
      same header back, so the four fields are all a header's format carries. */
  lemma EncodeParse(h: HeaderBytes)
    ensures Encode(h, Parse(h)) == h
  {
    var r := Encode(h, Parse(h));
    EncodeSignedShort(h[20..22]);
    EncodeSignedShort(h[22..24]);
    EncodeSignedInt(h[24..28]);
    EncodeSignedShort(h[34..36]);
    EncodeSignedShort(r[20..22]);
    EncodeSignedShort(r[22..24]);
    EncodeSignedInt(r[24..28]);
    EncodeSignedShort(r[34..36]);
    assert r[20..22] == h[20..22];
    assert r[22..24] == h[22..24];
    assert r[24..28] == h[24..28];
    assert r[34..36] == h[34..36];
    forall k | 0 <= k < HeaderSize
      ensures r[k] == h[k]
    {
      if 20 <= k < 22 {
        assert r[k] == r[20..22][k - 20];
      } else if 22 <= k < 24 {
        assert r[k] == r[22..24][k - 22];
      } else if 24 <= k < 28 {
        assert r[k] == r[24..28][k - 24];
      } else if 34 <= k < 36 {
        assert r[k] == r[34..36][k - 34];
      }
    }
  }

  /** The canonical header of a mono, 16-bit, 44100 Hz PCM file with no
      samples: `RIFF`, size, `WAVE`, `fmt `, 16, tag 1, 1 channel, 44100 Hz,
      88200 bytes per second, block align 2, 16 bits, `data`, size 0. */
  const MonoCdHeader: seq<byte> := [
    0x52, 0x49, 0x46, 0x46,  0x24, 0x00, 0x00, 0x00,  0x57, 0x41, 0x56, 0x45,
    0x66, 0x6D, 0x74, 0x20,  0x10, 0x00, 0x00, 0x00,  0x01, 0x00,  0x01, 0x00,
    0x44, 0xAC, 0x00, 0x00,  0x88, 0x58, 0x01, 0x00,  0x02, 0x00,  0x10, 0x00,
    0x64, 0x61, 0x74, 0x61,  0x00, 0x00, 0x00, 0x00
  ]

  /** The values the smoke test expects of its mono 16-bit 44100 Hz file. */
  lemma MonoCdHeaderFields()
    ensures |MonoCdHeader| == HeaderSize
    ensures AudioFormat(MonoCdHeader) == 1
    ensures Channels(MonoCdHeader) == 1
    ensures SampleRate(MonoCdHeader) == 44100
    ensures BitsPerSample(MonoCdHeader) == 16
  {
  }

  /** A field whose top byte has its high bit set reads as negative: a
      sample rate of 0xFFFF_FFFF bytes decodes to -1, not 4294967295. */
  lemma HighBitReadsNegative(h: HeaderBytes)
    requires h[24] == 0xFF && h[25] == 0xFF && h[26] == 0xFF && h[27] == 0xFF
    ensures SampleRate(h) == -1
  {
  }
}
