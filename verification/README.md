# WAVPlayer in Dafny

A model of `WAVPlayer`, a small Java class that reads the 44-byte canonical
WAV header of a file or a raw header buffer, reads four format fields from
it, and streams a local file's sample bytes to an audio line in 2-byte
chunks.

The files and modules:

- `outcomes.dfy` (`Outcomes`): the two construction errors, `Option` and `Result`.
- `little_endian.dfy` (`LittleEndian`): a `byte` type, Java's little-endian
  `ByteBuffer.getShort`/`getInt` and their inverse writes. It also has a
  reference two's-complement reading of a byte string of any length
  (`Unsigned`, `Signed`), and every decoder is proved equal to it.
- `wav_header.dfy` (`WavHeader`): both constructors' length checks, the
  four getters, per-field setters and the `Parse`/`Encode` round trip.
- `local_playback.dfy` (`LocalPlayback`): the `playLocal` read loop. It is
  given as a recursive function and as a `while` loop, with the count,
  contents and order of the chunks it pushes.
- `player.dfy` (`Player`): the player object. It holds its source tag
  (local file or streamed header), its header, and a sink reduced to a log
  of written buffers plus an open flag.

Everything is a pure function over immutable byte sequences. A file is the
sequence of its bytes.

### Behaviour worth knowing

- The getters return **signed** values. `ByteBuffer.getShort` and `getInt`
  are two's-complement, so a header byte pattern `FF FF FF FF` at offset 24
  reads as sample rate -1 (`WavHeader.HighBitReadsNegative`). WAV stores
  these fields unsigned, but the getters read them signed.
- `playLocal` does not skip the 44-byte header; it skips **90 bytes**. Its
  counter counts 2-byte pairs and it pushes pair `count` only when
  `count > 44`, so pairs 0 to 44 are dropped. That includes the first 46
  sample bytes after the header. For example, a file of 44 + 2N bytes with
  N up to 23 pushes nothing (`LocalPlayback.ShortFilePushesNothing`). A
  reader expecting only the 44-byte header to be skipped would expect N
  pushes.
- The loop's `!= -1` tests can never fail, because `readUnsignedByte`
  returns 0 to 255 and throws at end of file. The loop therefore ends only
  through the caught exception. The model represents that exception as a
  read that returns `None`.

## Model

| member | source | states |
|---|---|---|
| LittleEndian.GetShort | src/WAVPlayer.java:151-153 | reading 2 bytes at an index gives a value in [-32768, 32767], equal to the two's-complement little-endian value of those 2 bytes |
| LittleEndian.GetInt | src/WAVPlayer.java:160-162 | reading 4 bytes at an index gives a value in [-2^31, 2^31-1], equal to the two's-complement little-endian value of those 4 bytes |
| LittleEndian.EncodeShort | src/WAVPlayer.java:151-153 | every 16-bit value has a 2-byte encoding that the signed reading maps back to the value |
| LittleEndian.EncodeInt | src/WAVPlayer.java:160-162 | every 32-bit value has a 4-byte encoding that the signed reading maps back to the value |
| LittleEndian.EncodeSignedShort | src/WAVPlayer.java:151-153 | any 2 bytes are the encoding of the value they read as, so the 16-bit reading is a bijection |
| LittleEndian.EncodeSignedInt | src/WAVPlayer.java:160-162 | any 4 bytes are the encoding of the value they read as, so the 32-bit reading is a bijection |
| LittleEndian.PutShort | src/WAVPlayer.java:151-153 | writing a 16-bit value at an index changes only those 2 bytes, and reading there returns the value |
| LittleEndian.PutInt | src/WAVPlayer.java:160-162 | writing a 32-bit value at an index changes only those 4 bytes, and reading there returns the value |
| WavHeader.FromHeaderBuffer | src/WAVPlayer.java:42-53 | a raw header is accepted if and only if it has exactly 44 bytes, and is then kept unchanged; otherwise the error is InvalidHeaderSize |
| WavHeader.FromFile | src/WAVPlayer.java:20-29 | a file fails with TruncatedSource if and only if it is shorter than 44 bytes; otherwise the header is its first 44 bytes, in order |
| WavHeader.AudioFormat | src/WAVPlayer.java:118-120 | the format tag is the signed little-endian value of bytes 20 and 21, in the 16-bit range |
| WavHeader.Channels | src/WAVPlayer.java:126-128 | the channel count is the signed little-endian value of bytes 22 and 23, in the 16-bit range |
| WavHeader.SampleRate | src/WAVPlayer.java:134-136 | the sample rate is the signed little-endian value of bytes 24 to 27, in the 32-bit range |
| WavHeader.BitsPerSample | src/WAVPlayer.java:142-144 | bits per sample is the signed little-endian value of bytes 34 and 35, in the 16-bit range |
| WavHeader.Parse | src/WAVPlayer.java:118-144 | the four getters of any header fit their Java types |
| WavHeader.SetAudioFormat | src/WAVPlayer.java:118-120 | rewriting the format tag makes its getter return the new value; the other three getters and all bytes except 20 and 21 are unchanged |
| WavHeader.SetChannels | src/WAVPlayer.java:126-128 | rewriting the channel count makes its getter return the new value; the other three getters and all bytes except 22 and 23 are unchanged |
| WavHeader.SetSampleRate | src/WAVPlayer.java:134-136 | rewriting the sample rate makes its getter return the new value; the other three getters and all bytes except 24 to 27 are unchanged |
| WavHeader.SetBitsPerSample | src/WAVPlayer.java:142-144 | rewriting bits per sample makes its getter return the new value; the other three getters and all bytes except 34 and 35 are unchanged |
| WavHeader.Encode | src/WAVPlayer.java:118-162 | encoding any representable format into a header and parsing it gives the format back; bytes outside the four fields are kept |
| WavHeader.EncodeParse | src/WAVPlayer.java:118-162 | re-encoding a header's parsed format into it gives the same header, so the four fields are all the getters depend on |
| WavHeader.MonoCdHeaderFields | test/TestHeader.java:6-12 | a 44-byte PCM header for mono, 16-bit, 44100 Hz audio reads as format 1, 1 channel, 44100 Hz and 16 bits |
| WavHeader.HighBitReadsNegative | src/WAVPlayer.java:160-162 | a sample rate stored as four 0xFF bytes reads as -1, because the read is signed |
| LocalPlayback.ReadUnsignedByte | src/WAVPlayer.java:82 | a read yields the byte at its position while the file lasts, and signals end of file exactly when the position is past the end |
| LocalPlayback.PumpFromShape | src/WAVPlayer.java:82-90 | from pair counter c on, the loop pushes max(0, n/2 - max(c, 45)) chunks; chunk j is bytes 2(max(c,45)+j) and the byte after it |
| LocalPlayback.PumpFromLength | src/WAVPlayer.java:82-90 | from pair counter c on, the loop pushes max(0, n/2 - max(c, 45)) chunks |
| LocalPlayback.PumpFromAt | src/WAVPlayer.java:82-90 | from pair counter c on, the j-th pushed chunk is the file's pair at max(c, 45) + j, as its two bytes |
| LocalPlayback.PushedChunksShape | src/WAVPlayer.java:75-95 | for a file of n bytes, playLocal pushes exactly max(0, n/2 - 45) chunks; chunk j is bytes 90+2j and 91+2j, in file order |
| LocalPlayback.PlayLocalLoop | src/WAVPlayer.java:78-93 | the read loop as written ends by reaching the end of the file, and what it pushes has that count, those contents and that order |
| LocalPlayback.ShortFilePushesNothing | src/WAVPlayer.java:83-88 | a file shorter than 92 bytes pushes nothing, including a header-only 44-byte file |
| LocalPlayback.TrailingOddByteDropped | src/WAVPlayer.java:82 | a file of odd length pushes the same chunks as the file without its last byte |
| LocalPlayback.PumpSkipsPrefix | src/WAVPlayer.java:83-89 | iterations with a pair counter of 44 or less push nothing |
| LocalPlayback.PumpFromConcat | src/WAVPlayer.java:82-90 | from a counter past 44, the pushed bytes joined together are the file from byte 2*count up to its last complete pair |
| LocalPlayback.PushedBytes | src/WAVPlayer.java:75-95 | every pushed chunk has 2 bytes; joined, they are exactly the file from byte 90 up to its last complete pair |
| Player.NewLocal | src/WAVPlayer.java:20-35 | the file constructor fails with TruncatedSource if and only if the file is shorter than 44 bytes; otherwise the player is local, holds the first 44 bytes and has an open, empty sink |
| Player.NewStreamed | src/WAVPlayer.java:42-54 | the raw-header constructor succeeds if and only if the header has 44 bytes (else InvalidHeaderSize); the player is not local, holds that header and has an open, empty sink |
| Player.Play | src/WAVPlayer.java:101-103 | play appends the whole buffer to the sink log and changes nothing else |
| Player.PlayAll | src/WAVPlayer.java:84-87 | playing buffers one after another appends them all to the log, in order |
| Player.PlayLocal | src/WAVPlayer.java:75-95 | playLocal leaves a non-local player unchanged; on a local player it appends exactly the loop's pushed chunks to the log; the source, header and open flag never change |
| Player.Close | src/WAVPlayer.java:108-112 | close ends the session, and the written log stays as it was |
| Player.PlayLocalStreamsFile | src/WAVPlayer.java:75-95 | on a local player, playLocal writes max(0, n/2 - 45) chunks; chunk j is bytes 90+2j and 91+2j of the file |
| Player.NewLocalThenPlay | src/WAVPlayer.java:20-35 | a player built from a file of at least 44 bytes exists; playing it writes the file's pushed chunks; its sample rate is read from the file's bytes 24 to 27 |
| Player.StreamedPlayLocalIsNoOp | src/WAVPlayer.java:76 | on a player built from a raw header, playLocal changes nothing, even after close |

## Left out

- The audio line itself is left out: `AudioSystem.getLine`, `open` with a
  4096-byte buffer, `start`, `drain`, `stop` and `close`. These are calls into
  the platform's sound system. The sink is only a log of written buffers and
  an open flag.
- Sink open failure is left out. When `LineUnavailableException` is caught,
  the line stays null, and a later `play` or `close` would throw a
  `NullPointerException`. The model covers only players whose line opened.
- Player.NewLocal, Player.NewStreamed, Player.Play, LocalPlayback.PlayLocalLoop:
  the sink is assumed to accept every format and every 2-byte write. The
  Java sound API throws an uncaught `IllegalArgumentException` in three
  places. `AudioSystem.getLine` throws it when no mixer supports the format
  (`init()`, reached from both constructors). `line.open(format, 4096)`
  throws it when 4096 bytes is not a whole number of frames, for example
  24-bit mono. `line.write(buffer, 0, 2)` throws it when 2 bytes is not a
  whole frame, for example 16-bit stereo, and the `catch (IOException)` in
  `playLocal` does not catch it. So in the source a 44-byte header or a
  long enough file can still fail construction, and `playLocal` on such a
  file stops at its first push. In the model, construction fails only on
  length, and the loop ends only at end of file. These exceptions depend
  on the platform's mixers, which the model does not describe.
- Player.Play, Player.Close: both require an open sink. Behaviour after
  `close` is left to the Java sound line, and calling `close` twice is not
  defined.
- Building the `javax.sound` `AudioFormat` is left out. It converts the
  sample rate to `float`.
- File and stream I/O is left out. This covers opening the file
  (`FileNotFoundException`, which the file constructor can throw before its
  length check), `File.length` and streams that are never closed. A file is
  an immutable byte sequence, so the file cannot change between construction
  and `playLocal`.
- I/O errors other than end of file are left out. The `catch` in `playLocal`
  swallows every `IOException`; in the model the end of the sequence is the
  only way the loop stops.
- LocalPlayback.PlayLocalLoop: the pair counter is an unbounded integer. The
  Java `int` counter would wrap after 2^31 pairs, which needs a file over
  4 GiB.
- Aliasing is left out. The raw-header constructor stores the caller's
  array, not a copy, so a caller that later changes that array changes what
  the getters return. Headers here are immutable values.
- The smoke test in `test/TestHeader.java` is left out. It opens a
  hardcoded file and prints the four fields; only its expected values are
  used, in `WavHeader.MonoCdHeaderFields`.
