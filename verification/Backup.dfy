/** Chunked encrypted backups: framing, nonces, and what decryption accepts. */
module Backup {
  import opened Wrappers
  import opened Bytes

  /** Authenticated encryption under one key: nonce, text and associated data. */
  datatype Aead = Aead(seal: (Bytes, Bytes, Bytes) -> Bytes, open: (Bytes, Bytes, Bytes) -> Option<Bytes>)

  /** Opening what was sealed gives the text back, and sealing adds a tag of fixed length. */
  ghost predicate Faithful(aead: Aead) {
    forall nonce, text, data :: FaithfulOn(aead, nonce, text, data)
  }

  ghost predicate FaithfulOn(aead: Aead, nonce: Bytes, text: Bytes, data: Bytes) {
    && aead.open(nonce, aead.seal(nonce, text, data), data) == Some(text)
    && |aead.seal(nonce, text, data)| == |text| + OVERHEAD
  }

  const MAGIC: Bytes := [80, 66, 68, 66, 49]
  const KEY_SIZE := 32
  const PREFIX_SIZE := 8
  const HEADER_SIZE := 13
  const CHUNK_SIZE := 1048576
  const OVERHEAD := 16
  const MAX_UINT32 := 4294967295
  const WORD: nat := 4

  datatype ReadStatus = More | EndOfFile | Broken

  /** What one call of Read returns: bytes and an error can come together. */
  datatype Read = Read(bytes: Bytes, status: ReadStatus)

  datatype BackupError = InvalidKey | ChunkLimit | SourceError

  datatype Metadata = Metadata(plaintext: Bytes, encrypted: Bytes, total: nat)

  lemma {:induction false} FourBytes()
    ensures Power256(WORD) == MAX_UINT32 + 1
  {
    assert Power256(1) == 256 && Power256(2) == 65536 && Power256(3) == 16777216;
  }

  function MakeNonce(prefix: Bytes, counter: nat): Bytes {
    prefix + BigEndian(counter, WORD)
  }

  /** Within one file no nonce is used twice. */
  lemma {:induction false} NoncesDiffer(prefix: Bytes, i: nat, j: nat)
    requires i <= MAX_UINT32 && j <= MAX_UINT32 && i != j
    ensures MakeNonce(prefix, i) != MakeNonce(prefix, j)
  {
    FourBytes();
    BigEndianRoundTrip(i, WORD);
    BigEndianRoundTrip(j, WORD);
    assert MakeNonce(prefix, i)[|prefix|..] == BigEndian(i, WORD);
    assert MakeNonce(prefix, j)[|prefix|..] == BigEndian(j, WORD);
  }

  // ---------------------------------------------------------------- the format

  function Frame(aead: Aead, prefix: Bytes, counter: nat, chunk: Bytes): Bytes {
    var sealed := aead.seal(MakeNonce(prefix, counter), chunk, BigEndian(counter, WORD));
    BigEndian(|sealed|, WORD) + sealed
  }

  /** Frames with counters from `counter` on. */
  function Frames(aead: Aead, prefix: Bytes, counter: nat, chunks: seq<Bytes>): Bytes
    decreases |chunks|
  {
    if chunks == [] then []
    else Frame(aead, prefix, counter, chunks[0]) + Frames(aead, prefix, counter + 1, chunks[1..])
  }

  const TERMINATOR: Bytes := [0, 0, 0, 0]

  function EncryptedFile(aead: Aead, prefix: Bytes, chunks: seq<Bytes>): Bytes {
    MAGIC + prefix + Frames(aead, prefix, 1, chunks) + TERMINATOR
  }

  function Flat(chunks: seq<Bytes>): Bytes {
    if chunks == [] then [] else chunks[0] + Flat(chunks[1..])
  }

  // ---------------------------------------------------------------- encryption

  /** The non-empty pieces that are read before the end, or the error that comes first. */
  function Chunks(calls: seq<Read>, counter: nat): Result<seq<Bytes>, BackupError> {
    if calls == [] then Ok([])
    else if calls[0].bytes != [] && counter >= MAX_UINT32 then Err(ChunkLimit)
    else if calls[0].status == Broken then Err(SourceError)
    else
      var piece := Piece(calls[0].bytes);
      if calls[0].status == EndOfFile then Ok(piece)
      else
        match Chunks(calls[1..], counter + |piece|)
        case Ok(more) => Ok(piece + more)
        case Err(error) => Err(error)
  }

  function Prepend(chunks: seq<Bytes>, rest: Result<seq<Bytes>, BackupError>): Result<seq<Bytes>, BackupError> {
    match rest
    case Ok(more) => Ok(chunks + more)
    case Err(error) => Err(error)
  }

  function Piece(bytes: Bytes): seq<Bytes> {
    if bytes == [] then [] else [bytes]
  }

  /** The effect of one more read on what has been split off so far. */
  lemma {:induction false} ReadNext(chunks: seq<Bytes>, calls: seq<Read>, i: nat)
    requires i < |calls|
    ensures var read, all := calls[i], Prepend(chunks, Chunks(calls[i..], |chunks|));
      all == if read.bytes != [] && |chunks| >= MAX_UINT32 then Err(ChunkLimit)
             else if read.status == Broken then Err(SourceError)
             else if read.status == EndOfFile then Ok(chunks + Piece(read.bytes))
             else Prepend(chunks + Piece(read.bytes), Chunks(calls[i + 1..], |chunks + Piece(read.bytes)|))
  {
    var piece := Piece(calls[i].bytes);
    assert calls[i..][1..] == calls[i + 1..];
    var rest := Chunks(calls[i + 1..], |chunks| + |piece|);
    if rest.Ok? {
      assert chunks + (piece + rest.value) == chunks + piece + rest.value;
    }
  }

  lemma {:induction false} FramesAppend(aead: Aead, prefix: Bytes, counter: nat, chunks: seq<Bytes>, chunk: Bytes)
    ensures Frames(aead, prefix, counter, chunks + [chunk])
      == Frames(aead, prefix, counter, chunks) + Frame(aead, prefix, counter + |chunks|, chunk)
    decreases |chunks|
  {
    if chunks == [] {
      assert [] + [chunk] == [chunk] && [chunk][1..] == [];
    } else {
      FramesAppend(aead, prefix, counter + 1, chunks[1..], chunk);
      assert (chunks + [chunk])[1..] == chunks[1..] + [chunk];
    }
  }

  lemma {:induction false} FlatAppend(chunks: seq<Bytes>, chunk: Bytes)
    ensures Flat(chunks + [chunk]) == Flat(chunks) + chunk
  {
    if chunks == [] {
      assert [] + [chunk] == [chunk];
    } else {
      FlatAppend(chunks[1..], chunk);
      assert (chunks + [chunk])[1..] == chunks[1..] + [chunk];
    }
  }

  lemma {:induction false} FromNothing(calls: seq<Read>)
    ensures Chunks(calls, 0) == Prepend([], Chunks(calls[0..], 0))
  {
    assert calls[0..] == calls;
    assert Chunks(calls, 0).Ok? ==> [] + Chunks(calls, 0).value == Chunks(calls, 0).value;
  }

  /** What a stream delivers: the bytes of its reads up to and including the first that does not ask for more. */
  function Source(calls: seq<Read>): Bytes {
    if calls == [] then []
    else calls[0].bytes + if calls[0].status == More then Source(calls[1..]) else []
  }

  /** The chunks are the source, also when the last bytes come together with the end. */
  lemma {:induction false} ChunksAreTheSource(calls: seq<Read>, counter: nat)
    requires Chunks(calls, counter).Ok?
    ensures Flat(Chunks(calls, counter).value) == Source(calls)
    decreases |calls|
  {
    if calls != [] {
      var piece := Piece(calls[0].bytes);
      if calls[0].status == More {
        var more := Chunks(calls[1..], counter + |piece|).value;
        ChunksAreTheSource(calls[1..], counter + |piece|);
        assert piece == [] ==> piece + more == more;
        assert piece != [] ==> (piece + more)[1..] == more;
      } else {
        assert piece != [] ==> piece[1..] == [];
      }
    }
  }

  method Encrypt(aead: Aead, key: Bytes, prefix: Bytes, calls: seq<Read>) returns (result: Result<Metadata,
                 BackupError>)
    requires |prefix| == PREFIX_SIZE
    ensures |key| != KEY_SIZE ==> result == Err(InvalidKey)
    ensures |key| == KEY_SIZE ==>
      match Chunks(calls, 0)
      case Err(error) => result == Err(error)
      case Ok(chunks) =>
        result == Ok(Metadata(Source(calls), EncryptedFile(aead, prefix, chunks), |Source(calls)|))
  {
    if |key| != KEY_SIZE {
      return Err(InvalidKey);
    }
    var error, frames, plaintext, total := EncryptChunks(aead, prefix, calls);
    if error.Some? {
      return Err(error.value);
    }
    ChunksAreTheSource(calls, 0);
    result := Ok(Metadata(plaintext, MAGIC + prefix + frames + TERMINATOR, total));
  }

  /** The loop over the source: each non-empty read becomes one frame. */
  method EncryptChunks(aead: Aead, prefix: Bytes, calls: seq<Read>)
    returns (error: Option<BackupError>, written: Bytes, plaintext: Bytes, total: nat)
    ensures error.Some? ==> Chunks(calls, 0) == Err(error.value)
    ensures error.None? ==> Chunks(calls, 0).Ok?
    ensures error.None? ==>
      var chunks := Chunks(calls, 0).value;
      written == Frames(aead, prefix, 1, chunks) && plaintext == Flat(chunks) && total == |plaintext|
  {
    error, written, plaintext, total := None, [], [], 0;
    var counter := 0;
    ghost var chunks: seq<Bytes> := [];
    FromNothing(calls);
    for i := 0 to |calls|
      invariant counter == |chunks| && error.None?
      invariant written == Frames(aead, prefix, 1, chunks) && plaintext == Flat(chunks) && total == |plaintext|
      invariant Chunks(calls, 0) == Prepend(chunks, Chunks(calls[i..], |chunks|))
    {
      var bytes, status := calls[i].bytes, calls[i].status;
      ReadNext(chunks, calls, i);
      if |bytes| > 0 {
        if counter >= MAX_UINT32 {
          error := Some(ChunkLimit);
          return;
        }
        counter := counter + 1;
        FramesAppend(aead, prefix, 1, chunks, bytes);
        FlatAppend(chunks, bytes);
        var frame := SealChunk(aead, prefix, counter, bytes);
        written := written + frame;
        plaintext := plaintext + bytes;
        total := total + |bytes|;
        chunks := chunks + [bytes];
      } else {
        assert chunks + [] == chunks;
      }
      if status == EndOfFile {
        return;
      }
      if status == Broken {
        error := Some(SourceError);
        return;
      }
    }
    NothingLeft(calls, chunks);
  }

  lemma {:induction false} NothingLeft(calls: seq<Read>, chunks: seq<Bytes>)
    ensures Prepend(chunks, Chunks(calls[|calls|..], |chunks|)) == Ok(chunks)
  {
    assert calls[|calls|..] == [] && chunks + [] == chunks;
  }

  method SealChunk(aead: Aead, prefix: Bytes, counter: nat, bytes: Bytes) returns (frame: Bytes)
    ensures frame == Frame(aead, prefix, counter, bytes)
  {
    var sealed := aead.seal(MakeNonce(prefix, counter), bytes, BigEndian(counter, WORD));
    frame := BigEndian(|sealed|, WORD) + sealed;
  }

  // ---------------------------------------------------------------- decryption

  /** Whether the file was accepted, and what had been written by then. */
  datatype Decrypted = Decrypted(ok: bool, written: Bytes)

  function NextCounter(counter: nat): nat {
    if counter == MAX_UINT32 then 0 else counter + 1
  }

  /** One step of reading: nothing usable, the terminator, or a chunk in a frame of some length. */
  datatype FrameRead = Refused | Finished(clean: bool) | Opened(text: Bytes, length: nat)

  function ReadFrame(aead: Aead, prefix: Bytes, counter: nat, rest: Bytes): (r: FrameRead)
    ensures r.Opened? ==> 4 < r.length <= |rest|
  {
    if |rest| < 4 then Refused
    else
      var length := FromBigEndian(rest[..4]);
      if length == 0 then Finished(|rest| == 4)
      else if length > CHUNK_SIZE + OVERHEAD || |rest| < 4 + length then Refused
      else
        match aead.open(MakeNonce(prefix, counter), rest[4..4 + length], BigEndian(counter, WORD))
        case None => Refused
        case Some(text) => Opened(text, 4 + length)
  }

  function DecryptFrames(aead: Aead, prefix: Bytes, counter: nat, rest: Bytes): Decrypted
    decreases |rest|
  {
    match ReadFrame(aead, prefix, NextCounter(counter), rest)
    case Refused => Decrypted(false, [])
    case Finished(clean) => Decrypted(clean, [])
    case Opened(text, length) =>
      var more := DecryptFrames(aead, prefix, NextCounter(counter), rest[length..]);
      Decrypted(more.ok, text + more.written)
  }

  function DecryptFile(aead: Aead, file: Bytes): Decrypted {
    if |file| < HEADER_SIZE || file[..|MAGIC|] != MAGIC then Decrypted(false, [])
    else DecryptFrames(aead, file[|MAGIC|..HEADER_SIZE], 0, file[HEADER_SIZE..])
  }

  lemma {:induction false} Advance(file: Bytes, position: nat, length: nat)
    requires position + length <= |file|
    ensures file[position..][length..] == file[position + length..]
  {}

  method Decrypt(aead: Aead, key: Bytes, file: Bytes) returns (ok: bool, written: Bytes)
    ensures Decrypted(ok, written) == if |key| != KEY_SIZE then Decrypted(false, []) else DecryptFile(aead, file)
  {
    ok, written := false, [];
    if |key| != KEY_SIZE {
      return;
    }
    if |file| < HEADER_SIZE || file[..|MAGIC|] != MAGIC {
      return;
    }
    var prefix := file[|MAGIC|..HEADER_SIZE];
    var position := HEADER_SIZE;
    var counter := 0;
    while true
      invariant HEADER_SIZE <= position <= |file| && counter >= 0
      invariant var rest := DecryptFrames(aead, prefix, counter, file[position..]);
        DecryptFile(aead, file) == Decrypted(rest.ok, written + rest.written)
      decreases |file| - position
    {
      counter := NextCounter(counter);
      var read := ReadOneFrame(aead, prefix, counter, file[position..]);
      match read {
        case Refused =>
          return;
        case Finished(clean) =>
          ok := clean;
          return;
        case Opened(text, length) =>
          Advance(file, position, length);
          Regroup(written, text, DecryptFrames(aead, prefix, counter, file[position + length..]).written);
          written := written + text;
          position := position + length;
      }
    }
  }

  method ReadOneFrame(aead: Aead, prefix: Bytes, counter: nat, rest: Bytes) returns (read: FrameRead)
    ensures read == ReadFrame(aead, prefix, counter, rest)
  {
    if |rest| < 4 {
      return Refused;
    }
    var length := FromBigEndian(rest[..4]);
    if length == 0 {
      return Finished(|rest| == 4);
    }
    if length > CHUNK_SIZE + OVERHEAD || |rest| < 4 + length {
      return Refused;
    }
    var text := aead.open(MakeNonce(prefix, counter), rest[4..4 + length], BigEndian(counter, WORD));
    if text.None? {
      return Refused;
    }
    read := Opened(text.value, 4 + length);
  }

  // ---------------------------------------------------------------- round trip

  ghost predicate Framable(chunks: seq<Bytes>, counter: nat) {
    && counter + |chunks| <= MAX_UINT32
    && forall i :: 0 <= i < |chunks| ==> 0 < |chunks[i]| <= CHUNK_SIZE
  }

  /** Decryption passes over a frame and writes its chunk, whatever follows. */
  lemma {:induction false} FrameOpens(aead: Aead, prefix: Bytes, counter: nat, chunk: Bytes, rest: Bytes)
    requires Faithful(aead) && counter < MAX_UINT32 && 0 < |chunk| <= CHUNK_SIZE
    ensures var more := DecryptFrames(aead, prefix, counter + 1, rest);
      DecryptFrames(aead, prefix, counter, Frame(aead, prefix, counter + 1, chunk) + rest)
      == Decrypted(more.ok, chunk + more.written)
  {
    var nonce, data := MakeNonce(prefix, counter + 1), BigEndian(counter + 1, WORD);
    assert FaithfulOn(aead, nonce, chunk, data);
    var sealed := aead.seal(nonce, chunk, data);
    FourBytes();
    BigEndianRoundTrip(|sealed|, WORD);
    var file := Frame(aead, prefix, counter + 1, chunk) + rest;
    assert file[..4] == BigEndian(|sealed|, WORD);
    assert file[4..4 + |sealed|] == sealed;
    assert file[4 + |sealed|..] == rest;
  }

  /** A file cut inside a frame is refused before anything of that frame is written. */
  lemma {:induction false} CutFrameRefused(aead: Aead, prefix: Bytes, counter: nat, chunk: Bytes, rest: Bytes, k: nat)
    requires Faithful(aead) && 0 < |chunk| <= CHUNK_SIZE
    requires k < |Frame(aead, prefix, counter + 1, chunk)|
    ensures DecryptFrames(aead, prefix, counter, (Frame(aead, prefix, counter + 1, chunk) + rest)[..k])
      == Decrypted(false, [])
  {
    var nonce, data := MakeNonce(prefix, counter + 1), BigEndian(counter + 1, WORD);
    assert FaithfulOn(aead, nonce, chunk, data);
    var sealed := aead.seal(nonce, chunk, data);
    FourBytes();
    BigEndianRoundTrip(|sealed|, WORD);
    var cut := (Frame(aead, prefix, counter + 1, chunk) + rest)[..k];
    if k >= 4 {
      assert cut[..4] == BigEndian(|sealed|, WORD);
    }
  }

  lemma {:induction false} ZeroLength()
    ensures FromBigEndian(TERMINATOR) == 0
  {
    assert TERMINATOR[..3] == [0, 0, 0] && [0, 0, 0][..2] == [0, 0] && [0, 0][..1] == [0] && [0][..0] == [];
    assert FromBigEndian([0]) == 0 && FromBigEndian([0, 0]) == 0 && FromBigEndian([0, 0, 0]) == 0;
  }

  lemma {:induction false} TerminatorEnds(aead: Aead, prefix: Bytes, counter: nat, extra: Bytes)
    ensures DecryptFrames(aead, prefix, counter, TERMINATOR + extra) == Decrypted(extra == [], [])
  {
    ZeroLength();
    assert (TERMINATOR + extra)[..4] == TERMINATOR;
  }

  function Body(aead: Aead, prefix: Bytes, counter: nat, chunks: seq<Bytes>): Bytes {
    Frames(aead, prefix, counter, chunks) + TERMINATOR
  }

  lemma {:induction false} BodyHead(aead: Aead, prefix: Bytes, counter: nat, chunks: seq<Bytes>, extra: Bytes)
    requires chunks != []
    ensures Body(aead, prefix, counter, chunks) + extra
      == Frame(aead, prefix, counter, chunks[0]) + (Body(aead, prefix, counter + 1, chunks[1..]) + extra)
  {}

  lemma {:induction false} BodySplit(aead: Aead, prefix: Bytes, counter: nat, chunks: seq<Bytes>)
    requires chunks != []
    ensures Body(aead, prefix, counter, chunks)
      == Frame(aead, prefix, counter, chunks[0]) + Body(aead, prefix, counter + 1, chunks[1..])
  {}

  /** All chunks are written; the file is accepted exactly if nothing follows the terminator. */
  lemma {:induction false} FramesOpen(aead: Aead, prefix: Bytes, counter: nat, chunks: seq<Bytes>, extra: Bytes)
    requires Faithful(aead) && Framable(chunks, counter)
    ensures DecryptFrames(aead, prefix, counter, Body(aead, prefix, counter + 1, chunks) + extra)
      == Decrypted(extra == [], Flat(chunks))
    decreases |chunks|
  {
    if chunks == [] {
      TerminatorEnds(aead, prefix, counter, extra);
      assert Body(aead, prefix, counter + 1, chunks) == TERMINATOR;
    } else {
      FramesOpen(aead, prefix, counter + 1, chunks[1..], extra);
      FirstOpens(aead, prefix, counter, chunks, extra);
    }
  }

  lemma {:induction false} FirstOpens(aead: Aead, prefix: Bytes, counter: nat, chunks: seq<Bytes>, extra: Bytes)
    requires Faithful(aead) && Framable(chunks, counter) && chunks != []
    ensures var more := DecryptFrames(aead, prefix, counter + 1, Body(aead, prefix, counter + 2, chunks[1..]) + extra);
      DecryptFrames(aead, prefix, counter, Body(aead, prefix, counter + 1, chunks) + extra)
      == Decrypted(more.ok, chunks[0] + more.written)
  {
    BodyHead(aead, prefix, counter + 1, chunks, extra);
    FrameOpens(aead, prefix, counter, chunks[0], Body(aead, prefix, counter + 2, chunks[1..]) + extra);
  }

  /** A cut file is refused, and what was written by then is a prefix of the source. */
  lemma {:induction false} CutFramesRefused(aead: Aead, prefix: Bytes, counter: nat, chunks: seq<Bytes>, k: nat)
    requires Faithful(aead) && Framable(chunks, counter) && k < |Body(aead, prefix, counter + 1, chunks)|
    ensures var cut := DecryptFrames(aead, prefix, counter, Body(aead, prefix, counter + 1, chunks)[..k]);
      !cut.ok && cut.written <= Flat(chunks)
    decreases |chunks|
  {
    var body := Body(aead, prefix, counter + 1, chunks);
    if chunks != [] {
      var frame, rest := Frame(aead, prefix, counter + 1, chunks[0]), Body(aead, prefix, counter + 2, chunks[1..]);
      BodySplit(aead, prefix, counter + 1, chunks);
      if k < |frame| {
        CutFrameRefused(aead, prefix, counter, chunks[0], rest, k);
      } else {
        CutBehind(frame, rest, k);
        CutFramesRefused(aead, prefix, counter + 1, chunks[1..], k - |frame|);
        FrameOpens(aead, prefix, counter, chunks[0], rest[..k - |frame|]);
      }
    }
  }

  /** The pieces of a stream: as many as counters allow, each of what one buffer holds. */
  lemma {:induction false} ChunksFramable(calls: seq<Read>, counter: nat)
    requires Chunks(calls, counter).Ok? && counter <= MAX_UINT32
    requires forall i :: 0 <= i < |calls| ==> |calls[i].bytes| <= CHUNK_SIZE
    ensures Framable(Chunks(calls, counter).value, counter)
    decreases |calls|
  {
    if calls != [] && calls[0].status == More {
      ChunksFramable(calls[1..], counter + |Piece(calls[0].bytes)|);
    }
  }

  lemma {:induction false} HeaderRead(aead: Aead, prefix: Bytes, rest: Bytes)
    requires |prefix| == PREFIX_SIZE
    ensures DecryptFile(aead, MAGIC + prefix + rest) == DecryptFrames(aead, prefix, 0, rest)
  {
    var file := MAGIC + prefix + rest;
    assert file[..|MAGIC|] == MAGIC && file[|MAGIC|..HEADER_SIZE] == prefix && file[HEADER_SIZE..] == rest;
  }

  /** However a source is split into reads, decryption writes exactly its bytes; more bytes behind it are refused. */
  lemma {:induction false} RoundTrip(aead: Aead, prefix: Bytes, calls: seq<Read>, extra: Bytes)
    requires Faithful(aead) && |prefix| == PREFIX_SIZE && Chunks(calls, 0).Ok?
    requires forall i :: 0 <= i < |calls| ==> |calls[i].bytes| <= CHUNK_SIZE
    ensures var chunks := Chunks(calls, 0).value;
      DecryptFile(aead, EncryptedFile(aead, prefix, chunks) + extra) == Decrypted(extra == [], Source(calls))
  {
    var chunks := Chunks(calls, 0).value;
    ChunksAreTheSource(calls, 0);
    ChunksFramable(calls, 0);
    FramesOpen(aead, prefix, 0, chunks, extra);
    assert EncryptedFile(aead, prefix, chunks) + extra == MAGIC + prefix + (Body(aead, prefix, 1, chunks) + extra);
    HeaderRead(aead, prefix, Body(aead, prefix, 1, chunks) + extra);
  }

  lemma {:induction false} FileSplit(aead: Aead, prefix: Bytes, chunks: seq<Bytes>)
    ensures EncryptedFile(aead, prefix, chunks) == (MAGIC + prefix) + Body(aead, prefix, 1, chunks)
  {}

  lemma {:induction false} CutHeaderRefused(aead: Aead, prefix: Bytes, body: Bytes, k: nat)
    requires |prefix| == PREFIX_SIZE && k < HEADER_SIZE
    ensures DecryptFile(aead, ((MAGIC + prefix) + body)[..k]) == Decrypted(false, [])
  {}

  lemma {:induction false} CutFileRefused(aead: Aead, prefix: Bytes, chunks: seq<Bytes>, k: nat)
    requires Faithful(aead) && |prefix| == PREFIX_SIZE && Framable(chunks, 0)
    requires k < |EncryptedFile(aead, prefix, chunks)|
    ensures var cut := DecryptFile(aead, EncryptedFile(aead, prefix, chunks)[..k]);
      !cut.ok && cut.written <= Flat(chunks)
  {
    var header, body := MAGIC + prefix, Body(aead, prefix, 1, chunks);
    FileSplit(aead, prefix, chunks);
    if k < HEADER_SIZE {
      CutHeaderRefused(aead, prefix, body, k);
    } else {
      CutBehind(header, body, k);
      HeaderRead(aead, prefix, body[..k - HEADER_SIZE]);
      CutFramesRefused(aead, prefix, 0, chunks, k - HEADER_SIZE);
    }
  }

  /** Every strict prefix of an encrypted file is refused, having written at most a prefix of the source. */
  lemma {:induction false} StrictPrefixRefused(aead: Aead, prefix: Bytes, calls: seq<Read>, k: nat)
    requires Faithful(aead) && |prefix| == PREFIX_SIZE && Chunks(calls, 0).Ok?
    requires forall i :: 0 <= i < |calls| ==> |calls[i].bytes| <= CHUNK_SIZE
    requires k < |EncryptedFile(aead, prefix, Chunks(calls, 0).value)|
    ensures var cut := DecryptFile(aead, EncryptedFile(aead, prefix, Chunks(calls, 0).value)[..k]);
      !cut.ok && cut.written <= Source(calls)
  {
    ChunksFramable(calls, 0);
    ChunksAreTheSource(calls, 0);
    CutFileRefused(aead, prefix, Chunks(calls, 0).value, k);
  }
}
