/**
 * Audio in transit: the fetch worker uploads a file in chunks, the server stores it and
 * sends it on in chunks to the recognition worker. The checksum is any function of the bytes.
 */
module Transfer {
  import opened Wrappers
  import opened AudioPieces

  const MAX_CHUNK := 0x10_0000
  const MAX_AUDIO := 200_000_000
  const MIN_AUDIO := 1024

  type Checksum = seq<byte> -> int

  datatype Chunk = Chunk(offset: int, content: seq<byte>, crc: int)

  datatype UploadMsg =
    | UploadMeta(jobId: int, videoId: int, filename: string, length: int)
    | UploadChunk(chunk: Chunk)
    | UploadEmpty

  datatype DownloadMsg =
    | DownloadMeta(filename: string, length: int, durationSecs: int)
    | DownloadChunk(chunk: Chunk)
    | DownloadEmpty

  datatype Error =
    | MissingMeta | Incomplete | RepeatedMeta | ZeroLength | NegativeLength | TooBig | TooShort
    | BadJob | BadVideo | BadFilename
    | ChunkBeforeMeta | OffsetMismatch | ChecksumMismatch | NoChunk | LongerThanDeclared | LengthMismatch

  // ---- Sending ----

  function ChunkAt(blob: seq<byte>, offset: nat, crc: Checksum): Chunk
    requires offset < |blob|
  {
    var end := if |blob| - offset < MAX_CHUNK then |blob| else offset + MAX_CHUNK;
    Chunk(offset, blob[offset..end], crc(blob[offset..end]))
  }

  // The chunks that carry the blob from `offset` on.
  function Chunks(blob: seq<byte>, offset: nat, crc: Checksum): seq<Chunk>
    requires offset <= |blob|
    decreases |blob| - offset
  {
    if offset == |blob| then []
    else
      var c := ChunkAt(blob, offset, crc);
      [c] + Chunks(blob, offset + |c.content|, crc)
  }

  ghost function Contents(chunks: seq<Chunk>): seq<byte> {
    if chunks == [] then [] else chunks[0].content + Contents(chunks[1..])
  }

  // Each byte is sent exactly once, in order, in the fewest chunks of the allowed size.
  lemma {:induction false} ChunksCarryBlob(blob: seq<byte>, offset: nat, crc: Checksum)
    requires offset <= |blob|
    ensures var chunks := Chunks(blob, offset, crc);
      Contents(chunks) == blob[offset..]
      && |chunks| == (|blob| - offset + MAX_CHUNK - 1) / MAX_CHUNK
      && forall k :: 0 <= k < |chunks| ==> 0 < |chunks[k].content| <= MAX_CHUNK
    decreases |blob| - offset
  {
    if offset < |blob| {
      var c := ChunkAt(blob, offset, crc);
      ChunksCarryBlob(blob, offset + |c.content|, crc);
    }
  }

  // Refills one buffer from the file; the file keeps the size it was opened with.
  method StreamAudio(file: seq<byte>, jobId: int, videoId: int, filename: string, crc: Checksum)
    returns (sent: Option<seq<UploadMsg>>)
    ensures sent.None? <==> |file| > MAX_AUDIO
    ensures sent.Some? ==>
      sent.value == [UploadMeta(jobId, videoId, filename, |file|)] + Uploads(Chunks(file, 0, crc))
  {
    if |file| > MAX_AUDIO {
      return None;
    }
    var length := |file|;
    var messages := [UploadMeta(jobId, videoId, filename, length)];
    ghost var meta := messages;
    var buf := new byte[MAX_CHUNK];
    var offset := 0;
    while offset < length
      invariant 0 <= offset <= length
      invariant meta + Uploads(Chunks(file, 0, crc)) == messages + Uploads(Chunks(file, offset, crc))
    {
      var n := if length - offset < MAX_CHUNK then length - offset else MAX_CHUNK;
      forall i | 0 <= i < n {
        buf[i] := file[offset + i];
      }
      var chunkBytes := buf[..n];
      assert chunkBytes == file[offset..offset + n];
      UploadsCons(ChunkAt(file, offset, crc), Chunks(file, offset + n, crc));
      messages := messages + [UploadChunk(Chunk(offset, chunkBytes, crc(chunkBytes)))];
      offset := offset + n;
      if n < MAX_CHUNK {
        break;
      }
    }
    return Some(messages);
  }

  method GetFetchedAudio(blob: seq<byte>, filename: string, durationSecs: int, crc: Checksum)
    returns (messages: seq<DownloadMsg>)
    ensures messages == [DownloadMeta(filename, |blob|, durationSecs)] + Downloads(Chunks(blob, 0, crc))
  {
    var length := |blob|;
    messages := [DownloadMeta(filename, length, durationSecs)];
    ghost var meta := messages;
    var offset := 0;
    while offset < length
      invariant 0 <= offset <= length
      invariant meta + Downloads(Chunks(blob, 0, crc)) == messages + Downloads(Chunks(blob, offset, crc))
    {
      var chunkSize := if length - offset < MAX_CHUNK then length - offset else MAX_CHUNK;
      var content := blob[offset..offset + chunkSize];
      DownloadsCons(ChunkAt(blob, offset, crc), Chunks(blob, offset + chunkSize, crc));
      messages := messages + [DownloadChunk(Chunk(offset, content, crc(content)))];
      offset := offset + chunkSize;
    }
  }

  ghost function Uploads(chunks: seq<Chunk>): seq<UploadMsg> {
    seq(|chunks|, i requires 0 <= i < |chunks| => UploadChunk(chunks[i]))
  }

  ghost function Downloads(chunks: seq<Chunk>): seq<DownloadMsg> {
    seq(|chunks|, i requires 0 <= i < |chunks| => DownloadChunk(chunks[i]))
  }

  lemma UploadsCons(c: Chunk, rest: seq<Chunk>)
    ensures Uploads([c] + rest) == [UploadChunk(c)] + Uploads(rest)
  {
  }

  lemma DownloadsCons(c: Chunk, rest: seq<Chunk>)
    ensures Downloads([c] + rest) == [DownloadChunk(c)] + Downloads(rest)
  {
  }

  // ---- Receiving an upload ----

  datatype Upload = Upload(jobId: int, videoId: int, filename: string, declaredLen: nat, data: seq<byte>)

  const NO_UPLOAD := Upload(0, 0, "", 0, [])

  function IndexOfDot(s: string): int {
    if s == "" then -1
    else if s[0] == '.' then 0
    else var rest := IndexOfDot(s[1..]); if rest < 0 then -1 else rest + 1
  }

  predicate ValidFilename(filename: string) {
    |filename| > 3 && 1 <= IndexOfDot(filename) && IndexOfDot(filename) + 1 < |filename|
  }

  lemma {:induction false} FirstDot(s: string)
    ensures IndexOfDot(s) == -1 <==> '.' !in s
    ensures IndexOfDot(s) != -1 ==>
      0 <= IndexOfDot(s) < |s| && s[IndexOfDot(s)] == '.' && forall i :: 0 <= i < IndexOfDot(s) ==> s[i] != '.'
  {
    if s != "" && s[0] != '.' {
      FirstDot(s[1..]);
      assert s == [s[0]] + s[1..];
    }
  }

  // More than three characters, not beginning with a dot, and a dot before the last character.
  lemma ValidFilenameMeans(filename: string)
    ensures ValidFilename(filename)
            <==> |filename| > 3 && filename[0] != '.' && exists i :: 0 < i < |filename| - 1 && filename[i] == '.'
  {
    FirstDot(filename);
    hide IndexOfDot;
  }

  // A negative length passes all checks and then stops the handler when the buffer is to be grown by it.
  function ReceiveMeta(u: Upload, jobId: int, videoId: int, filename: string, length: int): Result<Upload, Error> {
    if u.declaredLen > 0 then Err(RepeatedMeta)
    else if length == 0 then Err(ZeroLength)
    else if length > MAX_AUDIO then Err(TooBig)
    else if jobId <= 0 then Err(BadJob)
    else if videoId <= 0 then Err(BadVideo)
    else if !ValidFilename(filename) then Err(BadFilename)
    else if length < 0 then Err(NegativeLength)
    else Ok(Upload(jobId, videoId, filename, length, u.data))
  }

  function ReceiveChunk(u: Upload, c: Chunk, crc: Checksum): Result<Upload, Error> {
    if u.declaredLen == 0 then Err(ChunkBeforeMeta)
    else if |u.data| != c.offset then Err(OffsetMismatch)
    else if crc(c.content) != c.crc then Err(ChecksumMismatch)
    else Ok(u.(data := u.data + c.content))
  }

  function Receive(u: Upload, m: UploadMsg, crc: Checksum): Result<Upload, Error> {
    match m
    case UploadMeta(jobId, videoId, filename, length) => ReceiveMeta(u, jobId, videoId, filename, length)
    case UploadChunk(c) => ReceiveChunk(u, c, crc)
    case UploadEmpty => Ok(u)
  }

  function ReceiveAll(u: Upload, messages: seq<UploadMsg>, crc: Checksum): Result<Upload, Error>
    decreases |messages|
  {
    if messages == [] then Ok(u)
    else match Receive(u, messages[0], crc)
      case Err(e) => Err(e)
      case Ok(next) => ReceiveAll(next, messages[1..], crc)
  }

  // The verdict at the end of the stream.
  function Received(messages: seq<UploadMsg>, crc: Checksum): Result<Upload, Error> {
    match ReceiveAll(NO_UPLOAD, messages, crc)
    case Err(e) => Err(e)
    case Ok(u) =>
      if u.declaredLen == 0 then Err(MissingMeta)
      else if |u.data| != u.declaredLen then Err(Incomplete)
      else Ok(u)
  }

  method CompleteFetch(messages: seq<UploadMsg>, crc: Checksum) returns (result: Result<Upload, Error>)
    ensures result == Received(messages, crc)
  {
    var accumulator: seq<byte> := [];
    var jobID, videoID, filename := 0, 0, "";
    var declaredLen: nat := 0;
    for i := 0 to |messages|
      invariant ReceiveAll(NO_UPLOAD, messages, crc)
             == ReceiveAll(Upload(jobID, videoID, filename, declaredLen, accumulator), messages[i..], crc)
    {
      assert messages[i..][0] == messages[i] && messages[i..][1..] == messages[i + 1..];
      match messages[i] {
        case UploadMeta(job, video, name, length) =>
          if declaredLen > 0 {
            return Err(RepeatedMeta);
          }
          jobID, videoID, filename := job, video, name;
          if length == 0 {
            return Err(ZeroLength);
          }
          if length > MAX_AUDIO {
            return Err(TooBig);
          }
          if jobID <= 0 {
            return Err(BadJob);
          }
          if videoID <= 0 {
            return Err(BadVideo);
          }
          if !ValidFilename(filename) {
            return Err(BadFilename);
          }
          if length < 0 {
            return Err(NegativeLength);
          }
          declaredLen := length;
        case UploadChunk(c) =>
          if declaredLen == 0 {
            return Err(ChunkBeforeMeta);
          }
          var localSize := |accumulator|;
          if localSize != c.offset {
            return Err(OffsetMismatch);
          }
          var calculated := crc(c.content);
          if calculated != c.crc {
            return Err(ChecksumMismatch);
          }
          accumulator := accumulator + c.content;
        case UploadEmpty =>
      }
    }
    assert messages[|messages|..] == [];
    if declaredLen == 0 {
      return Err(MissingMeta);
    }
    if |accumulator| != declaredLen {
      return Err(Incomplete);
    }
    return Ok(Upload(jobID, videoID, filename, declaredLen, accumulator));
  }

  // ---- What an accepted upload looks like ----

  // The messages that say something.
  ghost function Said(messages: seq<UploadMsg>): seq<UploadMsg> {
    if messages == [] then []
    else if messages[0].UploadEmpty? then Said(messages[1..])
    else [messages[0]] + Said(messages[1..])
  }

  // The chunks follow one another from the offset on, and their checksums are right.
  ghost predicate Follow(chunks: seq<Chunk>, offset: nat, crc: Checksum) {
    chunks == []
    || (chunks[0].offset == offset && chunks[0].crc == crc(chunks[0].content)
        && Follow(chunks[1..], offset + |chunks[0].content|, crc))
  }

  ghost predicate OnlyChunks(said: seq<UploadMsg>) { forall k :: 0 <= k < |said| ==> said[k].UploadChunk? }

  ghost function ChunksOf(said: seq<UploadMsg>): seq<Chunk>
    requires OnlyChunks(said)
  {
    seq(|said|, k requires 0 <= k < |said| => said[k].chunk)
  }

  ghost predicate GoodMeta(m: UploadMsg) {
    m.UploadMeta? && 0 < m.length <= MAX_AUDIO && m.jobId > 0 && m.videoId > 0 && ValidFilename(m.filename)
  }

  // One good meta message, and chunks after it.
  ghost predicate IsStream(said: seq<UploadMsg>, crc: Checksum) {
    said != [] && GoodMeta(said[0]) && OnlyChunks(said[1..]) && Follow(ChunksOf(said[1..]), 0, crc)
  }

  // Besides, the chunks make up the declared length.
  ghost predicate IsUpload(said: seq<UploadMsg>, crc: Checksum) {
    IsStream(said, crc) && |Contents(ChunksOf(said[1..]))| == said[0].length
  }

  lemma {:induction false} DeclaredTakesChunks(u: Upload, messages: seq<UploadMsg>, crc: Checksum)
    requires u.declaredLen > 0
    ensures var r, said := ReceiveAll(u, messages, crc), Said(messages);
      && (r.Ok? <==> OnlyChunks(said) && Follow(ChunksOf(said), |u.data|, crc))
      && (r.Ok? ==> r.value == u.(data := u.data + Contents(ChunksOf(said))))
    decreases |messages|
  {
    var said := Said(messages);
    if messages == [] {
    } else if messages[0].UploadEmpty? {
      DeclaredTakesChunks(u, messages[1..], crc);
    } else {
      assert said[0] == messages[0] && said[1..] == Said(messages[1..]);
      if messages[0].UploadChunk? {
        DeclaredTakesChunks(u.(data := u.data + messages[0].chunk.content), messages[1..], crc);
        hide Said;
        OneMoreChunk(said, u.data, crc);
      }
    }
  }

  lemma OneMoreChunk(said: seq<UploadMsg>, data: seq<byte>, crc: Checksum)
    requires said != [] && said[0].UploadChunk?
    ensures OnlyChunks(said) <==> OnlyChunks(said[1..])
    ensures OnlyChunks(said) ==>
      var c := said[0].chunk;
      && (Follow(ChunksOf(said), |data|, crc)
          <==> c.offset == |data| && c.crc == crc(c.content)
               && Follow(ChunksOf(said[1..]), |data + c.content|, crc))
      && data + Contents(ChunksOf(said)) == data + c.content + Contents(ChunksOf(said[1..]))
  {
    assert forall k :: 0 < k < |said| ==> said[k] == said[1..][k - 1];
    if OnlyChunks(said) {
      assert ChunksOf(said) == [said[0].chunk] + ChunksOf(said[1..]) && ChunksOf(said)[1..] == ChunksOf(said[1..]);
    }
  }

  // Nothing is refused on the way exactly if nothing is said, or a stream.
  lemma {:induction false} StreamIsTaken(messages: seq<UploadMsg>, crc: Checksum)
    ensures var r, said := ReceiveAll(NO_UPLOAD, messages, crc), Said(messages);
      && (r.Ok? <==> said == [] || IsStream(said, crc))
      && (said == [] ==> r == Ok(NO_UPLOAD))
      && (IsStream(said, crc) ==>
            r == Ok(Upload(said[0].jobId, said[0].videoId, said[0].filename, said[0].length,
                           Contents(ChunksOf(said[1..])))))
    decreases |messages|
  {
    if messages != [] {
      var m, said := messages[0], Said(messages);
      if m.UploadEmpty? {
        StreamIsTaken(messages[1..], crc);
      } else {
        assert said[0] == m && said[1..] == Said(messages[1..]);
        var u := Receive(NO_UPLOAD, m, crc);
        if u.Ok? {
          DeclaredTakesChunks(u.value, messages[1..], crc);
          assert OnlyChunks(said[1..]) ==> [] + Contents(ChunksOf(said[1..])) == Contents(ChunksOf(said[1..]));
        }
      }
    }
  }

  // The upload is accepted exactly if it is one, and then the audio is what the chunks contain. It
  // ends too early, or too late, exactly if the chunks do not make up the declared length.
  lemma UploadAcceptedExactly(messages: seq<UploadMsg>, crc: Checksum)
    ensures var r, said := Received(messages, crc), Said(messages);
      && (r.Ok? <==> IsUpload(said, crc))
      && (r == Err(MissingMeta) <==> said == [])
      && (r == Err(Incomplete) <==> IsStream(said, crc) && !IsUpload(said, crc))
      && (r.Ok? ==> r.value == Upload(said[0].jobId, said[0].videoId, said[0].filename, said[0].length,
                                      Contents(ChunksOf(said[1..]))))
  {
    StreamIsTaken(messages, crc);
    hide Said, Follow, OnlyChunks, Contents;
    OtherRefusals(NO_UPLOAD, messages, crc);
  }

  // What each refusal says of the message it refuses.
  ghost predicate IsTrue(e: Error, u: Upload, m: UploadMsg, crc: Checksum) {
    match e
    case RepeatedMeta => m.UploadMeta? && u.declaredLen > 0
    case ZeroLength => m.UploadMeta? && m.length == 0
    case NegativeLength => m.UploadMeta? && m.length < 0
    case TooBig => m.UploadMeta? && m.length > MAX_AUDIO
    case BadJob => m.UploadMeta? && m.jobId <= 0
    case BadVideo => m.UploadMeta? && m.videoId <= 0
    case BadFilename => m.UploadMeta? && !ValidFilename(m.filename)
    case ChunkBeforeMeta => m.UploadChunk? && u.declaredLen == 0
    case OffsetMismatch => m.UploadChunk? && m.chunk.offset != |u.data|
    case ChecksumMismatch => m.UploadChunk? && m.chunk.crc != crc(m.chunk.content)
    case _ => false
  }

  lemma RefusalIsTrue(u: Upload, m: UploadMsg, crc: Checksum)
    ensures match Receive(u, m, crc)
            case Err(e) => IsTrue(e, u, m, crc)
            case Ok(_) => forall e :: !IsTrue(e, u, m, crc)
  {
  }

  lemma {:induction false} OtherRefusals(u: Upload, messages: seq<UploadMsg>, crc: Checksum)
    ensures ReceiveAll(u, messages, crc) != Err(MissingMeta) && ReceiveAll(u, messages, crc) != Err(Incomplete)
    decreases |messages|
  {
    if messages != [] {
      match Receive(u, messages[0], crc)
      case Err(_) =>
      case Ok(next) => OtherRefusals(next, messages[1..], crc);
    }
  }

  // ---- A negative length ----

  // A message whose negative length passes all checks of an upload.
  predicate IsNegativeMeta(m: UploadMsg) {
    m.UploadMeta? && m.length < 0 && m.jobId > 0 && m.videoId > 0 && ValidFilename(m.filename)
  }

  ghost predicate OpensNegativeAt(messages: seq<UploadMsg>, i: int) {
    && 0 <= i < |messages| && IsNegativeMeta(messages[i])
    && forall j :: 0 <= j < i ==> messages[j].UploadEmpty?
  }

  // Such a message comes first; empty messages may precede it.
  ghost predicate OpensNegative(messages: seq<UploadMsg>) { exists i :: OpensNegativeAt(messages, i) }

  // Once a length is declared, no later meta message gets that far.
  lemma {:induction false} DeclaredIsNotNegative(u: Upload, messages: seq<UploadMsg>, crc: Checksum)
    requires u.declaredLen > 0
    ensures ReceiveAll(u, messages, crc) != Err(NegativeLength)
    decreases |messages|
  {
    if messages != [] {
      match Receive(u, messages[0], crc)
      case Err(_) =>
      case Ok(next) => DeclaredIsNotNegative(next, messages[1..], crc);
    }
  }

  lemma OpensNegativeHead(messages: seq<UploadMsg>)
    requires messages != []
    ensures OpensNegative(messages)
            <==> IsNegativeMeta(messages[0]) || (messages[0].UploadEmpty? && OpensNegative(messages[1..]))
  {
    var rest := messages[1..];
    assert IsNegativeMeta(messages[0]) ==> OpensNegativeAt(messages, 0);
    if messages[0].UploadEmpty? && OpensNegative(rest) {
      var i :| OpensNegativeAt(rest, i);
      assert OpensNegativeAt(messages, i + 1);
    }
    if OpensNegative(messages) && !IsNegativeMeta(messages[0]) {
      var i :| OpensNegativeAt(messages, i);
      assert OpensNegativeAt(rest, i - 1);
    }
  }

  // The handler is stopped by a negative length exactly when the first message that is not empty
  // declares one and is fine otherwise.
  lemma {:induction false} NegativeLengthStopsExactly(messages: seq<UploadMsg>, crc: Checksum)
    ensures Received(messages, crc) == Err(NegativeLength) <==> OpensNegative(messages)
    decreases |messages|
  {
    if messages != [] {
      OpensNegativeHead(messages);
      match Receive(NO_UPLOAD, messages[0], crc)
      case Err(_) =>
      case Ok(next) =>
        if messages[0].UploadEmpty? {
          NegativeLengthStopsExactly(messages[1..], crc);
        } else {
          DeclaredIsNotNegative(next, messages[1..], crc);
        }
    }
  }

  // An upload of one message that stops the handler.
  lemma NegativeLengthStops(crc: Checksum)
    ensures Received([UploadMeta(1, 1, "a.m4a", -1)], crc) == Err(NegativeLength)
  {
    assert IndexOfDot("a.m4a"[1..]) == 0;
  }

  // A chunk that really is a slice of the blob at its offset.
  ghost predicate Genuine(c: Chunk, blob: seq<byte>) {
    0 <= c.offset <= c.offset + |c.content| <= |blob| && c.content == blob[c.offset..c.offset + |c.content|]
  }

  ghost predicate GenuineUpload(m: UploadMsg, blob: seq<byte>) {
    match m
    case UploadMeta(_, _, _, length) => length == |blob|
    case UploadChunk(c) => Genuine(c, blob)
    case UploadEmpty => true
  }

  ghost predicate Prefix(data: seq<byte>, blob: seq<byte>) { |data| <= |blob| && data == blob[..|data|] }

  // However the messages are dropped, repeated or reordered, the buffer only ever holds a prefix.
  lemma {:induction false} BufferIsPrefix(u: Upload, messages: seq<UploadMsg>, crc: Checksum, blob: seq<byte>)
    requires forall i :: 0 <= i < |messages| ==> GenuineUpload(messages[i], blob)
    requires Prefix(u.data, blob) && (u.declaredLen == 0 || u.declaredLen == |blob|)
    decreases |messages|
    ensures var r := ReceiveAll(u, messages, crc);
      r.Ok? ==> Prefix(r.value.data, blob) && (r.value.declaredLen == 0 || r.value.declaredLen == |blob|)
  {
    if messages != [] {
      match Receive(u, messages[0], crc)
      case Err(_) =>
      case Ok(next) =>
        assert GenuineUpload(messages[0], blob);
        if messages[0].UploadChunk? {
          var c := messages[0].chunk;
          assert blob[..|u.data|] + blob[c.offset..c.offset + |c.content|] == blob[..|u.data| + |c.content|];
        }
        BufferIsPrefix(next, messages[1..], crc, blob);
    }
  }

  // Acceptance implies that the whole blob has arrived.
  lemma AcceptedUploadIsBlob(messages: seq<UploadMsg>, crc: Checksum, blob: seq<byte>)
    requires forall i :: 0 <= i < |messages| ==> GenuineUpload(messages[i], blob)
    ensures Received(messages, crc).Ok? ==> Received(messages, crc).value.data == blob
  {
    BufferIsPrefix(NO_UPLOAD, messages, crc, blob);
    assert blob[..|blob|] == blob;
  }

  lemma {:induction false} ChunksReceived(u: Upload, blob: seq<byte>, offset: nat, crc: Checksum)
    requires offset <= |blob| && u.declaredLen > 0 && u.data == blob[..offset]
    ensures ReceiveAll(u, Uploads(Chunks(blob, offset, crc)), crc) == Ok(u.(data := blob))
    decreases |blob| - offset
  {
    if offset < |blob| {
      var c := ChunkAt(blob, offset, crc);
      var rest := Chunks(blob, offset + |c.content|, crc);
      UploadsCons(c, rest);
      assert u.data + c.content == blob[..offset + |c.content|];
      ChunksReceived(u.(data := u.data + c.content), blob, offset + |c.content|, crc);
      assert ([UploadChunk(c)] + Uploads(rest))[1..] == Uploads(rest);
    } else {
      assert blob[..offset] == blob;
    }
  }

  // The sender's own sequence is accepted exactly within the receiver's limits.
  lemma {:induction false} UploadAccepted(blob: seq<byte>, jobId: int, videoId: int, filename: string, crc: Checksum)
    ensures var r := Received([UploadMeta(jobId, videoId, filename, |blob|)] + Uploads(Chunks(blob, 0, crc)), crc);
      (r.Ok? <==> 0 < |blob| <= MAX_AUDIO && jobId > 0 && videoId > 0 && ValidFilename(filename))
      && (r.Ok? ==> r.value == Upload(jobId, videoId, filename, |blob|, blob))
  {
    var meta := UploadMeta(jobId, videoId, filename, |blob|);
    var messages := [meta] + Uploads(Chunks(blob, 0, crc));
    assert messages[1..] == Uploads(Chunks(blob, 0, crc));
    var u := Receive(NO_UPLOAD, meta, crc);
    if u.Ok? {
      ChunksReceived(u.value, blob, 0, crc);
    }
  }

  // ---- Receiving a download ----

  function TakeChunks(written: seq<byte>, declared: int, messages: seq<DownloadMsg>, crc: Checksum)
    : Result<seq<byte>, Error>
    decreases |messages|
  {
    if messages == [] then (if |written| != declared then Err(LengthMismatch) else Ok(written))
    else if !messages[0].DownloadChunk? then Err(NoChunk)
    else
      var c := messages[0].chunk;
      if c.offset != |written| then Err(OffsetMismatch)
      else if crc(c.content) != c.crc then Err(ChecksumMismatch)
      else if |written| + |c.content| > declared then Err(LongerThanDeclared)
      else TakeChunks(written + c.content, declared, messages[1..], crc)
  }

  function Downloaded(messages: seq<DownloadMsg>, crc: Checksum): Result<seq<byte>, Error> {
    if messages == [] || !messages[0].DownloadMeta? then Err(MissingMeta)
    else if messages[0].length < MIN_AUDIO then Err(TooShort)
    else if messages[0].length > MAX_AUDIO then Err(TooBig)
    else TakeChunks([], messages[0].length, messages[1..], crc)
  }

  // What the chunks have left in the file; a chunk beyond the declared length is written before it is refused.
  function Appended(written: seq<byte>, declared: int, messages: seq<DownloadMsg>, crc: Checksum): seq<byte>
    decreases |messages|
  {
    if messages == [] || !messages[0].DownloadChunk? then written
    else
      var c := messages[0].chunk;
      if c.offset != |written| || crc(c.content) != c.crc then written
      else if |written| + |c.content| > declared then written + c.content
      else Appended(written + c.content, declared, messages[1..], crc)
  }

  // The file after these messages, if it has been created at all.
  function FileAfter(messages: seq<DownloadMsg>, crc: Checksum): Option<seq<byte>> {
    if messages == [] || !messages[0].DownloadMeta? || !(MIN_AUDIO <= messages[0].length <= MAX_AUDIO) then None
    else Some(Appended([], messages[0].length, messages[1..], crc))
  }

  method ReceiveFetchedAudio(messages: seq<DownloadMsg>, crc: Checksum)
    returns (result: Result<seq<byte>, Error>, audioFile: Option<seq<byte>>)
    ensures result == Downloaded(messages, crc)
    ensures audioFile == FileAfter(messages, crc)
    ensures result.Ok? ==> audioFile == Some(result.value)
  {
    if |messages| == 0 || !messages[0].DownloadMeta? {
      return Err(MissingMeta), None;
    }
    var declaredLength := messages[0].length;
    if declaredLength < MIN_AUDIO {
      return Err(TooShort), None;
    }
    if declaredLength > MAX_AUDIO {
      return Err(TooBig), None;
    }
    var file: seq<byte> := [];
    var written := 0;
    for i := 1 to |messages|
      invariant written == |file|
      invariant TakeChunks([], declaredLength, messages[1..], crc)
             == TakeChunks(file, declaredLength, messages[i..], crc)
      invariant Appended([], declaredLength, messages[1..], crc) == Appended(file, declaredLength, messages[i..], crc)
    {
      assert messages[i..][0] == messages[i] && messages[i..][1..] == messages[i + 1..];
      if !messages[i].DownloadChunk? {
        return Err(NoChunk), Some(file);
      }
      var chunk := messages[i].chunk;
      if chunk.offset != written {
        return Err(OffsetMismatch), Some(file);
      }
      if crc(chunk.content) != chunk.crc {
        return Err(ChecksumMismatch), Some(file);
      }
      file := file + chunk.content;
      written := written + |chunk.content|;
      if written > declaredLength {
        return Err(LongerThanDeclared), Some(file);
      }
    }
    assert messages[|messages|..] == [];
    if written != declaredLength {
      return Err(LengthMismatch), Some(file);
    }
    return Ok(file), Some(file);
  }

  ghost predicate OnlyDownloadChunks(messages: seq<DownloadMsg>) {
    forall k :: 0 <= k < |messages| ==> messages[k].DownloadChunk?
  }

  ghost function DownloadChunks(messages: seq<DownloadMsg>): seq<Chunk>
    requires OnlyDownloadChunks(messages)
  {
    seq(|messages|, k requires 0 <= k < |messages| => messages[k].chunk)
  }

  lemma {:induction false} ChunksTakenExactly(
    written: seq<byte>, declared: int, messages: seq<DownloadMsg>, crc: Checksum)
    requires |written| <= declared
    ensures var r := TakeChunks(written, declared, messages, crc);
      && (r.Ok? <==> OnlyDownloadChunks(messages) && Follow(DownloadChunks(messages), |written|, crc)
                     && |written| + |Contents(DownloadChunks(messages))| == declared)
      && (r.Ok? ==> r.value == written + Contents(DownloadChunks(messages)))
      && (r == Err(LengthMismatch) <==> OnlyDownloadChunks(messages) && Follow(DownloadChunks(messages), |written|, crc)
                                        && |written| + |Contents(DownloadChunks(messages))| < declared)
      && r != Err(MissingMeta) && r != Err(TooShort) && r != Err(TooBig)
    decreases |messages|
  {
    if messages != [] && messages[0].DownloadChunk? {
      var c, rest := messages[0].chunk, messages[1..];
      assert OnlyDownloadChunks(messages) <==> OnlyDownloadChunks(rest) by {
        assert forall k :: 0 < k < |messages| ==> messages[k] == rest[k - 1];
      }
      if OnlyDownloadChunks(rest) {
        assert DownloadChunks(messages) == [c] + DownloadChunks(rest);
        assert DownloadChunks(messages)[1..] == DownloadChunks(rest);
        assert written + c.content + Contents(DownloadChunks(rest))
            == written + (c.content + Contents(DownloadChunks(rest)));
      }
      if |written| + |c.content| <= declared {
        ChunksTakenExactly(written + c.content, declared, rest, crc);
      }
    }
  }

  // What the first n messages leave when the file held `written` before.
  ghost predicate Leaves(written: seq<byte>, messages: seq<DownloadMsg>, n: nat, crc: Checksum, file: seq<byte>)
    requires n <= |messages|
  {
    && OnlyDownloadChunks(messages[..n]) && Follow(DownloadChunks(messages[..n]), |written|, crc)
    && file == written + Contents(DownloadChunks(messages[..n]))
  }

  // The file grows by every chunk that follows, and by nothing after the first message that does not
  // follow or the first chunk beyond the declared length.
  lemma {:induction false} FileHoldsTakenChunks(
    written: seq<byte>, declared: int, messages: seq<DownloadMsg>, crc: Checksum) returns (n: nat)
    requires |written| <= declared
    ensures n <= |messages|
    ensures var file := Appended(written, declared, messages, crc);
      && Leaves(written, messages, n, crc, file)
      && (n > 0 ==> |file| - |messages[n - 1].chunk.content| <= declared)
      && (n < |messages| && |file| <= declared ==>
            !messages[n].DownloadChunk? || messages[n].chunk.offset != |file|
            || messages[n].chunk.crc != crc(messages[n].chunk.content))
    decreases |messages|
  {
    if messages == [] || !messages[0].DownloadChunk? || messages[0].chunk.offset != |written|
       || messages[0].chunk.crc != crc(messages[0].chunk.content) {
      n := 0;
      assert written == written + Contents(DownloadChunks(messages[..0]));
    } else {
      var next := written + messages[0].chunk.content;
      if |next| > declared {
        n := 1;
        OneMoreLeft(written, messages, 0, crc, next);
      } else {
        n := FileHoldsTakenChunks(next, declared, messages[1..], crc);
        OneMoreLeft(written, messages, n, crc, Appended(next, declared, messages[1..], crc));
        n := n + 1;
      }
    }
  }

  lemma OneMoreLeft(written: seq<byte>, messages: seq<DownloadMsg>, n: nat, crc: Checksum, file: seq<byte>)
    requires n < |messages| && messages[0].DownloadChunk? && messages[0].chunk.offset == |written|
    requires messages[0].chunk.crc == crc(messages[0].chunk.content)
    requires n > 0 ==> Leaves(written + messages[0].chunk.content, messages[1..], n, crc, file)
    requires n == 0 ==> file == written + messages[0].chunk.content
    ensures Leaves(written, messages, n + 1, crc, file)
  {
    var taken, rest := messages[..n + 1], messages[1..][..n];
    assert taken == [messages[0]] + rest;
    assert DownloadChunks(taken) == [messages[0].chunk] + DownloadChunks(rest);
    assert DownloadChunks(taken)[1..] == DownloadChunks(rest);
    assert written + (messages[0].chunk.content + Contents(DownloadChunks(rest)))
        == written + messages[0].chunk.content + Contents(DownloadChunks(rest));
  }

  // A file is created exactly for a meta message with an allowed length, and grows from nothing.
  lemma FileIsCreatedExactly(messages: seq<DownloadMsg>, crc: Checksum) returns (n: nat)
    ensures var created := messages != [] && messages[0].DownloadMeta?
                           && messages[0].length >= MIN_AUDIO && messages[0].length <= MAX_AUDIO;
      && (FileAfter(messages, crc).Some? <==> created)
      && (created ==>
            n <= |messages| - 1
            && Leaves([], messages[1..], n, crc, FileAfter(messages, crc).value))
  {
    n := 0;
    if messages != [] && messages[0].DownloadMeta? && MIN_AUDIO <= messages[0].length <= MAX_AUDIO {
      n := FileHoldsTakenChunks([], messages[0].length, messages[1..], crc);
    }
  }

  // The download is accepted exactly if a meta message with an allowed length comes first and only
  // chunks follow that make up this length.
  lemma DownloadAcceptedExactly(messages: seq<DownloadMsg>, crc: Checksum)
    ensures var r := Downloaded(messages, crc);
      && (r.Ok? <==> messages != [] && messages[0].DownloadMeta? && MIN_AUDIO <= messages[0].length <= MAX_AUDIO
                     && OnlyDownloadChunks(messages[1..]) && Follow(DownloadChunks(messages[1..]), 0, crc)
                     && |Contents(DownloadChunks(messages[1..]))| == messages[0].length)
      && (r.Ok? ==> r.value == Contents(DownloadChunks(messages[1..])))
      && (r == Err(MissingMeta) <==> messages == [] || !messages[0].DownloadMeta?)
      && (r == Err(TooShort) <==> messages != [] && messages[0].DownloadMeta? && messages[0].length < MIN_AUDIO)
      && (r == Err(TooBig) <==> messages != [] && messages[0].DownloadMeta? && messages[0].length > MAX_AUDIO)
  {
    if messages != [] && messages[0].DownloadMeta? && messages[0].length >= MIN_AUDIO {
      ChunksTakenExactly([], messages[0].length, messages[1..], crc);
    }
  }

  ghost predicate GenuineDownload(m: DownloadMsg, blob: seq<byte>) {
    match m
    case DownloadMeta(_, length, _) => length == |blob|
    case DownloadChunk(c) => Genuine(c, blob)
    case DownloadEmpty => true
  }

  lemma {:induction false} FileIsPrefix(written: seq<byte>, messages: seq<DownloadMsg>, crc: Checksum, blob: seq<byte>)
    requires forall i :: 0 <= i < |messages| ==> GenuineDownload(messages[i], blob)
    requires Prefix(written, blob)
    decreases |messages|
    ensures Prefix(Appended(written, |blob|, messages, crc), blob)
    ensures TakeChunks(written, |blob|, messages, crc).Ok? ==> TakeChunks(written, |blob|, messages, crc).value == blob
  {
    if messages == [] {
      assert blob[..|blob|] == blob;
    } else if messages[0].DownloadChunk? {
      var c := messages[0].chunk;
      assert GenuineDownload(messages[0], blob);
      if c.offset == |written| {
        assert blob[..|written|] + blob[c.offset..c.offset + |c.content|] == blob[..|written| + |c.content|];
        FileIsPrefix(written + c.content, messages[1..], crc, blob);
      }
    }
  }

  // At any moment, whatever has been dropped, repeated or reordered, and whatever the verdict will be.
  lemma FileIsAlwaysPrefix(messages: seq<DownloadMsg>, m: nat, crc: Checksum, blob: seq<byte>)
    requires forall i :: 0 <= i < |messages| ==> GenuineDownload(messages[i], blob)
    requires m <= |messages|
    ensures var file := FileAfter(messages[..m], crc); file.Some? ==> Prefix(file.value, blob)
  {
    if FileAfter(messages[..m], crc).Some? {
      assert GenuineDownload(messages[0], blob);
      FileIsPrefix([], messages[..m][1..], crc, blob);
    }
  }

  lemma AcceptedDownloadIsBlob(messages: seq<DownloadMsg>, crc: Checksum, blob: seq<byte>)
    requires forall i :: 0 <= i < |messages| ==> GenuineDownload(messages[i], blob)
    ensures Downloaded(messages, crc).Ok? ==> Downloaded(messages, crc).value == blob
  {
    if Downloaded(messages, crc).Ok? {
      assert GenuineDownload(messages[0], blob);
      FileIsPrefix([], messages[1..], crc, blob);
    }
  }

  lemma {:induction false} ChunksTaken(blob: seq<byte>, offset: nat, crc: Checksum)
    requires offset <= |blob|
    ensures TakeChunks(blob[..offset], |blob|, Downloads(Chunks(blob, offset, crc)), crc) == Ok(blob)
    decreases |blob| - offset
  {
    if offset < |blob| {
      var c := ChunkAt(blob, offset, crc);
      var rest := Chunks(blob, offset + |c.content|, crc);
      DownloadsCons(c, rest);
      assert blob[..offset] + c.content == blob[..offset + |c.content|];
      ChunksTaken(blob, offset + |c.content|, crc);
      assert ([DownloadChunk(c)] + Downloads(rest))[1..] == Downloads(rest);
    } else {
      assert blob[..offset] == blob;
    }
  }

  lemma {:induction false} DownloadAccepted(blob: seq<byte>, filename: string, durationSecs: int, crc: Checksum)
    ensures var r := Downloaded([DownloadMeta(filename, |blob|, durationSecs)] + Downloads(Chunks(blob, 0, crc)), crc);
      (r.Ok? <==> MIN_AUDIO <= |blob| <= MAX_AUDIO) && (r.Ok? ==> r.value == blob)
  {
    var messages := [DownloadMeta(filename, |blob|, durationSecs)] + Downloads(Chunks(blob, 0, crc));
    assert messages[1..] == Downloads(Chunks(blob, 0, crc));
    assert blob[..0] == [];
    ChunksTaken(blob, 0, crc);
  }

  // From the fetch worker's file through the server to the recognition worker's file. The middle
  // gap is real: audio shorter than MIN_AUDIO is stored but can never be handed on.
  method Relay(file: seq<byte>, jobId: int, videoId: int, filename: string, durationSecs: int, crc: Checksum)
    returns (stored: bool, arrived: Option<seq<byte>>)
    ensures stored <==> 0 < |file| <= MAX_AUDIO && jobId > 0 && videoId > 0 && ValidFilename(filename)
    ensures arrived.Some? <==> stored && MIN_AUDIO <= |file|
    ensures arrived.Some? ==> arrived.value == file
  {
    var sent := StreamAudio(file, jobId, videoId, filename, crc);
    if sent.None? {
      return false, None;
    }
    var upload := CompleteFetch(sent.value, crc);
    UploadAccepted(file, jobId, videoId, filename, crc);
    if upload.Err? {
      return false, None;
    }
    var messages := GetFetchedAudio(upload.value.data, filename, durationSecs, crc);
    var download, _ := ReceiveFetchedAudio(messages, crc);
    DownloadAccepted(file, filename, durationSecs, crc);
    match download {
      case Ok(data) => return true, Some(data);
      case Err(_) => return true, None;
    }
  }
}
