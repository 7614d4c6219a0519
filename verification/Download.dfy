/**
 The download of a bitstream body: to the ICAP through a FIFO that tells how
 many words it can take, and to the MCAP word by word.
 */
module Download {
  import opened Words

  const FILE_BUFFER: nat := 1024

  function Shifted(high: int, low: int): int {
    high * 256 + low
  }

  /** The big-endian word at byte i of a body. */
  function WordAt(body: seq<byte>, i: nat): U32
    requires i + 4 <= |body|
  {
    Shifted(Shifted(Shifted(body[i], body[i + 1]), body[i + 2]), body[i + 3])
  }

  /** The first of the four bytes is the most significant. */
  lemma WordIsBigEndian(body: seq<byte>, i: nat)
    requires i + 4 <= |body|
    ensures var a: int, b: int, c: int, d: int := body[i], body[i + 1], body[i + 2], body[i + 3];
            WordAt(body, i) == 0x100_0000 * a + 0x1_0000 * b + 0x100 * c + d
  {
  }

  /** n words from byte i on. */
  function WordsAt(body: seq<byte>, i: nat, n: nat): (words: seq<U32>)
    requires i + 4 * n <= |body|
    ensures |words| == n
  {
    seq(n, k requires 0 <= k < n => WordAt(body, i + 4 * k))
  }

  lemma WordsConcat(body: seq<byte>, i: nat, m: nat, n: nat)
    requires i + 4 * m + 4 * n <= |body|
    ensures WordsAt(body, i, m) + WordsAt(body, i + 4 * m, n) == WordsAt(body, i, m + n)
  {
    forall k | 0 <= k < n
      ensures WordAt(body, i + 4 * m + 4 * k) == WordAt(body, i + 4 * (m + k))
    {
    }
  }

  /** `now` is `was` and behind it the first n words from byte i on. */
  ghost predicate Written(was: seq<U32>, now: seq<U32>, body: seq<byte>, i: nat, n: nat) {
    i + 4 * n <= |body| && now == was + WordsAt(body, i, n)
  }

  lemma WrittenMore(was: seq<U32>, now: seq<U32>, next: seq<U32>, body: seq<byte>, i: nat, m: nat, n: nat)
    requires Written(was, now, body, i, m) && Written(now, next, body, i + 4 * m, n)
    ensures Written(was, next, body, i, m + n)
  {
    WordsConcat(body, i, m, n);
  }

  lemma WrittenOne(was: seq<U32>, now: seq<U32>, body: seq<byte>, i: nat, n: nat)
    requires Written(was, now, body, i, n) && i + 4 * n + 4 <= |body|
    ensures Written(was, now + [WordAt(body, i + 4 * n)], body, i, n + 1)
  {
    WordsConcat(body, i, n, 1);
    assert WordsAt(body, i + 4 * n, 1) == [WordAt(body, i + 4 * n)];
  }

  /** What the device answers: the vacancy at the k-th reading, whether the
      control register of the ICAP still shows a write in progress at the j-th
      poll after the k-th burst, and whether the configuration is done in time. */
  datatype Responses = Responses(vacancy: nat -> int, busy: (nat, nat) -> bool, done: bool)

  /** The k-th burst is flushed within ten polls. */
  predicate Flushed(d: Responses, k: nat) {
    exists j :: 0 <= j < 10 && !d.busy(k, j)
  }

  /** The words that go out for a buffer of `count` words, from the k-th reading
      on: bursts as large as the vacancy allows, up to the first failure. */
  datatype Dispatch = Dispatch(sent: nat, readings: nat, complete: bool)

  /** The size of a burst, for a positive vacancy. */
  function BurstSize(vacancy: int, count: nat): (n: nat)
    requires vacancy > 0
    ensures n <= count && n <= vacancy && (n == count || n == vacancy)
  {
    if vacancy < count then vacancy else count
  }

  function Bursts(d: Responses, k: nat, count: nat): (t: Dispatch)
    ensures t.sent <= count && (t.complete ==> t.sent == count)
    decreases count
  {
    if count == 0 then Dispatch(0, k, true)
    else if d.vacancy(k) <= 0 then Dispatch(0, k + 1, false)
    else
      var n := BurstSize(d.vacancy(k), count);
      if !Flushed(d, k) then Dispatch(n, k + 1, false)
      else
        var rest := Bursts(d, k + 1, count - n);
        Dispatch(n + rest.sent, rest.readings, rest.complete)
  }

  predicate Accepts(d: Responses, k: nat) {
    d.vacancy(k) > 0 && Flushed(d, k)
  }

  ghost predicate Cooperative(d: Responses) {
    forall k :: Accepts(d, k)
  }

  /** Whatever the vacancies are, as long as they are positive and every burst
      is flushed, everything goes out. */
  lemma {:induction false} CooperativeCompletes(d: Responses, k: nat, count: nat)
    requires Cooperative(d)
    ensures Bursts(d, k, count).complete && Bursts(d, k, count).sent == count
    decreases count
  {
    assert Accepts(d, k);
    if count > 0 {
      CooperativeCompletes(d, k + 1, count - BurstSize(d.vacancy(k), count));
    }
  }

  /** The whole words in some bytes. */
  function WordCount(bytes: nat): nat {
    bytes / 4
  }

  /** A dispatch that is complete, and the next. */
  function Joined(t: Dispatch, rest: Dispatch): Dispatch {
    Dispatch(t.sent + rest.sent, rest.readings, rest.complete)
  }

  /** The words that go out for `left` bytes in chunks of 1024. */
  function Chunks(d: Responses, k: nat, left: nat): (t: Dispatch)
    ensures t.sent <= WordCount(left) && (t.complete ==> t.sent == WordCount(left))
    decreases left
  {
    if left == 0 then Dispatch(0, k, true)
    else
      var n := ChunkSize(left);
      var t := Bursts(d, k, WordCount(n));
      if t.complete then Joined(t, Chunks(d, t.readings, left - n)) else t
  }

  lemma {:induction false} CooperativeDownload(d: Responses, k: nat, left: nat)
    requires Cooperative(d)
    ensures Chunks(d, k, left).complete && Chunks(d, k, left).sent == WordCount(left)
    decreases left
  {
    if left > 0 {
      var n := ChunkSize(left);
      CooperativeCompletes(d, k, WordCount(n));
      CooperativeDownload(d, Bursts(d, k, WordCount(n)).readings, left - n);
    }
  }

  // ---- when the whole body goes out ----------------------------------------------

  /** How many bursts the vacancies alone provide for, from reading k on: up to
      the end of the words or to a reading without room. */
  function Readings(vacancy: nat -> int, k: nat, count: nat): nat
    decreases count
  {
    if count == 0 then 0
    else if vacancy(k) <= 0 then 1
    else 1 + Readings(vacancy, k + 1, count - BurstSize(vacancy(k), count))
  }

  /** The same for `left` bytes in chunks. */
  function AllReadings(vacancy: nat -> int, k: nat, left: nat): nat
    decreases left
  {
    if left == 0 then 0
    else
      var n := Readings(vacancy, k, WordCount(ChunkSize(left)));
      if n > 0 && vacancy(k + n - 1) <= 0 then n else n + AllReadings(vacancy, k + n, left - ChunkSize(left))
  }

  /** There is room for each of n bursts from reading k on, and each but the last is flushed. */
  predicate GoesOut(d: Responses, k: nat, n: nat)
    decreases n
  {
    n == 0 || (d.vacancy(k) > 0 && (n > 1 ==> Flushed(d, k)) && GoesOut(d, k + 1, n - 1))
  }

  predicate AllAccepted(d: Responses, k: nat, n: nat)
    decreases n
  {
    n == 0 || (Accepts(d, k) && AllAccepted(d, k + 1, n - 1))
  }

  lemma {:induction false} GoesOutMeans(d: Responses, k: nat, n: nat)
    ensures GoesOut(d, k, n) <==>
            forall j :: k <= j < k + n ==> d.vacancy(j) > 0 && (j + 1 < k + n ==> Flushed(d, j))
    ensures AllAccepted(d, k, n) <==> forall j :: k <= j < k + n ==> Accepts(d, j)
    decreases n
  {
    if n > 0 {
      GoesOutMeans(d, k + 1, n - 1);
    }
  }

  lemma {:induction false} GoesOutInParts(d: Responses, k: nat, m: nat, n: nat)
    ensures n > 0 ==> (GoesOut(d, k, m + n) <==> AllAccepted(d, k, m) && GoesOut(d, k + m, n))
    ensures AllAccepted(d, k, m + n) <==> AllAccepted(d, k, m) && AllAccepted(d, k + m, n)
    decreases m
  {
    if m > 0 {
      GoesOutInParts(d, k + 1, m - 1, n);
    }
  }

  lemma {:induction false} Blocked(d: Responses, k: nat, n: nat)
    requires n > 0 && d.vacancy(k + n - 1) <= 0
    ensures !GoesOut(d, k, n) && !AllAccepted(d, k, n)
    decreases n
  {
    if n > 1 {
      Blocked(d, k + 1, n - 1);
    }
  }

  lemma ReadingsStart(vacancy: nat -> int, k: nat, count: nat)
    ensures Readings(vacancy, k, count) == 0 <==> count == 0
    ensures count > 0 && vacancy(k) <= 0 ==> Readings(vacancy, k, count) == 1
  {
  }

  /** The words of one helper call. */
  lemma {:induction false} HelperGoesOut(d: Responses, k: nat, count: nat)
    ensures Bursts(d, k, count).sent == count <==> GoesOut(d, k, Readings(d.vacancy, k, count))
    ensures Bursts(d, k, count).complete <==> AllAccepted(d, k, Readings(d.vacancy, k, count))
    ensures Bursts(d, k, count).complete ==> Bursts(d, k, count).readings == k + Readings(d.vacancy, k, count)
    decreases count
  {
    if count > 0 && d.vacancy(k) > 0 {
      var rest := count - BurstSize(d.vacancy(k), count);
      HelperGoesOut(d, k + 1, rest);
      ReadingsStart(d.vacancy, k + 1, rest);
    }
  }

  lemma ChunkWords(left: nat)
    ensures left > 0 ==> WordCount(left) == WordCount(ChunkSize(left)) + WordCount(left - ChunkSize(left))
  {
  }

  /** A dispatch that has sent all its words, or is complete, exactly when its n bursts let it. */
  ghost predicate Explained(d: Responses, k: nat, n: nat, t: Dispatch, words: nat) {
    && t.sent <= words && (t.complete ==> t.sent == words)
    && (t.sent == words <==> GoesOut(d, k, n)) && (t.complete <==> AllAccepted(d, k, n))
  }

  lemma ExplainedInParts(d: Responses, k: nat, m: nat, n: nat, t: Dispatch, words: nat, rest: Dispatch, more: nat)
    returns (both: Dispatch)
    requires Explained(d, k, m, t, words) && Explained(d, k + m, n, rest, more) && (n == 0 <==> more == 0)
    ensures both == if t.complete then Joined(t, rest) else t
    ensures Explained(d, k, m + n, both, words + more)
  {
    GoesOutInParts(d, k, m, n);
    both := if t.complete then Joined(t, rest) else t;
  }

  lemma ExplainedBlocked(d: Responses, k: nat, n: nat, t: Dispatch, words: nat, more: nat)
    requires Explained(d, k, n, t, words) && n > 0 && d.vacancy(k + n - 1) <= 0
    ensures Explained(d, k, n, t, words + more) && !t.complete
  {
    Blocked(d, k, n);
  }

  /** The readings and the words of a body are those of its first chunk, and
      those of the rest unless a reading without room ends the first. */
  lemma FirstChunk(d: Responses, k: nat, left: nat) returns (n: nat, t: Dispatch, blocked: bool)
    requires left > 0
    ensures blocked ==>
              && n == AllReadings(d.vacancy, k, left) && t == Chunks(d, k, left)
              && n > 0 && WordCount(left) > 0 && Explained(d, k, n, t, WordCount(left))
    ensures !blocked ==>
              && AllReadings(d.vacancy, k, left) == n + AllReadings(d.vacancy, k + n, left - ChunkSize(left))
              && Chunks(d, k, left) == (if t.complete then Joined(t, Chunks(d, k + n, left - ChunkSize(left))) else t)
              && (n == 0 <==> WordCount(ChunkSize(left)) == 0) && Explained(d, k, n, t, WordCount(ChunkSize(left)))
  {
    var words := WordCount(ChunkSize(left));
    n, t := Readings(d.vacancy, k, words), Bursts(d, k, words);
    blocked := n > 0 && d.vacancy(k + n - 1) <= 0;
    HelperGoesOut(d, k, words);
    ReadingsStart(d.vacancy, k, words);
    ChunkWords(left);
    if blocked {
      ExplainedBlocked(d, k, n, t, words, WordCount(left - ChunkSize(left)));
    }
  }

  /** A body whose first chunk is not blocked, and the rest of it. */
  lemma BodyInParts(d: Responses, k: nat, left: nat, m: nat, first: Dispatch, n: nat, rest: Dispatch)
    returns (all: nat, both: Dispatch)
    requires left > 0
    requires Explained(d, k, m, first, WordCount(ChunkSize(left)))
    requires Explained(d, k + m, n, rest, WordCount(left - ChunkSize(left)))
    requires (m == 0 <==> WordCount(ChunkSize(left)) == 0) && (n == 0 <==> WordCount(left - ChunkSize(left)) == 0)
    ensures all == m + n && both == (if first.complete then Joined(first, rest) else first)
    ensures Explained(d, k, all, both, WordCount(left)) && (all == 0 <==> WordCount(left) == 0)
  {
    all := m + n;
    both := ExplainedInParts(d, k, m, n, first, WordCount(ChunkSize(left)), rest, WordCount(left - ChunkSize(left)));
    ChunkWords(left);
  }

  /** All words of a body go out exactly when there is room at each reading that
      the vacancies provide for and each burst but the last is flushed. The
      download is complete exactly when the last is flushed, too. */
  lemma {:induction false} BodyGoesOut(d: Responses, k: nat, left: nat) returns (n: nat, t: Dispatch)
    ensures n == AllReadings(d.vacancy, k, left) && t == Chunks(d, k, left)
    ensures Explained(d, k, n, t, WordCount(left)) && (n == 0 <==> WordCount(left) == 0)
    decreases left
  {
    if left == 0 {
      return 0, Dispatch(0, k, true);
    }
    var blocked;
    n, t, blocked := FirstChunk(d, k, left);
    if !blocked {
      var rest := left - ChunkSize(left);
      var n2, t2 := BodyGoesOut(d, k + n, rest);
      n, t := BodyInParts(d, k, left, n, t, n2, t2);
    }
  }

  /** What the chunk loop and the wait after it return. */
  function DownloadError(d: Responses, k: nat, length: nat): int {
    if Chunks(d, k, length).complete && !d.done then -EIO else 0
  }

  /** Success means that the whole body is out exactly when it is out anyway:
      words that are missing are never reported. An error is returned exactly
      when every burst was accepted and the configuration is not done in time. */
  lemma DownloadReports(d: Responses, k: nat, length: nat)
    ensures var n, out := AllReadings(d.vacancy, k, length), Chunks(d, k, length).sent == WordCount(length);
            && (out <==> GoesOut(d, k, n))
            && ((DownloadError(d, k, length) == 0 ==> out) <==> GoesOut(d, k, n))
            && (DownloadError(d, k, length) == -EIO <==> AllAccepted(d, k, n) && !d.done)
  {
    var n, t := BodyGoesOut(d, k, length);
  }

  /** A FIFO that never has room takes no word of a body, and the download
      returns success. */
  lemma UnreportedFailure(length: nat)
    requires length >= 4
    ensures var d := Responses(_ => 0, (_, _) => false, true);
            Chunks(d, 0, length).sent == 0 < WordCount(length) && DownloadError(d, 0, length) == 0
  {
  }

  function ChunkSize(left: nat): nat {
    if left > FILE_BUFFER then FILE_BUFFER else left
  }

  /** The chunk loop when byteRead bytes have been dealt with, as whole words unless at the end. */
  ghost predicate Downloading(all: Dispatch, d: Responses, length: nat, byteRead: nat, sent: nat, readings: nat) {
    && byteRead <= length && sent == WordCount(byteRead) && (byteRead < length ==> byteRead == 4 * sent)
    && var t := Chunks(d, readings, length - byteRead);
       all == Dispatch(sent + t.sent, t.readings, t.complete)
  }

  lemma DownloadEnds(all: Dispatch, d: Responses, length: nat, sent: nat, readings: nat)
    requires Downloading(all, d, length, length, sent, readings)
    ensures all == Dispatch(sent, readings, true)
  {
  }

  lemma DownloadRound(all: Dispatch, d: Responses, length: nat, byteRead: nat, sent: nat, readings: nat, n: nat)
    requires Downloading(all, d, length, byteRead, sent, readings) && byteRead < length
    requires n == ChunkSize(length - byteRead)
    ensures byteRead == 4 * sent && 0 < n && 4 * sent + 4 * WordCount(n) <= byteRead + n <= length
  {
  }

  lemma DownloadWrites(all: Dispatch, d: Responses, length: nat, byteRead: nat, sent: nat, readings: nat, n: nat,
                       body: seq<byte>, was: seq<U32>, before: seq<U32>, now: seq<U32>)
    requires Downloading(all, d, length, byteRead, sent, readings) && byteRead < length
    requires n == ChunkSize(length - byteRead) && length <= |body|
    requires Written(was, before, body, 0, sent)
    requires Written(before, now, body, byteRead, Bursts(d, readings, WordCount(n)).sent)
    ensures var t := Bursts(d, readings, WordCount(n));
            if t.complete then
              && Downloading(all, d, length, byteRead + n, sent + WordCount(n), t.readings)
              && Written(was, now, body, 0, sent + WordCount(n))
            else all.readings == t.readings && !all.complete && Written(was, now, body, 0, all.sent)
  {
    DownloadRound(all, d, length, byteRead, sent, readings, n);
    WrittenMore(was, before, now, body, 0, sent, Bursts(d, readings, WordCount(n)).sent);
  }

  /** What a helper call has still to do. */
  ghost predicate Sending(d: Responses, first: nat, count: nat, remain: nat, readings: nat) {
    && remain <= count
    && var t := Bursts(d, readings, remain);
       Bursts(d, first, count) == Dispatch(count - remain + t.sent, t.readings, t.complete)
  }

  class Icap {
    const device: Responses
    /** The words written to the FIFO. */
    var fifo: seq<U32>
    /** How often the vacancy has been read. */
    var readings: nat

    constructor (device: Responses)
      ensures this.device == device && fifo == [] && readings == 0
    {
      this.device := device;
      fifo, readings := [], 0;
    }

    /** hwicapWrite, after the k-th reading of the vacancy. The FIFO has no
        room for more words than that reading said. */
    method HwicapWrite(body: seq<byte>, offset: nat, size: nat, k: nat) returns (rc: int)
      requires offset + 4 * size <= |body| && 0 < size <= device.vacancy(k)
      modifies this`fifo
      ensures Written(old(fifo), fifo, body, offset, size)
      ensures rc == if exists j :: 0 <= j < 10 && !device.busy(k, j) then 0 else -EIO
    {
      for i := 0 to size
        invariant Written(old(fifo), fifo, body, offset, i)
      {
        WrittenOne(old(fifo), fifo, body, offset, i);
        fifo := fifo + [WordAt(body, offset + 4 * i)];
      }
      for i := 0 to 10
        invariant forall j :: 0 <= j < i ==> device.busy(k, j)
      {
        if !device.busy(k, i) {
          return 0;
        }
      }
      rc := -EIO;
    }

    /** bitstream_icap_helper */
    method Helper(body: seq<byte>, offset: nat, count: nat) returns (err: int)
      requires offset + 4 * count <= |body|
      modifies this`fifo, this`readings
      ensures var t := Bursts(device, old(readings), count);
              && Written(old(fifo), fifo, body, offset, t.sent)
              && readings == t.readings && err == (if t.complete then 0 else -EIO)
    {
      err := 0;
      var remain: nat, sent: nat := count, 0;
      while remain > 0
        invariant sent + remain == count && Sending(device, old(readings), count, remain, readings)
        invariant Written(old(fifo), fifo, body, offset, sent)
        decreases remain
      {
        var vacancy := device.vacancy(readings);
        readings := readings + 1;
        if vacancy <= 0 {
          return -EIO;
        }
        var n := BurstSize(vacancy, remain);
        ghost var before := fifo;
        var rc := HwicapWrite(body, offset + 4 * sent, n, readings - 1);
        WrittenMore(old(fifo), before, fifo, body, offset, sent, n);
        sent := sent + n;
        if rc != 0 {
          return -EIO;
        }
        remain := remain - n;
      }
    }

    /** The chunk loop of bitstream_icap, which began with the FIFO as it was,
        when byteRead bytes and all their words have been dealt with. */
    ghost predicate Downloaded(all: Dispatch, was: seq<U32>, body: seq<byte>, length: nat, byteRead: nat, sent: nat)
      reads this
    {
      Downloading(all, device, length, byteRead, sent, readings) && Written(was, fifo, body, 0, sent)
    }

    /** One round of the loop, for n bytes. */
    method NextChunk(body: seq<byte>, length: nat, byteRead: nat,
                     ghost all: Dispatch, ghost was: seq<U32>, ghost sent: nat)
      returns (err: int, n: nat)
      requires Downloaded(all, was, body, length, byteRead, sent) && byteRead < length <= |body|
      modifies this`fifo, this`readings
      ensures 0 < n <= length - byteRead
      ensures if err == 0 then Downloaded(all, was, body, length, byteRead + n, sent + WordCount(n))
              else readings == all.readings && !all.complete && Written(was, fifo, body, 0, all.sent)
    {
      n := ChunkSize(length - byteRead);
      ghost var before, k := fifo, readings;
      DownloadRound(all, device, length, byteRead, sent, k, n);
      err := Helper(body, byteRead, WordCount(n));
      DownloadWrites(all, device, length, byteRead, sent, k, n, body, was, before, fifo);
    }

    /** The chunk loop of bitstream_icap and what follows it. A failed helper
        call ends the download, but not with an error. */
    method Download(body: seq<byte>, length: nat) returns (err: int)
      requires length <= |body|
      modifies this`fifo, this`readings
      ensures var t := Chunks(device, old(readings), length);
              && Written(old(fifo), fifo, body, 0, t.sent) && readings == t.readings
              && err == DownloadError(device, old(readings), length)
    {
      var byteRead: nat := 0;
      ghost var all, was := Chunks(device, readings, length), fifo;
      ghost var sent: nat := 0;
      while byteRead < length
        invariant Downloaded(all, was, body, length, byteRead, sent)
        decreases length - byteRead
      {
        var n;
        err, n := NextChunk(body, length, byteRead, all, was, sent);
        if err != 0 {
          return 0;
        }
        byteRead := byteRead + n;
        sent := sent + WordCount(n);
      }
      DownloadEnds(all, device, length, sent, readings);
      err := if device.done then 0 else -EIO;
    }
  }

  // ---- the MCAP ------------------------------------------------------------------

  /** The chunk loop of bitstream_ioctl_mcap after some chunks. */
  ghost predicate Chunking(length: nat, chunk: nat, byteRead: nat, sent: nat) {
    byteRead == Least(1024 * chunk, length) && sent == WordCount(byteRead)
  }

  lemma ChunkingRound(length: nat, chunk: nat, byteRead: nat, sent: nat, n: nat)
    requires Chunking(length, chunk, byteRead, sent) && byteRead < length && n == ChunkSize(length - byteRead)
    ensures byteRead == 1024 * chunk == 4 * sent && 0 < n && 4 * sent + 4 * WordCount(n) <= byteRead + n <= length
    ensures Chunking(length, chunk + 1, byteRead + n, sent + WordCount(n))
  {
    AddWholeWords(256 * chunk, 0);
    assert byteRead == 1024 * chunk && sent == 256 * chunk;
    AddWholeWords(sent, n);
    if n == FILE_BUFFER {
      assert byteRead + n == 1024 * (chunk + 1);
    } else {
      assert byteRead + n == length;
    }
  }

  lemma AddWholeWords(words: nat, n: nat)
    ensures WordCount(4 * words + n) == words + WordCount(n)
  {
  }

  class Mcap {
    /** The words written to the data register. */
    var data: seq<U32>

    constructor ()
      ensures data == []
    {
      data := [];
    }

    /** bitstream_mcap_helper */
    method Helper(body: seq<byte>, offset: nat, count: nat)
      requires offset + 4 * count <= |body|
      modifies this
      ensures Written(old(data), data, body, offset, count)
    {
      for i := 0 to count
        invariant Written(old(data), data, body, offset, i)
      {
        WrittenOne(old(data), data, body, offset, i);
        data := data + [WordAt(body, offset + 4 * i)];
      }
    }

    /** The one-shot form in bitstream_mcap */
    method OneShot(body: seq<byte>, length: nat)
      requires length <= |body|
      modifies this
      ensures Written(old(data), data, body, 0, WordCount(length))
    {
      Helper(body, 0, length / 4);
    }

    /** The chunk loop of bitstream_ioctl_mcap. `faultAt` is the chunk, if any,
        that cannot be copied from the user. Otherwise it writes what the
        one-shot form writes. */
    method Chunked(body: seq<byte>, length: nat, faultAt: Option<nat>) returns (err: int)
      requires length <= |body|
      modifies this
      ensures if faultAt.Some? && 1024 * faultAt.value < length
              then err == -EFAULT && Written(old(data), data, body, 0, 256 * faultAt.value)
              else err == 0 && Written(old(data), data, body, 0, WordCount(length))
    {
      var byteRead: nat, sent: nat, chunk: nat := 0, 0, 0;
      while byteRead < length
        invariant Chunking(length, chunk, byteRead, sent) && Written(old(data), data, body, 0, sent)
        invariant faultAt.Some? && 1024 * faultAt.value < length ==> chunk <= faultAt.value
        decreases length - byteRead
      {
        var n := ChunkSize(length - byteRead);
        ChunkingRound(length, chunk, byteRead, sent, n);
        if faultAt == Some(chunk) {
          return -EFAULT;
        }
        ghost var before := data;
        Helper(body, byteRead, WordCount(n));
        WrittenMore(old(data), before, data, body, 0, sent, WordCount(n));
        byteRead := byteRead + n;
        sent := sent + WordCount(n);
        chunk := chunk + 1;
      }
      err := 0;
    }
  }
}
