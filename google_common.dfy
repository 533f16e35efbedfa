/** The resumable upload shared by the Google backends: starting a
    session, uploading the stream in chunks of at most 10 MiB, following
    the server's "308 Resume Incomplete" ranges, and recovering from 5xx
    and network failures by asking the server where it stands. The
    server's replies are an input sequence, consumed one per request. */
module GoogleCommon {
  import opened Common

  const ChunkSize: int := 10 * 1024 * 1024
  const MaxRetries: nat := 5

  /** A reply: its status, its Range header and whether a JSON body could
      be read from it; or a socket/IO failure; or any other exception. */
  datatype Reply = Reply(code: int, range: Option<string>, hasBody: bool) | SocketFailure | OtherFailure

  /** Why a request failed: an unexpected status, an upload that
      "succeeded prematurely", a success without body, a Range header
      that does not parse, a chunk range the headers refuse, a socket/IO
      error, or another exception. */
  datatype Fault =
    | HttpStatus(code: int)
    | Premature(offset: int)
    | NoBody(code: int)
    | BadRange
    | InvalidChunk
    | Network
    | Other

  /** The upper bound b of a Range header "a-b": the second '-'-separated
      field, parsed as a number. */
  function RangeEnd(header: string): (r: Option<nat>)
    ensures var fields := SplitAll(header, '-');
      r.Some? <==> |fields| >= 2 && ParseNat(fields[1]).Some?
    ensures r.Some? ==> r == ParseNat(SplitAll(header, '-')[1])
  {
    var fields := SplitAll(header, '-');
    if |fields| >= 2 then ParseNat(fields[1]) else None
  }

  /** What a range query tells: the offset to resume from, and whether the
      upload turned out to be complete already. */
  datatype RangeAnswer = RangeAnswer(offset: int, finished: bool)

  /** QueryUploadRangeAsync: 2xx means complete (a body is required); 308
      without Range means nothing arrived, with "a-b" resume at b+1; any
      other status is an error. */
  function QueryUploadRange(reply: Reply, length: int): (r: Result<RangeAnswer, Fault>)
    ensures reply.Reply? && IsSuccessStatus(reply.code) ==>
              (r.Ok? <==> reply.hasBody) && (r.Ok? ==> r.value == RangeAnswer(length, true))
    ensures reply.Reply? && reply.code == 308 && reply.range.None? ==> r == Ok(RangeAnswer(0, false))
    ensures reply.Reply? && reply.code == 308 && reply.range.Some? ==>
              (r.Ok? <==> RangeEnd(reply.range.value).Some?)
              && (r.Ok? ==> r.value == RangeAnswer(RangeEnd(reply.range.value).value + 1, false))
    ensures reply.Reply? && !IsSuccessStatus(reply.code) && reply.code != 308 ==> r == Err(HttpStatus(reply.code))
    ensures reply == SocketFailure ==> r == Err(Network)
    ensures r.Ok? && !r.value.finished ==> r.value.offset >= 0
  {
    match reply
    case SocketFailure => Err(Network)
    case OtherFailure => Err(Other)
    case Reply(code, range, hasBody) =>
      if IsSuccessStatus(code) then
        if hasBody then Ok(RangeAnswer(length, true)) else Err(NoBody(code))
      else if code == 308 then
        if range.None? then Ok(RangeAnswer(0, false))
        else
          var b := RangeEnd(range.value);
          if b.Some? then Ok(RangeAnswer(b.value + 1, false)) else Err(BadRange)
      else Err(HttpStatus(code))
  }

  /** The length of the chunk sent from `offset`. */
  function ChunkLength(offset: int, length: int): (n: int)
    ensures n <= ChunkSize && n <= length - offset
    ensures n == ChunkSize || n == length - offset
  {
    Min(ChunkSize, length - offset)
  }

  datatype ChunkAnswer = Moved(offset: nat) | Completed

  /** The reply to one chunk: 308 with "a-b" moves to b+1; 2xx completes
      the upload, which must then end exactly at the stream length and
      carry a body; anything else is an error. */
  function ChunkReply(offset: int, length: int, reply: Reply): (r: Result<ChunkAnswer, Fault>)
    ensures r == Ok(Completed) ==> offset + ChunkLength(offset, length) == length
    ensures r == Ok(Completed) <==>
              reply.Reply? && IsSuccessStatus(reply.code) && offset + ChunkLength(offset, length) == length && reply.hasBody
    ensures r.Ok? && r.value.Moved? <==>
              reply.Reply? && reply.code == 308 && reply.range.Some? && RangeEnd(reply.range.value).Some?
    ensures r.Ok? && r.value.Moved? ==> r.value.offset == RangeEnd(reply.range.value).value + 1
    ensures reply.Reply? && IsSuccessStatus(reply.code) && offset + ChunkLength(offset, length) != length ==>
              r == Err(Premature(offset + ChunkLength(offset, length)))
    ensures reply.Reply? && !IsSuccessStatus(reply.code) && !(reply.code == 308 && reply.range.Some?) ==>
              r == Err(HttpStatus(reply.code))
    ensures reply == SocketFailure ==> r == Err(Network)
  {
    match reply
    case SocketFailure => Err(Network)
    case OtherFailure => Err(Other)
    case Reply(code, range, hasBody) =>
      if code == 308 && range.Some? then
        var b := RangeEnd(range.value);
        if b.Some? then Ok(Moved(b.value + 1)) else Err(BadRange)
      else if IsSuccessStatus(code) then
        var next := offset + ChunkLength(offset, length);
        if next != length then Err(Premature(next))
        else if !hasBody then Err(NoBody(code))
        else Ok(Completed)
      else Err(HttpStatus(code))
  }

  /** Only 5xx statuses and socket/IO failures are worth retrying. */
  predicate Retryable(f: Fault) {
    (f.HttpStatus? && 500 <= f.code <= 599) || f == Network
  }

  /** ChunkedUploadWithResumeAsync's session start: it needs 200 OK and a
      Location header, which is the upload URI. */
  function StartSession(code: int, location: Option<string>): (r: Result<string, Fault>)
    ensures r.Ok? <==> code == 200 && location.Some?
    ensures r.Ok? ==> r.value == location.value
    ensures r.Err? ==> r.error == HttpStatus(code)
  {
    if code != 200 || location.None? then Err(HttpStatus(code)) else Ok(location.value)
  }

  datatype Request = RangeQuery(total: int) | ChunkPut(range: Span, total: int)

  /** How the upload ended; `Unanswered` when the given replies ran out
      (the source would go on asking). */
  datatype Outcome = Uploaded | Failed(fault: Fault) | Unanswered

  /** Every chunk request covers min(10 MiB, remaining) bytes from its
      offset, inside the stream, and names the stream length as total. */
  ghost predicate ChunksWellFormed(sent: seq<Request>, length: int) {
    forall q :: q in sent && q.ChunkPut? ==>
      q.total == length && 0 <= q.range.first <= q.range.last < length
      && q.range.last - q.range.first + 1 == ChunkLength(q.range.first, length)
  }

  /** What the reply to one request tells the upload loop: Ok(None) when
      the upload is complete, Ok(Some(o)) when it goes on from offset o,
      or the fault. */
  function Resume(q: Request, reply: Reply, length: int): (r: Result<Option<int>, Fault>)
    ensures r == Ok(None) <==>
      reply.Reply? && IsSuccessStatus(reply.code) && reply.hasBody
      && (q.ChunkPut? ==> q.range.first + ChunkLength(q.range.first, length) == length)
    ensures q.ChunkPut? && reply.Reply? && reply.code == 308 && reply.range.Some?
            && RangeEnd(reply.range.value).Some? ==>
      r == Ok(Some(RangeEnd(reply.range.value).value + 1))
  {
    if q.RangeQuery? then
      match QueryUploadRange(reply, length)
      case Ok(a) => if a.finished then Ok(None) else Ok(Some(a.offset))
      case Err(f) => Err(f)
    else
      match ChunkReply(q.range.first, length, reply)
      case Ok(Moved(o)) => Ok(Some(o))
      case Ok(Completed) => Ok(None)
      case Err(f) => Err(f)
  }

  /** The chunk put from `offset`. */
  function ChunkFrom(offset: int, length: int): Request {
    ChunkPut(Span(offset, offset + ChunkLength(offset, length) - 1), length)
  }

  /** The request that follows `q` once `reply` is in, with retry count
      `c` before the reply: the chunk from the offset the reply gives, or
      a range query after a fault worth retrying while fewer than
      MaxRetries retries were made; nothing follows a completed upload or
      any other fault. */
  ghost predicate Follows(q: Request, reply: Reply, next: Request, length: int, c: nat) {
    match Resume(q, reply, length)
    case Ok(Some(o)) => next == ChunkFrom(o, length)
    case Ok(None) => false
    case Err(f) => Retryable(f) && c < MaxRetries && next == RangeQuery(length)
  }

  /** The retry count after the requests `sent`: a chunk answered with a
      new offset (308 with a Range) resets it to zero, a fault worth
      retrying raises it while it is below MaxRetries. */
  ghost function RetriesAfter(sent: seq<Request>, replies: seq<Reply>, length: int): (c: nat)
    requires |sent| <= |replies|
    ensures c <= MaxRetries
    decreases |sent|
  {
    if sent == [] then 0
    else
      var n := |sent| - 1;
      var c := RetriesAfter(sent[..n], replies, length);
      match Resume(sent[n], replies[n], length)
      case Ok(Some(_)) => if sent[n].ChunkPut? then 0 else c
      case Ok(None) => c
      case Err(f) => if Retryable(f) && c < MaxRetries then c + 1 else c
  }

  /** The waits, in seconds, after the requests `sent`: a fault that is
      retried with retry count c waits 2^c seconds first. */
  ghost function WaitsAfter(sent: seq<Request>, replies: seq<Reply>, length: int): (w: seq<int>)
    requires |sent| <= |replies|
    ensures forall i :: 0 <= i < |w| ==> w[i] in {1, 2, 4, 8, 16}
    decreases |sent|
  {
    if sent == [] then []
    else
      var n := |sent| - 1;
      var c := RetriesAfter(sent[..n], replies, length);
      var w := WaitsAfter(sent[..n], replies, length);
      match Resume(sent[n], replies[n], length)
      case Err(f) => if Retryable(f) && c < MaxRetries then w + [Pow2(c)] else w
      case Ok(_) => w
  }

  /** What the requests `sent` and their replies amount to, whatever comes
      next: chunks well formed, the first chunk from 0, each request the
      one its predecessor's reply calls for, and the retry count and waits
      those of the replies. */
  ghost predicate Traced(sent: seq<Request>, replies: seq<Reply>, length: int, retries: nat, waits: seq<int>) {
    |sent| <= |replies|
    && ChunksWellFormed(sent, length)
    && (|sent| > 0 ==> sent[0] == ChunkFrom(0, length))
    && (forall i :: 0 < i < |sent| ==>
          Follows(sent[i - 1], replies[i - 1], sent[i], length, RetriesAfter(sent[..i - 1], replies, length)))
    && retries == RetriesAfter(sent, replies, length)
    && waits == WaitsAfter(sent, replies, length)
  }

  /** The loop is still going after `sent`: no reply completed the upload,
      and the request due next is a range query after a fault worth
      retrying, or else the chunk from `offset`. */
  ghost predicate Open(sent: seq<Request>, replies: seq<Reply>, length: int, queryRange: bool, offset: int) {
    |sent| <= |replies|
    && (sent == [] ==> offset == 0 && !queryRange)
    && (forall i :: 0 <= i < |sent| ==> Resume(sent[i], replies[i], length) != Ok(None))
    && (|sent| > 0 ==>
          Pending(sent[|sent| - 1], replies[|sent| - 1], length, queryRange, offset,
                  RetriesAfter(sent[..|sent| - 1], replies, length)))
  }

  /** Where the loop stands after the last reply, with retry count `c`
      before it: a range query is due after a fault worth retrying below
      the limit, otherwise the chunk from `offset`. */
  ghost predicate Pending(last: Request, reply: Reply, length: int, queryRange: bool, offset: int, c: nat) {
    match Resume(last, reply, length)
    case Ok(Some(o)) => !queryRange && offset == o
    case Ok(None) => false
    case Err(f) => queryRange && Retryable(f) && c < MaxRetries
  }

  /** The last reply is a fault the loop does not retry: one not worth
      retrying, or any fault once MaxRetries retries were made. */
  ghost predicate GivesUp(sent: seq<Request>, replies: seq<Reply>, length: int)
    requires |sent| <= |replies|
  {
    |sent| > 0
    && var n := |sent| - 1;
    Resume(sent[n], replies[n], length).Err?
    && !(Retryable(Resume(sent[n], replies[n], length).error) && RetriesAfter(sent[..n], replies, length) < MaxRetries)
  }

  /** With only socket failures for replies, the retry count after k
      requests is k, capped at MaxRetries. */
  lemma {:induction false} FailuresCounted(sent: seq<Request>, replies: seq<Reply>, length: int, k: nat)
    requires |sent| <= |replies| && k <= |sent|
    requires forall i :: 0 <= i < |replies| ==> replies[i] == SocketFailure
    ensures RetriesAfter(sent[..k], replies, length) == Min(k, MaxRetries)
    decreases k
  {
    if k > 0 {
      FailuresCounted(sent, replies, length, k - 1);
      assert sent[..k][..k - 1] == sent[..k - 1];
      assert Resume(sent[k - 1], replies[k - 1], length) == Err(Network);
    }
  }

  /** A trace answered by socket failures only holds the first chunk and
      at most MaxRetries range queries: the sixth failure in a row is not
      retried. */
  lemma {:induction false} FailuresStopAfterMaxRetries(sent: seq<Request>, replies: seq<Reply>, length: int,
                                                      retries: nat, waits: seq<int>)
    requires Traced(sent, replies, length, retries, waits)
    requires forall i :: 0 <= i < |replies| ==> replies[i] == SocketFailure
    ensures |sent| <= MaxRetries + 1
    ensures retries == Min(|sent|, MaxRetries)
  {
    FailuresCounted(sent, replies, length, |sent|);
    assert sent[..|sent|] == sent;
    if |sent| >= 2 {
      // the last request follows a retried failure, so the count before it is below the limit
      var n := |sent| - 2;
      FailuresCounted(sent, replies, length, n);
      assert Resume(sent[n], replies[n], length) == Err(Network);
      assert Follows(sent[n], replies[n], sent[n + 1], length, RetriesAfter(sent[..n], replies, length));
    }
  }

  /** With only socket failures for replies, the loop gives up at the
      sixth request and no earlier: the first chunk and five range queries. */
  lemma {:induction false} SocketFailuresGiveUpAtSixth(sent: seq<Request>, replies: seq<Reply>, length: int,
                                                       retries: nat, waits: seq<int>)
    requires Traced(sent, replies, length, retries, waits)
    requires forall i :: 0 <= i < |replies| ==> replies[i] == SocketFailure
    ensures GivesUp(sent, replies, length) <==> |sent| == MaxRetries + 1
  {
    FailuresStopAfterMaxRetries(sent, replies, length, retries, waits);
    if |sent| > 0 {
      var n := |sent| - 1;
      FailuresCounted(sent, replies, length, n);
      assert Resume(sent[n], replies[n], length) == Err(Network);
    }
  }

  /** Whether the loop gives up after one more request depends on that
      request's reply and the retry count before it. */
  lemma GivesUpStep(sent: seq<Request>, replies: seq<Reply>, length: int, q: Request)
    requires |sent| < |replies|
    ensures GivesUp(sent + [q], replies, length) <==>
      Resume(q, replies[|sent|], length).Err?
      && !(Retryable(Resume(q, replies[|sent|], length).error) && RetriesAfter(sent, replies, length) < MaxRetries)
  {
    assert (sent + [q])[..|sent|] == sent;
  }

  /** While the loop goes on, its last reply was not given up on. */
  lemma OpenGoesOn(sent: seq<Request>, replies: seq<Reply>, length: int, queryRange: bool, offset: int)
    requires Open(sent, replies, length, queryRange, offset)
    ensures !GivesUp(sent, replies, length)
  {
    if sent != [] {
      var n := |sent| - 1;
      assert Pending(sent[n], replies[n], length, queryRange, offset, RetriesAfter(sent[..n], replies, length));
    }
  }

  /** The request due next: a range query, or the chunk from `offset`. */
  function Due(queryRange: bool, offset: int, length: int): Request {
    if queryRange then RangeQuery(length) else ChunkFrom(offset, length)
  }

  /** One request of ChunkedUploadAsync's loop and its reply: a range query
      that finds the upload complete, or a chunk answered with 2xx and a
      body at the end of the stream, ends it; a new offset (from the range
      query, or from a 308 answering a chunk, which also resets the retry
      count) is resumed from; a fault worth retrying while the retry count
      is below five waits 2^retries seconds and asks for the range next;
      any other fault ends the upload. */
  method Turn(q: Request, reply: Reply, length: int, offset: int, retries: nat, waits: seq<int>)
    returns (offset': int, retries': nat, waits': seq<int>, queryRange': bool, stop: Option<Outcome>)
    requires q.ChunkPut? ==> q == ChunkFrom(offset, length) && ChunkLength(offset, length) > 0
    ensures Resume(q, reply, length) == Ok(None) ==>
      stop == Some(Uploaded) && offset' == length && retries' == retries && waits' == waits
    ensures Resume(q, reply, length).Ok? && Resume(q, reply, length).value.Some? ==>
      stop.None? && offset' == Resume(q, reply, length).value.value && !queryRange'
      && retries' == (if q.ChunkPut? then 0 else retries) && waits' == waits
    ensures Resume(q, reply, length).Err? && Retryable(Resume(q, reply, length).error) && retries < MaxRetries ==>
      stop.None? && queryRange' && retries' == retries + 1 && waits' == waits + [Pow2(retries)]
    ensures Resume(q, reply, length).Err? && !(Retryable(Resume(q, reply, length).error) && retries < MaxRetries) ==>
      stop == Some(Failed(Resume(q, reply, length).error)) && retries' == retries && waits' == waits
    ensures stop.None? ==> Pending(q, reply, length, queryRange', offset', retries)
  {
    offset', retries', waits', queryRange', stop := offset, retries, waits, false, None;
    var fault: Option<Fault> := None;
    if q.RangeQuery? {
      var a := QueryUploadRange(reply, length);
      if a.Err? {
        fault := Some(a.error);
      } else {
        offset' := a.value.offset;
        if a.value.finished {
          return offset', retries', waits', queryRange', Some(Uploaded);
        }
      }
    } else {
      var c := ChunkReply(offset, length, reply);
      match c {
        case Err(f) =>
          fault := Some(f);
        case Ok(Moved(o)) =>
          offset' := o;
          retries' := 0;
        case Ok(Completed) =>
          offset' := offset + ChunkLength(offset, length);
          return offset', retries', waits', queryRange', Some(Uploaded);
      }
    }
    if fault.Some? {
      if Retryable(fault.value) && retries < MaxRetries {
        waits' := waits + [Pow2(retries)];
        retries' := retries + 1;
        queryRange' := true;
      } else {
        stop := Some(Failed(fault.value));
      }
    }
  }

  /** Appending the due request and its reply keeps the trace facts, with
      the retry count and waits Turn gives. */
  lemma {:induction false} TracedStep(sent: seq<Request>, replies: seq<Reply>, length: int, queryRange: bool,
                                      offset: int, retries: nat, waits: seq<int>, q: Request,
                                      retries': nat, waits': seq<int>)
    requires Traced(sent, replies, length, retries, waits) && Open(sent, replies, length, queryRange, offset)
    requires |sent| < |replies|
    requires q == Due(queryRange, offset, length) && (!queryRange ==> ChunkLength(offset, length) > 0)
    requires Resume(q, replies[|sent|], length).Ok? ==>
      retries' == (if q.ChunkPut? && Resume(q, replies[|sent|], length).value.Some? then 0 else retries)
      && waits' == waits
    requires Resume(q, replies[|sent|], length).Err? ==>
      if Retryable(Resume(q, replies[|sent|], length).error) && retries < MaxRetries
      then retries' == retries + 1 && waits' == waits + [Pow2(retries)]
      else retries' == retries && waits' == waits
    ensures Traced(sent + [q], replies, length, retries', waits')
  {
    var sent' := sent + [q];
    RetriesStep(sent, replies, length, q);
    ChunksStep(sent, replies, length, queryRange, offset, q);
    FollowsStep(sent, replies, length, queryRange, offset, q);
  }

  /** The retry count and waits after one more request unfold by one. */
  lemma {:induction false} RetriesStep(sent: seq<Request>, replies: seq<Reply>, length: int, q: Request)
    requires |sent| < |replies|
    ensures var c := RetriesAfter(sent, replies, length);
      var w := WaitsAfter(sent, replies, length);
      match Resume(q, replies[|sent|], length)
      case Ok(Some(_)) =>
        RetriesAfter(sent + [q], replies, length) == (if q.ChunkPut? then 0 else c)
        && WaitsAfter(sent + [q], replies, length) == w
      case Ok(None) =>
        RetriesAfter(sent + [q], replies, length) == c && WaitsAfter(sent + [q], replies, length) == w
      case Err(f) =>
        if Retryable(f) && c < MaxRetries
        then RetriesAfter(sent + [q], replies, length) == c + 1 && WaitsAfter(sent + [q], replies, length) == w + [Pow2(c)]
        else RetriesAfter(sent + [q], replies, length) == c && WaitsAfter(sent + [q], replies, length) == w
  {
    assert (sent + [q])[..|sent|] == sent;
  }

  /** The due chunk lies inside the stream. */
  lemma {:induction false} ChunksStep(sent: seq<Request>, replies: seq<Reply>, length: int, queryRange: bool,
                                      offset: int, q: Request)
    requires ChunksWellFormed(sent, length) && Open(sent, replies, length, queryRange, offset)
    requires q == Due(queryRange, offset, length) && (!queryRange ==> ChunkLength(offset, length) > 0)
    ensures ChunksWellFormed(sent + [q], length)
  {
    if q.ChunkPut? && sent != [] {
      var n := |sent| - 1;
      assert Pending(sent[n], replies[n], length, queryRange, offset, RetriesAfter(sent[..n], replies, length));
    }
  }

  /** The due request is the one the last reply calls for. */
  lemma {:induction false} FollowsStep(sent: seq<Request>, replies: seq<Reply>, length: int, queryRange: bool,
                                       offset: int, q: Request)
    requires |sent| < |replies|
    requires |sent| > 0 ==> sent[0] == ChunkFrom(0, length)
    requires forall i :: 0 < i < |sent| ==>
      Follows(sent[i - 1], replies[i - 1], sent[i], length, RetriesAfter(sent[..i - 1], replies, length))
    requires Open(sent, replies, length, queryRange, offset)
    requires q == Due(queryRange, offset, length)
    ensures sent + [q] != [] && (sent + [q])[0] == ChunkFrom(0, length)
    ensures forall i :: 0 < i < |sent| + 1 ==>
      Follows((sent + [q])[i - 1], replies[i - 1], (sent + [q])[i], length,
              RetriesAfter((sent + [q])[..i - 1], replies, length))
  {
    var sent' := sent + [q];
    assert forall i :: 0 <= i < |sent| ==> sent'[i] == sent[i];
    assert forall i :: 0 <= i <= |sent| ==> sent'[..i] == sent[..i];
    if sent != [] {
      var n := |sent| - 1;
      assert Pending(sent[n], replies[n], length, queryRange, offset, RetriesAfter(sent[..n], replies, length));
      assert Follows(sent[n], replies[n], q, length, RetriesAfter(sent[..n], replies, length));
    }
  }

  /** A reply that does not complete the upload keeps the loop open. */
  lemma OpenStep(sent: seq<Request>, replies: seq<Reply>, length: int, queryRange: bool, offset: int,
                 q: Request, queryRange': bool, offset': int)
    requires Open(sent, replies, length, queryRange, offset) && |sent| < |replies|
    requires Pending(q, replies[|sent|], length, queryRange', offset', RetriesAfter(sent, replies, length))
    ensures Open(sent + [q], replies, length, queryRange', offset')
  {
    var sent' := sent + [q];
    assert forall i :: 0 <= i < |sent| ==> sent'[i] == sent[i];
    assert sent'[..|sent|] == sent;
  }

  /** ChunkedUploadAsync: one request per reply. The first chunk starts at
      0; every later request is the one its predecessor's reply calls for
      (Follows); the upload is complete exactly when the last reply says
      so; the retry count and the waits are those of the replies. Each
      round of the source's loop (an optional range query, then a chunk)
      is one or two turns here. */
  method ChunkedUpload(length: nat, replies: seq<Reply>)
    returns (sent: seq<Request>, offset: int, retries: nat, waits: seq<int>, outcome: Outcome)
    ensures |sent| <= |replies|
    ensures ChunksWellFormed(sent, length)
    ensures |sent| > 0 ==> sent[0] == ChunkFrom(0, length)
    ensures forall i :: 0 < i < |sent| ==>
      Follows(sent[i - 1], replies[i - 1], sent[i], length, RetriesAfter(sent[..i - 1], replies, length))
    ensures outcome == Uploaded <==> |sent| > 0 && Resume(sent[|sent| - 1], replies[|sent| - 1], length) == Ok(None)
    ensures outcome == Uploaded ==> offset == length
    ensures outcome.Failed? && outcome.fault != InvalidChunk ==>
      |sent| > 0 && Resume(sent[|sent| - 1], replies[|sent| - 1], length) == Err(outcome.fault)
    ensures outcome.Failed? ==> !Retryable(outcome.fault) || retries == MaxRetries
    ensures GivesUp(sent, replies, length) ==> outcome == Failed(Resume(sent[|sent| - 1], replies[|sent| - 1], length).error)
    ensures outcome.Failed? && outcome.fault != InvalidChunk ==> GivesUp(sent, replies, length)
    ensures retries == RetriesAfter(sent, replies, length)
    ensures waits == WaitsAfter(sent, replies, length)
    ensures outcome == Unanswered ==> |sent| == |replies|
    ensures length == 0 ==> sent == [] && outcome == Failed(InvalidChunk)
  {
    sent, offset, retries, waits, outcome := UploadTurns(length, replies);
  }

  /** The loop of ChunkedUploadAsync, one request and reply per turn. */
  method UploadTurns(length: nat, replies: seq<Reply>)
    returns (sent: seq<Request>, offset: int, retries: nat, waits: seq<int>, outcome: Outcome)
    ensures Traced(sent, replies, length, retries, waits)
    ensures outcome == Uploaded ==>
      |sent| > 0 && Resume(sent[|sent| - 1], replies[|sent| - 1], length) == Ok(None) && offset == length
    ensures outcome != Uploaded ==> forall i :: 0 <= i < |sent| ==> Resume(sent[i], replies[i], length) != Ok(None)
    ensures outcome.Failed? && outcome.fault != InvalidChunk ==>
      |sent| > 0 && Resume(sent[|sent| - 1], replies[|sent| - 1], length) == Err(outcome.fault)
      && (!Retryable(outcome.fault) || retries == MaxRetries)
    ensures outcome == Unanswered ==> |sent| == |replies|
    ensures GivesUp(sent, replies, length) ==> outcome == Failed(Resume(sent[|sent| - 1], replies[|sent| - 1], length).error)
    ensures outcome.Failed? && outcome.fault != InvalidChunk ==> GivesUp(sent, replies, length)
    ensures length == 0 ==> sent == [] && outcome == Failed(InvalidChunk)
  {
    var queryRange := false;
    sent, offset, retries, waits := [], 0, 0, [];
    while true
      invariant Traced(sent, replies, length, retries, waits)
      invariant Open(sent, replies, length, queryRange, offset)
      invariant length == 0 ==> sent == []
      decreases |replies| - |sent|
    {
      var q := Due(queryRange, offset, length);
      OpenGoesOn(sent, replies, length, queryRange, offset);
      if !queryRange && ChunkLength(offset, length) <= 0 {
        return sent, offset, retries, waits, Failed(InvalidChunk);
      }
      if |sent| == |replies| {
        return sent, offset, retries, waits, Unanswered;
      }
      var stop;
      sent, offset, retries, waits, queryRange, stop := Advance(length, replies, sent, queryRange, offset, retries, waits);
      if stop.Some? {
        return sent, offset, retries, waits, stop.value;
      }
    }
  }

  /** One turn of the loop on the trace so far: the due request is sent and
      its reply read; the trace facts are kept, and the loop either goes on
      or stops with the outcome the reply calls for. */
  method Advance(length: nat, replies: seq<Reply>, sent: seq<Request>, queryRange: bool, offset: int,
                 retries: nat, waits: seq<int>)
    returns (sent': seq<Request>, offset': int, retries': nat, waits': seq<int>, queryRange': bool,
             stop: Option<Outcome>)
    requires Traced(sent, replies, length, retries, waits) && Open(sent, replies, length, queryRange, offset)
    requires |sent| < |replies| && (!queryRange ==> ChunkLength(offset, length) > 0)
    ensures sent' == sent + [Due(queryRange, offset, length)]
    ensures Traced(sent', replies, length, retries', waits')
    ensures stop.None? ==> Open(sent', replies, length, queryRange', offset')
    ensures stop == Some(Uploaded) ==> Resume(sent'[|sent|], replies[|sent|], length) == Ok(None) && offset' == length
    ensures stop.Some? && stop.value != Uploaded ==>
      stop.value.Failed? && Resume(sent'[|sent|], replies[|sent|], length) == Err(stop.value.fault)
      && (!Retryable(stop.value.fault) || retries' == MaxRetries)
      && forall i :: 0 <= i < |sent'| ==> Resume(sent'[i], replies[i], length) != Ok(None)
    ensures GivesUp(sent', replies, length) ==> stop == Some(Failed(Resume(sent'[|sent|], replies[|sent|], length).error))
    ensures stop.Some? && stop.value != Uploaded ==> GivesUp(sent', replies, length)
  {
    var q := Due(queryRange, offset, length);
    var stop0;
    offset', retries', waits', queryRange', stop0 := Turn(q, replies[|sent|], length, offset, retries, waits);
    TracedStep(sent, replies, length, queryRange, offset, retries, waits, q, retries', waits');
    GivesUpStep(sent, replies, length, q);
    sent', stop := sent + [q], stop0;
    if stop.None? {
      OpenStep(sent, replies, length, queryRange, offset, q, queryRange', offset');
    } else {
      assert forall i :: 0 <= i < |sent| ==> sent'[i] == sent[i];
    }
  }
}
