/** The decision logic of the Microsoft Graph (OneDrive) backend: path
    normalisation, the upload-session settings, the choice between a
    single PUT and an upload session, the fragment loop with its retry
    classification, the quota report, response checking and the folder
    walk that creates the backup folder. Replies of the service are inputs. */
module MicrosoftGraph {
  import opened Common

  const PutMaxSize: int := 4 * 1000 * 1000
  const FragmentMultiple: int := 320 * 1024
  const FragmentMaxSize: int := 60 * 1024 * 1024
  const FragmentDefaultSize: int := 10 * 1024 * 1024
  const DefaultRetryCount: int := 5
  const DefaultRetryDelay: int := 1000

  /** NormalizeSlashes: backslashes become '/', a non-empty fragment gets a
      leading '/', and one trailing '/' is dropped. */
  function NormalizeSlashes(url: string): (r: string)
    ensures '\\' !in r
    ensures r == "" || r[0] == '/'
    ensures |url| - 1 <= |r| <= |url| + 1
  {
    var u := ReplaceChar(url, '\\', '/');
    var lead := if |u| != 0 && !StartsWith(u, "/") then "/" + u else u;
    assert '\\' !in lead;
    assert lead == "" || lead[0] == '/';
    if EndsWith(lead, "/") then lead[..|lead| - 1] else lead
  }

  /** Apart from the leading '/', the result is the fragment with '/' for
      '\\' and at most one trailing '/' removed. */
  lemma NormalizeSlashesContent(url: string)
    ensures StripLeading(NormalizeSlashes(url)) == StripTrailing(StripLeading(ReplaceChar(url, '\\', '/')))
  {
    var u := ReplaceChar(url, '\\', '/');
    var lead := if |u| != 0 && !StartsWith(u, "/") then "/" + u else u;
    assert StripLeading(lead) == StripLeading(u) by {
      if lead != u {
        assert lead[1..] == u;
      }
    }
    assert NormalizeSlashes(url) == StripTrailing(lead);
    StripCommute(lead);
  }

  lemma StripCommute(s: string)
    ensures StripLeading(StripTrailing(s)) == StripTrailing(StripLeading(s))
  {
    if |s| >= 2 && s[0] == '/' && s[|s| - 1] == '/' {
      assert s[..|s| - 1][1..] == s[1..][..|s| - 2];
    }
  }

  function StripLeading(s: string): string {
    if s != [] && s[0] == '/' then s[1..] else s
  }

  function StripTrailing(s: string): string {
    if s != [] && s[|s| - 1] == '/' then s[..|s| - 1] else s
  }

  /** The examples of the NormalizeSlashes documentation: "" stays "",
      "test" and "test/" become "/test", "a\\b" becomes "/a/b". */
  lemma NormalizeSlashesEmpty()
    ensures NormalizeSlashes("") == ""
  {
  }

  lemma NormalizeSlashesAddsLead()
    ensures NormalizeSlashes("test") == "/test"
  {
    NormalizeFresh("test");
  }

  lemma NormalizeSlashesDropsTrailing()
    ensures NormalizeSlashes("test/") == "/test"
  {
    NormalizeFresh("test/");
  }

  lemma NormalizeSlashesBackslash()
    ensures NormalizeSlashes("a\\b") == "/a/b"
  {
    assert ReplaceChar("a\\b", '\\', '/') == "a/b";
    NormalizeFresh("a/b");
  }

  /** Only one trailing '/' goes: "a//" becomes "/a/". */
  lemma NormalizeSlashesKeepsSecondSlash()
    ensures NormalizeSlashes("a//") == "/a/"
  {
    NormalizeFresh("a//");
  }

  /** A fragment without backslash and not starting with '/' gets the
      leading '/' and loses one trailing '/'. */
  lemma NormalizeFresh(s: string)
    requires s != "" && s[0] != '/' && '\\' !in s
    ensures NormalizeSlashes(s) == if s[|s| - 1] == '/' then "/" + s[..|s| - 1] else "/" + s
  {
    ReplaceAbsent(s, '\\', '/');
    var lead := "/" + s;
    assert lead[|lead| - 1] == s[|s| - 1];
    assert lead[..|lead| - 1] == "/" + s[..|s| - 1];
  }

  /** Replacing a character that does not occur changes nothing. */
  lemma ReplaceAbsent(s: string, a: char, b: char)
    requires a !in s
    ensures ReplaceChar(s, a, b) == s
  {
    var r := ReplaceChar(s, a, b);
    assert forall i :: 0 <= i < |s| ==> r[i] == s[i];
  }

  /** The fragment size of upload sessions: a parsed value is rounded down
      to a multiple of 320 KiB and clamped to 320 KiB..60 MiB; without one
      it is 10 MiB. */
  function FragmentSize(parsed: Option<int>): (r: int)
    ensures r % FragmentMultiple == 0 && FragmentMultiple <= r <= FragmentMaxSize
    ensures parsed.None? ==> r == FragmentDefaultSize
    ensures parsed.Some? && FragmentMultiple <= parsed.value <= FragmentMaxSize ==>
              r <= parsed.value < r + FragmentMultiple
    ensures parsed.Some? && parsed.value < FragmentMultiple ==> r == FragmentMultiple
    ensures parsed.Some? && parsed.value >= FragmentMaxSize ==> r == FragmentMaxSize
  {
    match parsed
    case None => FragmentDefaultSize
    case Some(n) =>
      var rounded := TruncDiv(n, FragmentMultiple) * FragmentMultiple;
      Max(Min(rounded, FragmentMaxSize), FragmentMultiple)
  }

  /** The fragment retry count as the constructor reads it: any parsed
      number is taken, 0 and negative ones included. */
  function RetryCountAsWritten(parsed: Option<int>): (r: int)
    ensures parsed.None? ==> r == DefaultRetryCount
    ensures parsed.Some? ==> r == parsed.value
  {
    if parsed.Some? then parsed.value else DefaultRetryCount
  }

  /** A configured count of 0 reaches the upload loop as is. */
  lemma RetryCountAsWrittenAllowsZero()
    ensures RetryCountAsWritten(Some(0)) <= 0
  {
  }

  /** The retry count with at least one attempt per fragment. */
  function FragmentRetryCount(parsed: Option<int>): (r: int)
    ensures r >= 1
    ensures parsed.None? ==> r == DefaultRetryCount
    ensures parsed.Some? && parsed.value >= 1 ==> r == parsed.value
  {
    if parsed.Some? then Max(parsed.value, 1) else DefaultRetryCount
  }

  datatype Settings = Settings(authId: string, fragmentSize: int, retryCount: int, retryDelay: int)

  datatype ConfigError = MissingAuthId

  /** The constructor's option handling: an auth id is required; each
      numeric option falls back to its default when absent or unparsable
      (`None` here). The retry count is the corrected one, which differs
      from the constructor's only for a parsed count below 1. */
  function Configure(authId: Option<string>, fragmentSize: Option<int>, retryCount: Option<int>,
                     retryDelay: Option<int>): (r: Result<Settings, ConfigError>)
    ensures r.Err? <==> IsNullOrEmpty(authId)
    ensures r.Ok? ==> r.value.authId == authId.value && r.value.retryCount >= 1
    ensures r.Ok? ==> r.value.fragmentSize % FragmentMultiple == 0
    ensures r.Ok? ==> FragmentMultiple <= r.value.fragmentSize <= FragmentMaxSize
    ensures r.Ok? && retryDelay.None? ==> r.value.retryDelay == DefaultRetryDelay
    ensures r.Ok? && retryDelay.Some? ==> r.value.retryDelay == retryDelay.value
    ensures r.Ok? ==> r.value.fragmentSize == FragmentSize(fragmentSize)
    ensures r.Ok? ==> r.value.retryCount == FragmentRetryCount(retryCount)
    ensures r.Ok? && (retryCount.None? || retryCount.value >= 1) ==>
      r.value.retryCount == RetryCountAsWritten(retryCount)
  {
    if IsNullOrEmpty(authId) then Err(MissingAuthId)
    else
      Ok(Settings(authId.value, FragmentSize(fragmentSize), FragmentRetryCount(retryCount),
                  if retryDelay.Some? then retryDelay.value else DefaultRetryDelay))
  }

  /** PutAsync sends one PUT below 4,000,000 bytes and an upload session otherwise. */
  function UsesSinglePut(length: int): (single: bool)
    ensures single <==> length < PutMaxSize
  {
    length < PutMaxSize
  }

  datatype QuotaReport = QuotaReport(total: int, remaining: int, used: int)
  datatype QuotaInfo = QuotaInfo(total: int, free: int)

  /** Quota: nothing is reported when the drive has no quota facet or when
      every figure in it is 0. */
  function Quota(q: Option<QuotaReport>): (r: Option<QuotaInfo>)
    ensures r.None? <==> q.None? || (q.value.total == 0 && q.value.remaining == 0 && q.value.used == 0)
    ensures r.Some? ==> r.value == QuotaInfo(q.value.total, q.value.remaining)
  {
    if q.Some? && (q.value.total != 0 || q.value.remaining != 0 || q.value.used != 0)
    then Some(QuotaInfo(q.value.total, q.value.remaining))
    else None
  }

  datatype GraphError = DriveItemNotFound | GraphFailure(status: int)

  /** CheckResponse: success passes, 404 is "item not found", any other
      status is a Graph failure carrying it. */
  function CheckResponse(status: int): (r: Result<(), GraphError>)
    ensures r.Ok? <==> IsSuccessStatus(status)
    ensures r == Err(DriveItemNotFound) <==> status == 404
    ensures r.Err? && status != 404 ==> r.error == GraphFailure(status)
  {
    if IsSuccessStatus(status) then Ok(())
    else if status == 404 then Err(DriveItemNotFound)
    else Err(GraphFailure(status))
  }

  /** What to do after a fragment PUT failed with a Graph error. */
  datatype Verdict = GiveUp | RetryAfter(delay: int) | RetryNow

  /** The best-practice classification of a failed fragment: the last
      attempt gives up; 5xx waits 2^attempt times the delay; 404 (session
      gone) gives up; other 4xx retry at once; anything else gives up. */
  function Classify(attempt: nat, retryCount: int, status: int, retryDelay: int): (v: Verdict)
    ensures attempt >= retryCount - 1 ==> v == GiveUp
    ensures v.RetryAfter? <==> attempt < retryCount - 1 && 500 <= status < 600
    ensures v.RetryAfter? ==> v.delay == Pow2(attempt) * retryDelay
    ensures v.RetryNow? <==> attempt < retryCount - 1 && 400 <= status < 500 && status != 404
  {
    if attempt >= retryCount - 1 then GiveUp
    else if 500 <= status < 600 then RetryAfter(Pow2(attempt) * retryDelay)
    else if status == 404 then GiveUp
    else if 400 <= status < 500 then RetryNow
    else GiveUp
  }

  /** The requests of an upload session. */
  datatype Request = CreateSession | PutFragment(range: Span, total: int) | CancelSession

  /** How the service answered a fragment PUT: accepted, a Graph error
      (and whether the request had consumed the fragment's stream), or
      any other exception. */
  datatype Reply = Accepted | GraphFailed(status: int, consumed: bool) | Failed

  /** Why a large upload failed: the session could not be created (the
      create-session reply's error), or the fragment at `offset` was not
      accepted. */
  datatype UploadError = SessionNotCreated(cause: GraphError) | SessionFailed(offset: int)

  /** The outcome of one fragment's attempt loop: how many PUTs were sent,
      the back-off delays waited, and whether a PUT was accepted. */
  datatype Try = Try(puts: nat, delays: seq<int>, accepted: bool)

  /** The attempt loop of one fragment from attempt `attempt` on: each
      attempt sends one PUT; an accepted PUT ends the loop, a non-Graph
      failure or a Graph failure after a consumed non-seekable stream
      gives up, and otherwise Classify decides. `reply(offset, attempt)`
      is the service's answer. */
  function Attempts(offset: int, attempt: nat, retryCount: int, retryDelay: int, seekable: bool,
                    reply: (int, nat) -> Reply): (t: Try)
    ensures t.puts <= Max(retryCount - attempt, 0)
    ensures attempt >= retryCount ==> t == Try(0, [], false)
    decreases Max(retryCount - attempt, 0)
  {
    if attempt >= retryCount then Try(0, [], false)
    else match reply(offset, attempt)
      case Accepted => Try(1, [], true)
      case Failed => Try(1, [], false)
      case GraphFailed(status, consumed) =>
        if consumed && !seekable then Try(1, [], false)
        else match Classify(attempt, retryCount, status, retryDelay)
          case GiveUp => Try(1, [], false)
          case RetryAfter(d) =>
            var rest := Attempts(offset, attempt + 1, retryCount, retryDelay, seekable, reply);
            Try(1 + rest.puts, [d] + rest.delays, rest.accepted)
          case RetryNow =>
            var rest := Attempts(offset, attempt + 1, retryCount, retryDelay, seekable, reply);
            Try(1 + rest.puts, rest.delays, rest.accepted)
  }

  /** A fragment counts as uploaded exactly when the last of its PUTs was
      answered with Accepted. */
  lemma {:induction false} AttemptsAccepted(offset: int, attempt: nat, retryCount: int, retryDelay: int,
                                            seekable: bool, reply: (int, nat) -> Reply)
    ensures var t := Attempts(offset, attempt, retryCount, retryDelay, seekable, reply);
      t.accepted <==> t.puts >= 1 && reply(offset, attempt + t.puts - 1) == Accepted
    decreases Max(retryCount - attempt, 0)
  {
    if attempt < retryCount && reply(offset, attempt).GraphFailed? {
      var status := reply(offset, attempt).status;
      if !(reply(offset, attempt).consumed && !seekable) && !Classify(attempt, retryCount, status, retryDelay).GiveUp? {
        AttemptsAccepted(offset, attempt + 1, retryCount, retryDelay, seekable, reply);
      }
    }
  }

  /** `d` is the back-off Classify gives for a 5xx answer to an attempt of
      the fragment at `offset`, from attempt `from` on, that was not the
      last one allowed. */
  ghost predicate IsBackoff(d: int, offset: int, from: nat, retryCount: int, retryDelay: int,
                            reply: (int, nat) -> Reply)
  {
    exists j: nat :: from <= j < retryCount - 1 && reply(offset, j).GraphFailed?
      && 500 <= reply(offset, j).status < 600 && d == Pow2(j) * retryDelay
  }

  /** Every back-off delay is one Classify gives for a 5xx answer. */
  lemma {:induction false} AttemptsDelays(offset: int, attempt: nat, retryCount: int, retryDelay: int,
                                          seekable: bool, reply: (int, nat) -> Reply)
    ensures forall i :: 0 <= i < |Attempts(offset, attempt, retryCount, retryDelay, seekable, reply).delays| ==>
      IsBackoff(Attempts(offset, attempt, retryCount, retryDelay, seekable, reply).delays[i],
                offset, attempt, retryCount, retryDelay, reply)
    decreases Max(retryCount - attempt, 0)
  {
    var t := Attempts(offset, attempt, retryCount, retryDelay, seekable, reply);
    if attempt < retryCount && reply(offset, attempt).GraphFailed? {
      var status := reply(offset, attempt).status;
      if !(reply(offset, attempt).consumed && !seekable) && !Classify(attempt, retryCount, status, retryDelay).GiveUp? {
        AttemptsDelays(offset, attempt + 1, retryCount, retryDelay, seekable, reply);
        var rest := Attempts(offset, attempt + 1, retryCount, retryDelay, seekable, reply);
        var cls := Classify(attempt, retryCount, status, retryDelay);
        forall i | 0 <= i < |t.delays|
          ensures IsBackoff(t.delays[i], offset, attempt, retryCount, retryDelay, reply)
        {
          if cls.RetryAfter? && i == 0 {
            assert t.delays[0] == Pow2(attempt) * retryDelay;
          } else {
            var i' := if cls.RetryAfter? then i - 1 else i;
            assert t.delays[i] == rest.delays[i'];
            assert IsBackoff(rest.delays[i'], offset, attempt + 1, retryCount, retryDelay, reply);
            var j: nat :| attempt + 1 <= j < retryCount - 1 && reply(offset, j).GraphFailed?
              && 500 <= reply(offset, j).status < 600 && rest.delays[i'] == Pow2(j) * retryDelay;
          }
        }
      }
    }
  }

  /** The attempt loop of PutLargeAsync for the fragment at `offset`. */
  method SendFragment(offset: int, retryCount: int, retryDelay: int, seekable: bool, reply: (int, nat) -> Reply)
    returns (puts: nat, delays: seq<int>, accepted: bool)
    ensures Try(puts, delays, accepted) == Attempts(offset, 0, retryCount, retryDelay, seekable, reply)
  {
    var attempt: nat := 0;
    delays := [];
    while attempt < retryCount
      invariant var rest := Attempts(offset, attempt, retryCount, retryDelay, seekable, reply);
        Attempts(offset, 0, retryCount, retryDelay, seekable, reply) == Try(attempt + rest.puts, delays + rest.delays, rest.accepted)
      decreases retryCount - attempt
    {
      match reply(offset, attempt) {
        case Accepted =>
          return attempt + 1, delays, true;
        case Failed =>
          return attempt + 1, delays, false;
        case GraphFailed(status, consumed) =>
          if consumed && !seekable {
            return attempt + 1, delays, false;
          }
          match Classify(attempt, retryCount, status, retryDelay) {
            case GiveUp =>
              return attempt + 1, delays, false;
            case RetryAfter(d) =>
              delays := delays + [d];
              attempt := attempt + 1;
            case RetryNow =>
              attempt := attempt + 1;
          }
      }
    }
    return attempt, delays, false;
  }

  /** Where fragment `k` starts: `k` fragments of `fragmentSize` bytes in. */
  function FragmentStart(k: nat, fragmentSize: int): int
  {
    if k == 0 then 0 else FragmentStart(k - 1, fragmentSize) + fragmentSize
  }

  lemma {:induction false} FragmentStartIsProduct(k: nat, fragmentSize: int)
    ensures FragmentStart(k, fragmentSize) == k * fragmentSize
  {
    if k > 0 {
      FragmentStartIsProduct(k - 1, fragmentSize);
      assert k * fragmentSize == (k - 1) * fragmentSize + fragmentSize;
    }
  }

  lemma {:induction false} FragmentStartAtLeast(k: nat, fragmentSize: int)
    requires fragmentSize > 0
    ensures k >= 1 ==> FragmentStart(k, fragmentSize) >= fragmentSize
  {
    if k > 1 {
      FragmentStartAtLeast(k - 1, fragmentSize);
    }
  }

  /** The span of fragment `k`: fragments are `fragmentSize` bytes long
      from offset 0, the last one shortened to end at the stream's end. */
  function FragmentSpan(k: nat, fragmentSize: int, length: int): (s: Span)
    ensures s.first == FragmentStart(k, fragmentSize)
  {
    Span(FragmentStart(k, fragmentSize), Min(FragmentStart(k + 1, fragmentSize), length) - 1)
  }

  /** `n` copies of the same request. */
  function Repeat(q: Request, n: nat): (rs: seq<Request>)
    ensures |rs| == n && forall i :: 0 <= i < n ==> rs[i] == q
  {
    if n == 0 then [] else Repeat(q, n - 1) + [q]
  }

  /** The PUTs of the first `n` fragments, each repeated as its attempt loop
      sends it. */
  function FragmentRequests(n: nat, fragmentSize: int, length: int, retryCount: int, retryDelay: int,
                            seekable: bool, reply: (int, nat) -> Reply): (rs: seq<Request>)
    ensures forall q :: q in rs ==> q.PutFragment? && q.total == length
  {
    if n == 0 then []
    else
      var span := FragmentSpan(n - 1, fragmentSize, length);
      var t := Attempts(span.first, 0, retryCount, retryDelay, seekable, reply);
      FragmentRequests(n - 1, fragmentSize, length, retryCount, retryDelay, seekable, reply)
        + Repeat(PutFragment(span, length), t.puts)
  }

  /** Every PUT of the first `n` fragments carries a range inside the
      stream, when the last of them starts inside it. */
  lemma {:induction false} FragmentRequestsInRange(n: nat, fragmentSize: int, length: int, retryCount: int,
                                                   retryDelay: int, seekable: bool, reply: (int, nat) -> Reply)
    requires fragmentSize > 0 && (n == 0 || FragmentStart(n - 1, fragmentSize) < length)
    ensures forall q :: q in FragmentRequests(n, fragmentSize, length, retryCount, retryDelay, seekable, reply) ==>
      0 <= q.range.first <= q.range.last < length
  {
    if n > 0 {
      if n > 1 {
        FragmentStartNonNegative(n - 2, fragmentSize);
        FragmentRequestsInRange(n - 1, fragmentSize, length, retryCount, retryDelay, seekable, reply);
      }
      FragmentStartNonNegative(n - 1, fragmentSize);
    }
  }

  lemma {:induction false} FragmentStartNonNegative(k: nat, fragmentSize: int)
    requires fragmentSize > 0
    ensures FragmentStart(k, fragmentSize) >= 0
  {
    if k > 0 {
      FragmentStartNonNegative(k - 1, fragmentSize);
    }
  }

  /** The back-off delays of the first `n` fragments, in order. */
  function FragmentDelays(n: nat, fragmentSize: int, retryCount: int, retryDelay: int, seekable: bool,
                          reply: (int, nat) -> Reply): (ds: seq<int>)
  {
    if n == 0 then []
    else
      var t := Attempts(FragmentStart(n - 1, fragmentSize), 0, retryCount, retryDelay, seekable, reply);
      FragmentDelays(n - 1, fragmentSize, retryCount, retryDelay, seekable, reply) + t.delays
  }

  /** The loop's step from fragment k: the span it reads is FragmentSpan(k),
      and unless it reaches the end the next offset is where fragment k+1
      starts. */
  lemma NextFragment(k: nat, fragmentSize: int, length: int, offset: int)
    requires fragmentSize > 0 && 0 <= offset == FragmentStart(k, fragmentSize) < length
    ensures var bufferSize := Min(fragmentSize, length);
      var read := if length < offset + bufferSize then length - offset else bufferSize;
      read >= 1 && offset + read <= length
      && Span(offset, offset + read - 1) == FragmentSpan(k, fragmentSize, length)
      && (offset + read < length ==> offset + read == FragmentStart(k + 1, fragmentSize))
  {
    FragmentStartAtLeast(k, fragmentSize);
  }

  /** The state of PutLargeAsync after `k` fragments, up to `offset`: the
      session request, then each fragment's PUTs and delays; the fragments
      accepted are uploaded, each where FragmentSpan puts it. */
  ghost predicate SentUpTo(k: nat, offset: int, length: int, fragmentSize: int, retryCount: int, retryDelay: int,
                           seekable: bool, reply: (int, nat) -> Reply,
                           sent: seq<Request>, uploaded: seq<Span>, delays: seq<int>)
  {
    0 <= offset <= length
    && (offset < length ==> offset == FragmentStart(k, fragmentSize))
    && (retryCount <= 0 ==> uploaded == [] && sent == [CreateSession] && delays == [])
    && (retryCount >= 1 ==>
          Tiles(uploaded, 0, offset) && |uploaded| == k
          && sent == [CreateSession] + FragmentRequests(k, fragmentSize, length, retryCount, retryDelay, seekable, reply)
          && delays == FragmentDelays(k, fragmentSize, retryCount, retryDelay, seekable, reply))
    && (forall j :: 0 <= j < |uploaded| ==>
          uploaded[j] == FragmentSpan(j, fragmentSize, length)
          && Attempts(uploaded[j].first, 0, retryCount, retryDelay, seekable, reply).accepted)
  }

  lemma {:induction false} FragmentsSnoc(k: nat, fragmentSize: int, length: int, retryCount: int, retryDelay: int,
                      seekable: bool, reply: (int, nat) -> Reply)
    ensures var span := FragmentSpan(k, fragmentSize, length);
      var t := Attempts(span.first, 0, retryCount, retryDelay, seekable, reply);
      FragmentRequests(k + 1, fragmentSize, length, retryCount, retryDelay, seekable, reply)
        == FragmentRequests(k, fragmentSize, length, retryCount, retryDelay, seekable, reply)
           + Repeat(PutFragment(span, length), t.puts)
      && FragmentDelays(k + 1, fragmentSize, retryCount, retryDelay, seekable, reply)
        == FragmentDelays(k, fragmentSize, retryCount, retryDelay, seekable, reply) + t.delays
  {
  }

  /** One more fragment keeps SentUpTo. */
  lemma {:induction false} SentStep(k: nat, offset: int, length: int, fragmentSize: int, retryCount: int,
                                    retryDelay: int, seekable: bool, reply: (int, nat) -> Reply,
                                    sent: seq<Request>, uploaded: seq<Span>, delays: seq<int>, span: Span,
                                    puts: seq<Request>, waits: seq<int>,
                                    sent': seq<Request>, uploaded': seq<Span>, delays': seq<int>, offset': int)
    requires fragmentSize > 0 && offset < length
    requires SentUpTo(k, offset, length, fragmentSize, retryCount, retryDelay, seekable, reply, sent, uploaded, delays)
    requires span == FragmentSpan(k, fragmentSize, length) && span.first == offset <= span.last < length
    requires offset' == span.last + 1 && (offset' < length ==> offset' == FragmentStart(k + 1, fragmentSize))
    requires var t := Attempts(offset, 0, retryCount, retryDelay, seekable, reply);
      puts == Repeat(PutFragment(span, length), t.puts) && waits == t.delays && (t.accepted || retryCount <= 0)
    requires sent' == sent + puts && delays' == delays + waits
    requires uploaded' == if retryCount >= 1 then uploaded + [span] else uploaded
    ensures SentUpTo(k + 1, offset', length, fragmentSize, retryCount, retryDelay, seekable, reply, sent', uploaded', delays')
  {
    if retryCount >= 1 {
      TilesSnoc(uploaded, 0, offset, span);
      FragmentsSnoc(k, fragmentSize, length, retryCount, retryDelay, seekable, reply);
      assert sent' == [CreateSession]
        + FragmentRequests(k + 1, fragmentSize, length, retryCount, retryDelay, seekable, reply);
    }
  }

  /** A fragment that was not accepted ends PutLargeAsync with the session
      cancelled. */
  lemma {:induction false} SentFail(k: nat, offset: int, length: int, fragmentSize: int, retryCount: int,
                                    retryDelay: int, seekable: bool, reply: (int, nat) -> Reply,
                                    sent: seq<Request>, uploaded: seq<Span>, delays: seq<int>, span: Span,
                                    puts: seq<Request>, waits: seq<int>, sent': seq<Request>, delays': seq<int>)
    requires fragmentSize > 0 && offset < length && retryCount >= 1
    requires SentUpTo(k, offset, length, fragmentSize, retryCount, retryDelay, seekable, reply, sent, uploaded, delays)
    requires k == 0 || FragmentStart(k - 1, fragmentSize) < length
    requires span == FragmentSpan(k, fragmentSize, length) && span.first == offset
    requires var t := Attempts(offset, 0, retryCount, retryDelay, seekable, reply);
      puts == Repeat(PutFragment(span, length), t.puts) && waits == t.delays && !t.accepted
    requires sent' == sent + puts + [CancelSession] && delays' == delays + waits
    ensures offset == FragmentStart(|uploaded|, fragmentSize) < length
    ensures !Attempts(offset, 0, retryCount, retryDelay, seekable, reply).accepted
    ensures sent' == [CreateSession]
      + FragmentRequests(|uploaded| + 1, fragmentSize, length, retryCount, retryDelay, seekable, reply) + [CancelSession]
    ensures delays' == FragmentDelays(|uploaded| + 1, fragmentSize, retryCount, retryDelay, seekable, reply)
    ensures forall q :: q in sent' && q.PutFragment? ==> q.total == length && 0 <= q.range.first <= q.range.last < length
  {
    FragmentsSnoc(k, fragmentSize, length, retryCount, retryDelay, seekable, reply);
    assert sent + puts == [CreateSession]
      + FragmentRequests(k + 1, fragmentSize, length, retryCount, retryDelay, seekable, reply);
    FragmentRequestsInRange(k + 1, fragmentSize, length, retryCount, retryDelay, seekable, reply);
  }

  /** What SentUpTo gives once every fragment was sent. */
  lemma {:induction false} LargeUploaded(k: nat, length: nat, fragmentSize: int, retryCount: int, retryDelay: int,
                                         seekable: bool, reply: (int, nat) -> Reply,
                                         sent: seq<Request>, uploaded: seq<Span>, delays: seq<int>)
    requires fragmentSize > 0
    requires SentUpTo(k, length, length, fragmentSize, retryCount, retryDelay, seekable, reply, sent, uploaded, delays)
    requires k == 0 || FragmentStart(k - 1, fragmentSize) < length
    ensures |sent| > 0 && sent[0] == CreateSession
    ensures retryCount >= 1 ==> Tiles(uploaded, 0, length)
    ensures retryCount <= 0 ==> uploaded == [] && sent == [CreateSession] && delays == []
    ensures forall j :: 0 <= j < |uploaded| ==>
      uploaded[j] == FragmentSpan(j, fragmentSize, length)
      && Attempts(uploaded[j].first, 0, retryCount, retryDelay, seekable, reply).accepted
    ensures retryCount >= 1 ==>
      sent == [CreateSession] + FragmentRequests(|uploaded|, fragmentSize, length, retryCount, retryDelay, seekable, reply)
      && delays == FragmentDelays(|uploaded|, fragmentSize, retryCount, retryDelay, seekable, reply)
    ensures forall q :: q in sent && q.PutFragment? ==> q.total == length && 0 <= q.range.first <= q.range.last < length
  {
    FragmentRequestsInRange(k, fragmentSize, length, retryCount, retryDelay, seekable, reply);
  }

  /** What the failed fragment at `offset` gives PutLargeAsync's result. */
  lemma {:induction false} LargeFailed(offset: int, length: nat, fragmentSize: int, retryCount: int,
                                       retryDelay: int, seekable: bool, reply: (int, nat) -> Reply,
                                       sent: seq<Request>, uploaded: seq<Span>, delays: seq<int>,
                                       r: Result<(), UploadError>)
    requires r == Err(SessionFailed(offset)) && retryCount >= 1
    requires forall j :: 0 <= j < |uploaded| ==>
      uploaded[j] == FragmentSpan(j, fragmentSize, length)
      && Attempts(uploaded[j].first, 0, retryCount, retryDelay, seekable, reply).accepted
    requires offset == FragmentStart(|uploaded|, fragmentSize) < length
    requires !Attempts(offset, 0, retryCount, retryDelay, seekable, reply).accepted
    requires sent == [CreateSession]
      + FragmentRequests(|uploaded| + 1, fragmentSize, length, retryCount, retryDelay, seekable, reply) + [CancelSession]
    requires delays == FragmentDelays(|uploaded| + 1, fragmentSize, retryCount, retryDelay, seekable, reply)
    ensures |sent| > 0 && sent[0] == CreateSession && sent[|sent| - 1] == CancelSession
    ensures r.error.offset == FragmentStart(|uploaded|, fragmentSize) < length
      && !Attempts(r.error.offset, 0, retryCount, retryDelay, seekable, reply).accepted
  {
  }

  /** PutLargeAsync: the session is created first, and a create-session
      reply with status `sessionStatus` that CheckResponse refuses ends the
      upload with that error. Then fragment k covers FragmentSpan(k) and is
      sent by its attempt loop; an accepted fragment is uploaded and the
      next one follows, a fragment that is not accepted cancels the session
      and fails with its offset. With no attempts allowed (retry count 0 or
      less) no fragment is sent at all. */
  method PutLarge(length: nat, fragmentSize: int, retryCount: int, retryDelay: int, seekable: bool,
                  sessionStatus: int, reply: (int, nat) -> Reply)
    returns (sent: seq<Request>, uploaded: seq<Span>, delays: seq<int>, r: Result<(), UploadError>)
    requires fragmentSize > 0
    ensures |sent| > 0 && sent[0] == CreateSession
    ensures CheckResponse(sessionStatus).Err? <==> r.Err? && r.error.SessionNotCreated?
    ensures CheckResponse(sessionStatus).Err? ==>
      r == Err(SessionNotCreated(CheckResponse(sessionStatus).error))
      && sent == [CreateSession] && uploaded == [] && delays == []
    ensures r.Err? && r.error.SessionFailed? ==> sent[|sent| - 1] == CancelSession
    ensures r.Ok? && retryCount >= 1 ==> Tiles(uploaded, 0, length)
    ensures retryCount <= 0 && CheckResponse(sessionStatus).Ok? ==>
      r.Ok? && uploaded == [] && sent == [CreateSession] && delays == []
    ensures forall k :: 0 <= k < |uploaded| ==>
      uploaded[k] == FragmentSpan(k, fragmentSize, length)
      && Attempts(uploaded[k].first, 0, retryCount, retryDelay, seekable, reply).accepted
    ensures r.Err? && r.error.SessionFailed? ==>
      retryCount >= 1 && r.error.offset == FragmentStart(|uploaded|, fragmentSize) < length
      && !Attempts(r.error.offset, 0, retryCount, retryDelay, seekable, reply).accepted
    ensures r.Ok? && retryCount >= 1 ==>
      sent == [CreateSession] + FragmentRequests(|uploaded|, fragmentSize, length, retryCount, retryDelay, seekable, reply)
      && delays == FragmentDelays(|uploaded|, fragmentSize, retryCount, retryDelay, seekable, reply)
    ensures r.Err? && r.error.SessionFailed? ==>
      sent == [CreateSession]
        + FragmentRequests(|uploaded| + 1, fragmentSize, length, retryCount, retryDelay, seekable, reply) + [CancelSession]
      && delays == FragmentDelays(|uploaded| + 1, fragmentSize, retryCount, retryDelay, seekable, reply)
    ensures forall q :: q in sent && q.PutFragment? ==> q.total == length && 0 <= q.range.first <= q.range.last < length
  {
    if CheckResponse(sessionStatus).Err? {
      return [CreateSession], [], [], Err(SessionNotCreated(CheckResponse(sessionStatus).error));
    }
    var failedAt: Option<int>;
    ghost var k: nat;
    sent, uploaded, delays, failedAt, k := SendFragments(length, fragmentSize, retryCount, retryDelay, seekable, reply);
    if failedAt.Some? {
      r := Err(SessionFailed(failedAt.value));
      LargeFailed(failedAt.value, length, fragmentSize, retryCount, retryDelay, seekable, reply,
                  sent, uploaded, delays, r);
    } else {
      LargeUploaded(k, length, fragmentSize, retryCount, retryDelay, seekable, reply, sent, uploaded, delays);
      r := Ok(());
    }
  }

  /** The fragment loop of PutLargeAsync, up to the end of the stream or
      the first fragment that is not accepted. */
  method SendFragments(length: nat, fragmentSize: int, retryCount: int, retryDelay: int, seekable: bool,
                       reply: (int, nat) -> Reply)
    returns (sent: seq<Request>, uploaded: seq<Span>, delays: seq<int>, failedAt: Option<int>, ghost k: nat)
    requires fragmentSize > 0
    ensures failedAt.None? ==>
      SentUpTo(k, length, length, fragmentSize, retryCount, retryDelay, seekable, reply, sent, uploaded, delays)
      && (k == 0 || FragmentStart(k - 1, fragmentSize) < length)
    ensures failedAt.Some? ==>
      retryCount >= 1
      && (forall j :: 0 <= j < |uploaded| ==>
            uploaded[j] == FragmentSpan(j, fragmentSize, length)
            && Attempts(uploaded[j].first, 0, retryCount, retryDelay, seekable, reply).accepted)
      && failedAt.value == FragmentStart(|uploaded|, fragmentSize) < length
      && !Attempts(failedAt.value, 0, retryCount, retryDelay, seekable, reply).accepted
      && sent == [CreateSession]
        + FragmentRequests(|uploaded| + 1, fragmentSize, length, retryCount, retryDelay, seekable, reply) + [CancelSession]
      && delays == FragmentDelays(|uploaded| + 1, fragmentSize, retryCount, retryDelay, seekable, reply)
      && forall q :: q in sent && q.PutFragment? ==> q.total == length && 0 <= q.range.first <= q.range.last < length
  {
    sent, uploaded, delays := [CreateSession], [], [];
    var bufferSize := Min(fragmentSize, length);
    var offset := 0;
    k := 0;
    while offset < length
      invariant SentUpTo(k, offset, length, fragmentSize, retryCount, retryDelay, seekable, reply, sent, uploaded, delays)
      invariant k == 0 || FragmentStart(k - 1, fragmentSize) < length
      decreases length - offset
    {
      var failed: bool, offset': int;
      sent, uploaded, delays, offset', failed := SendNext(k, offset, bufferSize, length, fragmentSize,
                                                          retryCount, retryDelay, seekable, reply,
                                                          sent, uploaded, delays);
      if failed {
        return sent, uploaded, delays, Some(offset), k;
      }
      offset := offset';
      k := k + 1;
    }
    failedAt := None;
  }

  /** One round of PutLargeAsync's fragment loop: fragment `k` at `offset`
      is sent; if it is not accepted the session is cancelled, otherwise it
      is recorded as uploaded and the offset moves past it. */
  method SendNext(ghost k: nat, offset: int, bufferSize: int, length: int, fragmentSize: int, retryCount: int,
                  retryDelay: int, seekable: bool, reply: (int, nat) -> Reply,
                  sent: seq<Request>, uploaded: seq<Span>, delays: seq<int>)
    returns (sent': seq<Request>, uploaded': seq<Span>, delays': seq<int>, offset': int, failed: bool)
    requires fragmentSize > 0 && offset < length && bufferSize == Min(fragmentSize, length)
    requires SentUpTo(k, offset, length, fragmentSize, retryCount, retryDelay, seekable, reply, sent, uploaded, delays)
    requires k == 0 || FragmentStart(k - 1, fragmentSize) < length
    ensures !failed ==>
      offset < offset' && FragmentStart(k, fragmentSize) < length
      && SentUpTo(k + 1, offset', length, fragmentSize, retryCount, retryDelay, seekable, reply, sent', uploaded', delays')
    ensures failed ==>
      retryCount >= 1 && uploaded' == uploaded
      && (forall j :: 0 <= j < |uploaded'| ==>
            uploaded'[j] == FragmentSpan(j, fragmentSize, length)
            && Attempts(uploaded'[j].first, 0, retryCount, retryDelay, seekable, reply).accepted)
      && offset == FragmentStart(|uploaded|, fragmentSize) < length
      && !Attempts(offset, 0, retryCount, retryDelay, seekable, reply).accepted
      && sent' == [CreateSession]
        + FragmentRequests(|uploaded| + 1, fragmentSize, length, retryCount, retryDelay, seekable, reply) + [CancelSession]
      && delays' == FragmentDelays(|uploaded| + 1, fragmentSize, retryCount, retryDelay, seekable, reply)
      && forall q :: q in sent' && q.PutFragment? ==> q.total == length && 0 <= q.range.first <= q.range.last < length
  {
    var read := if length < offset + bufferSize then length - offset else bufferSize;
    var span := Span(offset, offset + read - 1);
    NextFragment(k, fragmentSize, length, offset);
    var puts, waits, accepted := UploadFragment(k, offset, span, length, fragmentSize, retryCount, retryDelay,
                                                seekable, reply);
    if !accepted && retryCount >= 1 {
      sent', uploaded', delays', offset', failed := sent + puts + [CancelSession], uploaded, delays + waits, offset, true;
      SentFail(k, offset, length, fragmentSize, retryCount, retryDelay, seekable, reply,
               sent, uploaded, delays, span, puts, waits, sent', delays');
      return;
    }
    sent' := sent + puts;
    delays' := delays + waits;
    uploaded' := if retryCount >= 1 then uploaded + [span] else uploaded;
    offset' := offset + read;
    failed := false;
    SentStep(k, offset, length, fragmentSize, retryCount, retryDelay, seekable, reply,
             sent, uploaded, delays, span, puts, waits, sent', uploaded', delays', offset');
  }

  /** One fragment of PutLargeAsync: its attempt loop, and the PUT requests
      it sent. */
  method UploadFragment(ghost k: nat, offset: int, span: Span, length: int, fragmentSize: int,
                        retryCount: int, retryDelay: int, seekable: bool, reply: (int, nat) -> Reply)
    returns (puts: seq<Request>, waits: seq<int>, accepted: bool)
    requires span == FragmentSpan(k, fragmentSize, length) && 0 <= offset == span.first <= span.last < length
    ensures var t := Attempts(offset, 0, retryCount, retryDelay, seekable, reply);
      puts == Repeat(PutFragment(span, length), t.puts) && waits == t.delays && accepted == t.accepted
    ensures retryCount <= 0 ==> puts == [] && waits == [] && !accepted
  {
    var n;
    n, waits, accepted := SendFragment(offset, retryCount, retryDelay, seekable, reply);
    puts := Repeat(PutFragment(span, length), n);
  }

  /** The path of the folder reached after the given components: "/a/b/c". */
  function PathOf(parts: seq<string>): (p: string)
    ensures parts != [] ==> |p| > 0 && p[0] == '/'
  {
    if parts == [] then "" else PathOf(parts[..|parts| - 1]) + "/" + parts[|parts| - 1]
  }

  /** A path built from non-empty components without separators is left
      alone by NormalizeSlashes. */
  lemma NormalizedPathOf(parts: seq<string>)
    requires parts != []
    requires forall i :: 0 <= i < |parts| ==> parts[i] != "" && '/' !in parts[i] && '\\' !in parts[i]
    ensures NormalizeSlashes(PathOf(parts)) == PathOf(parts)
  {
    var p := PathOf(parts);
    NoBackslashInPath(parts);
    ReplaceAbsent(p, '\\', '/');
    assert p[|p| - 1] == parts[|parts| - 1][|parts[|parts| - 1]| - 1];
  }

  lemma {:induction false} NoBackslashInPath(parts: seq<string>)
    requires forall i :: 0 <= i < |parts| ==> '\\' !in parts[i]
    ensures '\\' !in PathOf(parts)
  {
    if parts != [] {
      NoBackslashInPath(parts[..|parts| - 1]);
    }
  }

  /** The id of the parent of the i-th folder of the walk. */
  function ParentId(ids: seq<string>, i: int): string
    requires 0 <= i <= |ids|
  {
    if i == 0 then "root" else ids[i - 1]
  }

  /** The GET of a path answered "item not found". */
  predicate Missing(lookup: string -> Result<string, GraphError>, path: string) {
    lookup(path) == Err(DriveItemNotFound)
  }

  /** One component of the walk: the GET of its path gives the folder's
      id; "item not found" is answered by POSTing a new folder `name`
      under `parent`, whose reply gives the id; any other GET error, or a
      failed POST, is the walk's error. `lookup(path)` is the service's
      answer to the GET, `post(parent, name)` its answer to the POST. */
  function Reach(lookup: string -> Result<string, GraphError>, post: (string, string) -> Result<string, GraphError>,
                 parent: string, name: string, path: string): Result<string, GraphError>
  {
    if Missing(lookup, path) then post(parent, name) else lookup(path)
  }

  /** The folders the walk creates among the first k components, in walk
      order: (parent id, name) for each component whose path is missing,
      the parent being the folder reached before it. */
  function Posts(parts: seq<string>, lookup: string -> Result<string, GraphError>, ids: seq<string>, k: nat)
    : (p: seq<(string, string)>)
    requires k <= |parts| && k <= |ids|
    ensures |p| <= k
    ensures forall x :: x in p ==> exists i :: 0 <= i < k && x == (ParentId(ids, i), parts[i])
    decreases k
  {
    if k == 0 then []
    else Posts(parts, lookup, ids, k - 1)
         + (if Missing(lookup, PathOf(parts[..k])) then [(ParentId(ids, k - 1), parts[k - 1])] else [])
  }

  /** The creations of the first k components do not depend on the ids
      reached after them. */
  lemma {:induction false} PostsExtend(parts: seq<string>, lookup: string -> Result<string, GraphError>,
                                       ids: seq<string>, id: string, k: nat)
    requires k <= |parts| && k <= |ids|
    ensures Posts(parts, lookup, ids + [id], k) == Posts(parts, lookup, ids, k)
    decreases k
  {
    if k > 0 {
      PostsExtend(parts, lookup, ids, id, k - 1);
      assert ParentId(ids + [id], k - 1) == ParentId(ids, k - 1);
    }
  }

  /** The folder walk has handled the first k components: the paths it
      looked up, the ids it reached, and exactly the folders it POSTed, in
      walk order. */
  ghost predicate WalkedTo(parts: seq<string>, lookup: string -> Result<string, GraphError>,
                           post: (string, string) -> Result<string, GraphError>,
                           visited: seq<string>, ids: seq<string>, posted: seq<(string, string)>, k: nat)
  {
    WalkedPaths(parts, lookup, post, visited, ids, posted, k)
    && posted == Posts(parts, lookup, ids, k)
  }

  /** The paths looked up and the ids reached for the first k components,
      with a POST for each missing one. */
  ghost predicate WalkedPaths(parts: seq<string>, lookup: string -> Result<string, GraphError>,
                              post: (string, string) -> Result<string, GraphError>,
                              visited: seq<string>, ids: seq<string>, posted: seq<(string, string)>, k: nat)
  {
    k <= |parts| && |visited| == k == |ids|
    && (forall i {:trigger visited[i]} :: 0 <= i < k ==> visited[i] == PathOf(parts[..i + 1]))
    && (forall i {:trigger visited[i]} :: 0 <= i < k ==>
          Reach(lookup, post, ParentId(ids, i), parts[i], visited[i]) == Ok(ids[i]))
    && (forall i {:trigger visited[i]} :: 0 <= i < k && Missing(lookup, visited[i]) ==>
          (ParentId(ids, i), parts[i]) in posted)
  }

  /** The walk stopped at component k = |ids| with error `e`: the first k
      components were handled, then the GET of the next path failed with
      an error other than "item not found", or it was missing and its POST
      failed. */
  ghost predicate WalkFailed(parts: seq<string>, lookup: string -> Result<string, GraphError>,
                             post: (string, string) -> Result<string, GraphError>,
                             visited: seq<string>, ids: seq<string>, posted: seq<(string, string)>, e: GraphError)
  {
    var k := |ids|;
    k < |parts| && |visited| == k + 1
    && WalkedTo(parts, lookup, post, visited[..k], ids, Posts(parts, lookup, ids, k), k)
    && visited[k] == PathOf(parts[..k + 1])
    && Reach(lookup, post, ParentId(ids, k), parts[k], visited[k]) == Err(e)
    && posted == Posts(parts, lookup, ids, k)
                 + (if Missing(lookup, visited[k]) then [(ParentId(ids, k), parts[k])] else [])
  }

  /** One more component that is reached: its path is looked up, and
      created under the folder reached last when missing. */
  lemma WalkStep(parts: seq<string>, lookup: string -> Result<string, GraphError>,
                 post: (string, string) -> Result<string, GraphError>,
                 visited: seq<string>, ids: seq<string>, posted: seq<(string, string)>, k: nat)
    requires WalkedTo(parts, lookup, post, visited, ids, posted, k) && k < |parts|
    requires Reach(lookup, post, ParentId(ids, k), parts[k], PathOf(parts[..k + 1])).Ok?
    ensures var path := PathOf(parts[..k + 1]);
      var id := Reach(lookup, post, ParentId(ids, k), parts[k], path).value;
      var posted' := if Missing(lookup, path) then posted + [(ParentId(ids, k), parts[k])] else posted;
      WalkedTo(parts, lookup, post, visited + [path], ids + [id], posted', k + 1)
  {
    var path := PathOf(parts[..k + 1]);
    var id := Reach(lookup, post, ParentId(ids, k), parts[k], path).value;
    PathsStep(parts, lookup, post, visited, ids, posted, k);
    PostsStep(parts, lookup, ids, id, k);
  }

  /** The creations of k + 1 components: those of the first k, then the
      last one's when its path is missing. */
  lemma PostsStep(parts: seq<string>, lookup: string -> Result<string, GraphError>, ids: seq<string>, id: string,
                  k: nat)
    requires k < |parts| && k <= |ids|
    ensures Posts(parts, lookup, ids + [id], k + 1)
      == Posts(parts, lookup, ids, k)
         + (if Missing(lookup, PathOf(parts[..k + 1])) then [(ParentId(ids, k), parts[k])] else [])
  {
    PostsExtend(parts, lookup, ids, id, k);
    assert ParentId(ids + [id], k) == ParentId(ids, k);
  }

  /** WalkStep for the paths looked up and the ids reached. */
  lemma PathsStep(parts: seq<string>, lookup: string -> Result<string, GraphError>,
                  post: (string, string) -> Result<string, GraphError>,
                  visited: seq<string>, ids: seq<string>, posted: seq<(string, string)>, k: nat)
    requires WalkedPaths(parts, lookup, post, visited, ids, posted, k) && k < |parts|
    requires Reach(lookup, post, ParentId(ids, k), parts[k], PathOf(parts[..k + 1])).Ok?
    ensures var path := PathOf(parts[..k + 1]);
      var id := Reach(lookup, post, ParentId(ids, k), parts[k], path).value;
      var posted' := if Missing(lookup, path) then posted + [(ParentId(ids, k), parts[k])] else posted;
      WalkedPaths(parts, lookup, post, visited + [path], ids + [id], posted', k + 1)
  {
    var path := PathOf(parts[..k + 1]);
    var id := Reach(lookup, post, ParentId(ids, k), parts[k], path).value;
    var posted' := if Missing(lookup, path) then posted + [(ParentId(ids, k), parts[k])] else posted;
    var visited', ids' := visited + [path], ids + [id];
    assert ParentId(ids', k) == ParentId(ids, k);
    forall i | 0 <= i < k + 1
      ensures visited'[i] == PathOf(parts[..i + 1])
      ensures Reach(lookup, post, ParentId(ids', i), parts[i], visited'[i]) == Ok(ids'[i])
      ensures Missing(lookup, visited'[i]) ==> (ParentId(ids', i), parts[i]) in posted'
    {
      if i < k {
        assert visited'[i] == visited[i] && ids'[i] == ids[i] && ParentId(ids', i) == ParentId(ids, i);
      }
    }
  }

  /** A component that is not reached ends the walk as WalkFailed. */
  lemma WalkFails(parts: seq<string>, lookup: string -> Result<string, GraphError>,
                  post: (string, string) -> Result<string, GraphError>,
                  visited: seq<string>, ids: seq<string>, posted: seq<(string, string)>, k: nat)
    requires WalkedTo(parts, lookup, post, visited, ids, posted, k) && k < |parts|
    requires Reach(lookup, post, ParentId(ids, k), parts[k], PathOf(parts[..k + 1])).Err?
    ensures var path := PathOf(parts[..k + 1]);
      var posted' := if Missing(lookup, path) then posted + [(ParentId(ids, k), parts[k])] else posted;
      WalkFailed(parts, lookup, post, visited + [path], ids, posted',
                 Reach(lookup, post, ParentId(ids, k), parts[k], path).error)
  {
    assert (visited + [PathOf(parts[..k + 1])])[..k] == visited;
  }

  /** CreateFolderAsync: walks the components of the root path, looking up
      "/a", "/a/b", ... in turn and creating under the folder just reached
      each one the service reports missing; a GET that fails otherwise, or
      a failed POST, ends the walk with its error. The root path is one
      NormalizeSlashes produced, so it holds no backslash and each path
      looked up is the cumulative path itself. */
  method CreateFolder(rootPath: string, lookup: string -> Result<string, GraphError>,
                      post: (string, string) -> Result<string, GraphError>)
    returns (visited: seq<string>, ids: seq<string>, posted: seq<(string, string)>, r: Result<(), GraphError>)
    requires '\\' !in rootPath
    ensures r.Ok? ==>
      WalkedTo(SplitNonEmpty(rootPath, '/'), lookup, post, visited, ids, posted, |SplitNonEmpty(rootPath, '/')|)
    ensures r.Err? ==> WalkFailed(SplitNonEmpty(rootPath, '/'), lookup, post, visited, ids, posted, r.error)
  {
    var parts := SplitNonEmpty(rootPath, '/');
    SplitKeepsOut(rootPath, '/', '\\');
    var parent := "root";
    var parentPath := "";
    visited, ids, posted, r := [], [], [], Ok(());
    for k := 0 to |parts|
      invariant WalkedTo(parts, lookup, post, visited, ids, posted, k)
      invariant parentPath == PathOf(parts[..k]) && parent == ParentId(ids, k)
    {
      var nextPath := parentPath + "/" + parts[k];
      assert parts[..k + 1][..k] == parts[..k];
      var path := NormalizeSlashes(nextPath);
      NormalizedPathOf(parts[..k + 1]);
      var found := lookup(path);
      var reached := found;
      var posted' := posted;
      if found == Err(DriveItemNotFound) {
        reached := post(parent, parts[k]);
        posted' := posted + [(parent, parts[k])];
      }
      if reached.Err? {
        WalkFails(parts, lookup, post, visited, ids, posted, k);
        return visited + [path], ids, posted', Err(reached.error);
      }
      WalkStep(parts, lookup, post, visited, ids, posted, k);
      visited, ids, posted := visited + [path], ids + [reached.value], posted';
      parent := reached.value;
      parentPath := nextPath;
    }
  }
}
