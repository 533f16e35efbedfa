/** The Backblaze B2 authorisation helper: the cached account
    configuration, refreshed when missing or expired, with retries and
    exponential back-off; the clean-up of the URLs it returns; and the
    small accessors around it. Time is an integer count of seconds, the
    authorisation server's replies are an input sequence. */
module B2Auth {
  import opened Common

  const ConfigLifetime: int := 3600
  const ClientErrorRetries: nat := 1
  const OtherErrorRetries: nat := 5

  /** The URL without its trailing '/' characters. */
  function Untrailed(url: string): (r: string)
    ensures |r| <= |url|
    decreases |url|
  {
    if EndsWith(url, "/") then Untrailed(url[..|url| - 1]) else url
  }

  /** DropTrailingSlashes: removes every trailing '/'. */
  method DropTrailingSlashes(url: string) returns (r: string)
    ensures r == Untrailed(url)
    ensures StartsWith(url, r) && !EndsWith(r, "/")
    ensures forall i :: |r| <= i < |url| ==> url[i] == '/'
    ensures !EndsWith(url, "/") ==> r == url
  {
    r := url;
    while EndsWith(r, "/")
      invariant StartsWith(url, r)
      invariant Untrailed(r) == Untrailed(url)
      invariant forall i :: |r| <= i < |url| ==> url[i] == '/'
      decreases |r|
    {
      assert r[|r| - 1] == '/';
      r := r[..|r| - 1];
    }
  }

  /** Trimming a trimmed URL changes nothing. */
  method DropTrailingSlashesTwice(url: string) returns (once: string, twice: string)
    ensures once == twice && !EndsWith(twice, "/")
  {
    once := DropTrailingSlashes(url);
    twice := DropTrailingSlashes(once);
  }

  datatype AuthResponse = AuthResponse(accountId: string, apiUrl: string, authorizationToken: string, downloadUrl: string)

  /** A reply of the authorisation endpoint: the parsed configuration, an
      HTTP status failure, or any other exception. */
  datatype AuthReply = Success(config: AuthResponse) | HttpError(status: int) | OtherError

  /** How many retries a failure allows: one for a 4xx client error,
      five otherwise. */
  function RetryBudget(reply: AuthReply): (n: nat)
    ensures n == ClientErrorRetries <==> reply.HttpError? && 400 <= reply.status <= 499
    ensures n == ClientErrorRetries || n == OtherErrorRetries
  {
    if reply.HttpError? && 400 <= reply.status <= 499 then ClientErrorRetries else OtherErrorRetries
  }

  /** GetExceptionStatusCode: the response status of an HTTP failure, and
      the default status 0 for anything else. */
  function ExceptionStatusCode(reply: AuthReply): (code: int)
    requires !reply.Success?
    ensures reply.HttpError? ==> code == reply.status
    ensures reply == OtherError ==> code == 0
  {
    if reply.HttpError? then reply.status else 0
  }

  datatype Outcome = Cached(config: AuthResponse) | Fetched(config: AuthResponse) | Failed(last: AuthReply) | Unanswered

  function SumOf(xs: seq<nat>): nat {
    if xs == [] then 0 else SumOf(xs[..|xs| - 1]) + xs[|xs| - 1]
  }

  /** Attempts 0..k-1 all failed and each was within its retry budget:
      attempt j was followed by a back-off of 2^j seconds. */
  ghost predicate RetriedSoFar(replies: seq<AuthReply>, sleeps: seq<nat>) {
    |sleeps| <= |replies|
    && forall j :: 0 <= j < |sleeps| ==>
         !replies[j].Success? && j < RetryBudget(replies[j]) && sleeps[j] == Pow2(j)
  }

  class B2AuthHelper {
    const credentials: string
    var config: Option<AuthResponse>
    var configExpires: int

    /** The credentials are "user:password", Base64-encoded (`base64`
        stands for the UTF-8 encoding followed by Base64). */
    constructor(userId: string, password: string, base64: string -> string)
      ensures credentials == base64(userId + ":" + password) && config.None?
    {
      credentials := base64(userId + ":" + password);
      config := None;
      configExpires := 0;
    }

    /** APIDnsName: no name without a configuration or with a blank API
        URL; `host` stands for the host part of a parsed URI. */
    function ApiDnsName(host: string -> string): (n: Option<string>)
      reads this`config
      ensures n.None? <==> config.None? || IsNullOrWhiteSpace(Some(config.value.apiUrl))
      ensures n.Some? ==> n.value == host(config.value.apiUrl)
    {
      if config.None? || IsNullOrWhiteSpace(Some(config.value.apiUrl)) then None
      else Some(host(config.value.apiUrl))
    }

    /** The same for the download URL. */
    function DownloadDnsName(host: string -> string): (n: Option<string>)
      reads this`config
      ensures n.None? <==> config.None? || IsNullOrWhiteSpace(Some(config.value.downloadUrl))
      ensures n.Some? ==> n.value == host(config.value.downloadUrl)
    {
      if config.None? || IsNullOrWhiteSpace(Some(config.value.downloadUrl)) then None
      else Some(host(config.value.downloadUrl))
    }

    /** GetConfigAsync at time `now`: a present, unexpired configuration
        is returned as it is; otherwise the endpoint is asked until it
        answers, a failure at attempt k being retried after 2^k seconds
        while k is below its retry budget. A fetched configuration has
        its URLs trimmed of trailing '/' and expires an hour after it
        arrived (the clock moves by the back-offs only). */
    method GetConfig(now: int, replies: seq<AuthReply>) returns (r: Outcome, sleeps: seq<nat>)
      modifies this`config, this`configExpires
      ensures old(config).Some? && old(configExpires) >= now ==>
                r == Cached(old(config).value) && sleeps == [] && config == old(config)
                && configExpires == old(configExpires)
      ensures r.Cached? ==> old(config).Some? && old(configExpires) >= now
      ensures RetriedSoFar(replies, sleeps)
      ensures r.Fetched? ==>
                |sleeps| < |replies| && replies[|sleeps|].Success?
                && config == Some(r.config) && configExpires == now + SumOf(sleeps) + ConfigLifetime
                && r.config == replies[|sleeps|].config.(apiUrl := Untrailed(replies[|sleeps|].config.apiUrl),
                                                         downloadUrl := Untrailed(replies[|sleeps|].config.downloadUrl))
                && r.config.accountId == replies[|sleeps|].config.accountId
                && r.config.authorizationToken == replies[|sleeps|].config.authorizationToken
                && StartsWith(replies[|sleeps|].config.apiUrl, r.config.apiUrl) && !EndsWith(r.config.apiUrl, "/")
                && StartsWith(replies[|sleeps|].config.downloadUrl, r.config.downloadUrl)
                && !EndsWith(r.config.downloadUrl, "/")
      ensures r.Failed? ==>
                |sleeps| < |replies| && r.last == replies[|sleeps|] && !r.last.Success?
                && |sleeps| >= RetryBudget(r.last)
      ensures r == Unanswered ==> |sleeps| == |replies|
      ensures !r.Fetched? ==> config == old(config) && configExpires == old(configExpires)
    {
      sleeps := [];
      if config.Some? && configExpires >= now {
        return Cached(config.value), sleeps;
      }
      var retries := 0;
      while retries < |replies|
        invariant retries == |sleeps| && RetriedSoFar(replies, sleeps)
        invariant config == old(config) && configExpires == old(configExpires)
        decreases |replies| - retries
      {
        var reply := replies[retries];
        if reply.Success? {
          var apiUrl := DropTrailingSlashes(reply.config.apiUrl);
          var downloadUrl := DropTrailingSlashes(reply.config.downloadUrl);
          var c := reply.config.(apiUrl := apiUrl, downloadUrl := downloadUrl);
          config := Some(c);
          configExpires := now + SumOf(sleeps) + ConfigLifetime;
          return Fetched(c), sleeps;
        }
        if retries >= RetryBudget(reply) {
          return Failed(reply), sleeps;
        }
        var sleeps' := sleeps + [Pow2(retries)];
        assert sleeps'[..|sleeps|] == sleeps;
        sleeps := sleeps';
        retries := retries + 1;
      }
      r := Unanswered;
    }
  }

  /** The budget in practice: a client error at the second attempt ends
      the request, and six consecutive server errors are given up on. */
  lemma RetryBudgetLimits(replies: seq<AuthReply>, sleeps: seq<nat>)
    requires RetriedSoFar(replies, sleeps)
    ensures |sleeps| <= OtherErrorRetries
    ensures forall j :: 1 <= j < |sleeps| ==> !(replies[j].HttpError? && 400 <= replies[j].status <= 499)
  {
    if |sleeps| > 0 {
      var j := |sleeps| - 1;
      assert j < RetryBudget(replies[j]);
    }
  }
}
