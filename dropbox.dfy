/** The Dropbox helper: the token mode chosen at construction, the upload
    session schedule (start, appends, finish), the mapping of HTTP
    failures to the backend's exceptions, and the small records sent to
    and read from the API. */
module Dropbox {
  import opened Common

  const MaxChunk: int := 10 * 1024 * 1024

  /** Tokens from before 2022 are bare Dropbox tokens, without ':'. */
  function AccessTokenOnly(token: string): (r: bool)
    ensures r <==> forall i :: 0 <= i < |token| ==> token[i] != ':'
  {
    ':' !in token
  }

  /** The commit part of the finish call: overwrite, no renaming, muted. */
  datatype CommitInfo = CommitInfo(path: string, mode: string, autorename: bool, mute: bool)

  function DefaultCommit(path: string): (c: CommitInfo)
    ensures c.path == path && c.mode == "overwrite" && !c.autorename && c.mute
  {
    CommitInfo(path, "overwrite", false, true)
  }

  /** A listing entry; only the entries tagged "file" are files. */
  datatype MetaData = MetaData(tag: string, name: string, serverModified: string, size: nat)

  predicate IsFile(m: MetaData) {
    m.tag == "file"
  }

  /** The calls of an upload session, with the bytes each one carries. */
  datatype Call =
    | Start(length: int)
    | Append(offset: int, length: int, close: bool)
    | Finish(offset: int, commit: CommitInfo)

  function Carried(c: Call): int {
    if c.Finish? then 0 else c.length
  }

  /** Bytes carried by a sequence of calls. */
  function Sent(calls: seq<Call>): int {
    if calls == [] then 0 else Sent(calls[..|calls| - 1]) + Carried(calls[|calls| - 1])
  }

  /** Every call after the start names as offset exactly the bytes sent
      before it. */
  ghost predicate Contiguous(calls: seq<Call>) {
    forall i :: 0 < i < |calls| ==> !calls[i].Start? && calls[i].offset == Sent(calls[..i])
  }

  lemma ContiguousSnoc(calls: seq<Call>, c: Call)
    requires Contiguous(calls) && calls != [] && !c.Start? && c.offset == Sent(calls)
    ensures Contiguous(calls + [c]) && Sent(calls + [c]) == Sent(calls) + Carried(c)
  {
    var calls' := calls + [c];
    assert calls'[..|calls|] == calls;
    forall i | 0 < i < |calls'|
      ensures !calls'[i].Start? && calls'[i].offset == Sent(calls'[..i])
    {
      if i < |calls| {
        assert calls'[..i] == calls[..i];
      }
    }
  }

  /** UploadFileAsync: a start call with the first min(10 MiB, length)
      bytes, then appends of min(10 MiB, remaining) bytes at the offset
      reached, closing the session when less than 10 MiB remain, and a
      finish call at the stream length that commits to `path`. */
  method UploadFile(path: string, length: nat) returns (calls: seq<Call>)
    ensures |calls| >= 2 && calls[0] == Start(Min(MaxChunk, length))
    ensures calls[|calls| - 1] == Finish(length, DefaultCommit(path))
    ensures Contiguous(calls) && Sent(calls) == length
    ensures forall i :: 0 < i < |calls| - 1 ==>
              calls[i].Append? && calls[i].length == Min(MaxChunk, length - calls[i].offset)
              && calls[i].close == (length - calls[i].offset < MaxChunk)
  {
    var chunk := Min(MaxChunk, length);
    calls := [Start(chunk)];
    assert calls[..0] == [];
    var sent := chunk;
    while sent < length
      invariant 0 <= sent <= length
      invariant |calls| >= 1 && calls[0] == Start(Min(MaxChunk, length))
      invariant Contiguous(calls) && Sent(calls) == sent
      invariant forall i :: 0 < i < |calls| ==>
                  calls[i].Append? && calls[i].length == Min(MaxChunk, length - calls[i].offset)
                  && calls[i].close == (length - calls[i].offset < MaxChunk)
      decreases length - sent
    {
      var remaining := length - sent;
      chunk := Min(MaxChunk, remaining);
      var c := Append(sent, chunk, remaining < MaxChunk);
      ContiguousSnoc(calls, c);
      calls := calls + [c];
      sent := sent + chunk;
    }
    var fin := Finish(sent, DefaultCommit(path));
    ContiguousSnoc(calls, fin);
    calls := calls + [fin];
  }

  /** A failure as HandleDropboxExceptionAsync sees it: an HTTP status
      failure (with its response's status, if any, and whether the body
      parses as JSON), or any other exception. */
  datatype Failure = HttpFailure(status: Option<int>, bodyIsJson: bool) | OtherException

  /** What is thrown in the end. */
  datatype Thrown =
    | Original          // the caller rethrows the exception as it was
    | FileMissing
    | FolderMissing
    | AuthFailure
    | OverQuota
    | DropboxError
    | InvalidData

  /** HandleDropboxExceptionAsync: 404 and 409 mean a missing file for
      file requests and a missing folder otherwise; 401 is an
      authentication failure; 429 and 507 are over quota; any other HTTP
      failure is a Dropbox error if its body is JSON and invalid data if
      not. Other exceptions go through unchanged. */
  function HandleException(f: Failure, fileRequest: bool): (t: Thrown)
    ensures f == OtherException <==> t == Original
    ensures f.HttpFailure? && f.status.Some? && f.status.value in {404, 409} ==>
              t == (if fileRequest then FileMissing else FolderMissing)
    ensures t == AuthFailure <==> f.HttpFailure? && f.status == Some(401)
    ensures t == OverQuota <==> f.HttpFailure? && f.status.Some? && f.status.value in {429, 507}
    ensures f.HttpFailure? && (f.status.None? || f.status.value !in {401, 404, 409, 429, 507}) ==>
              t == (if f.bodyIsJson then DropboxError else InvalidData)
  {
    match f
    case OtherException => Original
    case HttpFailure(status, bodyIsJson) =>
      if status == Some(404) || status == Some(409) then
        (if fileRequest then FileMissing else FolderMissing)
      else if status == Some(401) then AuthFailure
      else if status == Some(429) || status == Some(507) then OverQuota
      else if bodyIsJson then DropboxError
      else InvalidData
  }
}
