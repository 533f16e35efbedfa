/** The WebDAV backend: credentials, path and port chosen by the
    constructor, the names recovered from the hrefs of a PROPFIND reply
    (remembered for the next download), the status handling of GET, PUT
    and DELETE, and the body a PUT sends. URL rendering and decoding are
    parameters; the parsed PROPFIND reply is an input. */
module WebDav {
  import opened Common
  import opened Streams

  /** The credential the constructor builds: a user name and an optional
      password (NetworkCredential's password stays null otherwise). */
  datatype Credential = Credential(user: string, password: Option<string>)

  /** A user name in the URL wins over "auth-username"; the password
      comes from the URL, else from "auth-password". Without any user name
      there is no credential. */
  function Credentials(uriUser: Option<string>, uriPassword: Option<string>, options: map<string, string>)
    : (c: Option<Credential>)
    ensures c.None? <==> IsNullOrEmpty(uriUser) && "auth-username" !in options
    ensures c.Some? && !IsNullOrEmpty(uriUser) ==> c.value.user == uriUser.value
    ensures c.Some? && IsNullOrEmpty(uriUser) ==> c.value.user == options["auth-username"]
    ensures c.Some? && !IsNullOrEmpty(uriUser) && !IsNullOrEmpty(uriPassword) ==> c.value.password == uriPassword
    ensures c.Some? && (IsNullOrEmpty(uriUser) || IsNullOrEmpty(uriPassword)) ==>
              c.value.password == Lookup(options, "auth-password")
  {
    if !IsNullOrEmpty(uriUser) then
      if !IsNullOrEmpty(uriPassword) then Some(Credential(uriUser.value, uriPassword))
      else Some(Credential(uriUser.value, Lookup(options, "auth-password")))
    else if "auth-username" in options then
      Some(Credential(options["auth-username"], Lookup(options, "auth-password")))
    else None
  }

  /** The server path before URL-decoding: a leading '/' is added if
      missing and a trailing '/' appended if missing. */
  function ServerPath(uriPath: string): (p: string)
    ensures StartsWith(p, "/") && EndsWith(p, "/")
    ensures p == uriPath || p == "/" + uriPath || p == uriPath + "/" || p == "/" + uriPath + "/"
    ensures StartsWith(uriPath, "/") && EndsWith(uriPath, "/") ==> p == uriPath
  {
    var lead := if StartsWith(uriPath, "/") then uriPath else "/" + uriPath;
    assert lead[..1] == "/";
    var p := AppendDirSeparator(lead);
    assert p[..1] == "/";
    p
  }

  /** A port of 0 or less means 443 with SSL and 80 without. */
  function Port(uriPort: int, useSsl: bool): (p: int)
    ensures p > 0
    ensures uriPort > 0 ==> p == uriPort
    ensures uriPort <= 0 ==> p == (if useSsl then 443 else 80)
  {
    if uriPort > 0 then uriPort else if useSsl then 443 else 80
  }

  /** Replaces every '+' by "%2B" ahead of URL-decoding, because some
      servers send a literal '+' for '+'. */
  function EscapePlus(s: string): (r: string)
    ensures '+' !in r
    ensures '+' !in s ==> r == s
    ensures |r| >= |s|
  {
    if s == [] then []
    else if s[0] == '+' then "%2B" + EscapePlus(s[1..])
    else [s[0]] + EscapePlus(s[1..])
  }

  /** EscapePlus is String.Replace("+", "%2B"). */
  lemma {:induction false} EscapePlusReplaces(s: string)
    ensures EscapePlus(s) == Join(SplitAll(s, '+'), "%2B")
  {
    if s != [] {
      SplitJoinStep(s, '+', "%2B");
      EscapePlusReplaces(s[1..]);
    }
  }

  /** The number of white-space characters `s` starts with. */
  function LeadingSpace(s: string): (n: nat)
    ensures n <= |s|
    ensures forall k :: 0 <= k < n ==> IsWhiteSpace(s[k])
    ensures n < |s| ==> !IsWhiteSpace(s[n])
  {
    if s == [] || !IsWhiteSpace(s[0]) then 0 else 1 + LeadingSpace(s[1..])
  }

  /** String.Trim over the white-space characters modelled. */
  function Trim(s: string): (r: string)
    ensures |r| <= |s|
    ensures r != [] ==> !IsWhiteSpace(r[0]) && !IsWhiteSpace(r[|r| - 1])
    decreases |s|
  {
    if s == [] then []
    else if IsWhiteSpace(s[0]) then Trim(s[1..])
    else if IsWhiteSpace(s[|s| - 1]) then Trim(s[..|s| - 1])
    else s
  }

  /** What Trim removes is white space only: the result is `s` from its
      first character that is not white space, up to a point after which
      only white space follows. */
  lemma {:induction false} TrimSlice(s: string)
    ensures var i, r := LeadingSpace(s), Trim(s);
      i + |r| <= |s| && r == s[i..i + |r|]
      && forall k :: i + |r| <= k < |s| ==> IsWhiteSpace(s[k])
    decreases |s|
  {
    if s == [] {
    } else if IsWhiteSpace(s[0]) {
      TrimSlice(s[1..]);
      assert LeadingSpace(s) == 1 + LeadingSpace(s[1..]);
      SliceAfterFirst(s, LeadingSpace(s[1..]), Trim(s[1..]));
    } else if IsWhiteSpace(s[|s| - 1]) {
      TrimSlice(s[..|s| - 1]);
      assert LeadingSpace(s) == 0 == LeadingSpace(s[..|s| - 1]);
      SliceBeforeLast(s, s[..|s| - 1], Trim(s[..|s| - 1]));
    }
  }

  /** A slice of s[1..] followed by white space only is a slice of s one
      further on, followed by white space only. */
  lemma SliceAfterFirst(s: string, i: nat, r: string)
    requires s != [] && i + |r| <= |s| - 1 && r == s[1..][i..i + |r|]
    requires forall k :: i + |r| <= k < |s| - 1 ==> IsWhiteSpace(s[1..][k])
    ensures 1 + i + |r| <= |s| && r == s[1 + i..1 + i + |r|]
    ensures forall k :: 1 + i + |r| <= k < |s| ==> IsWhiteSpace(s[k])
  {
    assert forall k :: 1 + i + |r| <= k < |s| ==> s[k] == s[1..][k - 1];
  }

  /** A prefix of s minus its last character, followed by white space
      only, is a prefix of s followed by white space only when that last
      character is white space. */
  lemma SliceBeforeLast(s: string, t: string, r: string)
    requires s != [] && IsWhiteSpace(s[|s| - 1]) && t == s[..|s| - 1]
    requires |r| <= |t| && r == t[0..|r|]
    requires forall k :: |r| <= k < |t| ==> IsWhiteSpace(t[k])
    ensures |r| <= |s| && r == s[0..|r|]
    ensures forall k :: |r| <= k < |s| ==> IsWhiteSpace(s[k])
  {
    assert forall k :: |r| <= k < |t| ==> s[k] == t[k];
  }

  /** The properties of a PROPFIND response entry that the listing uses:
      getcontentlength (parsed), iscollection (its text) and whether a
      resourcetype/collection element is present. */
  datatype Prop = Prop(contentLength: Option<int>, isCollection: Option<string>, collectionType: bool)
  datatype DavResponse = DavResponse(href: string, prop: Option<Prop>)

  datatype FileEntry = FileEntry(name: string, size: int, isFolder: bool)

  /** Size -1 without getcontentlength; a folder if iscollection says "1",
      or, without iscollection, if the resource type is a collection. */
  function EntryOf(name: string, prop: Option<Prop>): (e: FileEntry)
    ensures e.name == name
    ensures e.size == -1 <==> prop.None? || prop.value.contentLength.None? || prop.value.contentLength == Some(-1)
    ensures prop.Some? && prop.value.contentLength.Some? ==> e.size == prop.value.contentLength.value
    ensures e.isFolder ==> prop.Some?
    ensures prop.Some? && prop.value.isCollection.Some? ==> (e.isFolder <==> Trim(prop.value.isCollection.value) == "1")
    ensures prop.Some? && prop.value.isCollection.None? ==> e.isFolder == prop.value.collectionType
  {
    match prop
    case None => FileEntry(name, -1, false)
    case Some(p) =>
      var size := if p.contentLength.Some? then p.contentLength.value else -1;
      var folder := if p.isCollection.Some? then Trim(p.isCollection.value) == "1" else p.collectionType;
      FileEntry(name, size, folder)
  }

  /** How a request ended, seen from the status of its response. */
  datatype Failure =
    | FileMissing
    | FolderMissing
    | SeenThenNotFound(name: string)
    | HttpStatus(code: int)

  /** PutAsync's status handling: 409 and 404 mean the folder is missing. */
  function PutFailure(status: int): (f: Option<Failure>)
    ensures f.None? <==> IsSuccessStatus(status)
    ensures f == Some(FolderMissing) <==> status == 409 || status == 404
    ensures f.Some? && f != Some(FolderMissing) ==> f == Some(HttpStatus(status))
  {
    if status == 409 || status == 404 then Some(FolderMissing)
    else if !IsSuccessStatus(status) then Some(HttpStatus(status))
    else None
  }

  /** DeleteAsync's status handling: 404 means the file is missing. */
  function DeleteFailure(status: int): (f: Option<Failure>)
    ensures f.None? <==> IsSuccessStatus(status)
    ensures f == Some(FileMissing) <==> status == 404
    ensures f.Some? && status != 404 ==> f == Some(HttpStatus(status))
  {
    if status == 404 then Some(FileMissing)
    else if !IsSuccessStatus(status) then Some(HttpStatus(status))
    else None
  }

  /** The PUT request as PutAsync builds it: a StreamContent is created
      for the data but never attached to the request, so the body sent is
      empty. */
  function PutBodyAsWritten(data: seq<byte>): (body: seq<byte>)
    ensures |body| == 0
  {
    []
  }

  /** Any non-empty upload is sent as an empty PUT. */
  lemma PutBodyAsWrittenLosesData(data: seq<byte>)
    requires data != []
    ensures PutBodyAsWritten(data) != data
  {
  }

  /** The PUT request with the content attached: the body is the data. */
  function PutBody(data: seq<byte>): (body: seq<byte>)
    ensures |body| == |data| && forall i :: 0 <= i < |data| ==> body[i] == data[i]
  {
    data
  }

  /** The error ListAsync reports for a failed PROPFIND, as written: the
      exception is raised inside the asynchronous operation ListAsync returns without
      awaiting it, so its catch block never runs and the status failure
      comes through unchanged. */
  function ListFailureAsWritten(status: int): (f: Failure)
    ensures f == HttpStatus(status)
  {
    HttpStatus(status)
  }

  /** A missing folder is therefore not reported as such. */
  lemma ListFailureAsWrittenMissesFolder()
    ensures ListFailureAsWritten(404) != FolderMissing
  {
  }

  /** The error the catch block is there to give: 404 and 409 mean the
      folder is missing; 405 becomes a user-information error; anything
      else comes through unchanged. */
  datatype ListError = ListFolderMissing | MethodNotAllowed | ListHttpStatus(code: int)

  function ListFailure(status: int): (e: ListError)
    ensures e == ListFolderMissing <==> status == 404 || status == 409
    ensures e == MethodNotAllowed <==> status == 405
    ensures e.ListHttpStatus? ==> e.code == status
  {
    if status == 404 || status == 409 then ListFolderMissing
    else if status == 405 then MethodNotAllowed
    else ListHttpStatus(status)
  }

  class WebDavBackend {
    const url: string
    const path: string
    const rawUrl: string
    const rawUrlPort: string
    const sanitizedUrl: string
    const reverseProtocolUrl: string
    const decode: string -> string
    /** The names seen by the last listing (null before the first). */
    var fileNameList: Option<seq<string>>

    /** The constructor's URLs. `baseUrl` is the URL with scheme set and
        credentials and query removed; `render(scheme, host, path, port)`
        stands for Utility.Uri's rendering; `decode` for UrlDecode. */
    constructor(host: string, uriPath: string, uriPort: int, useSsl: bool, baseUrl: string,
                decode: string -> string, render: (string, string, string, Option<int>) -> string)
      ensures url == AppendDirSeparator(baseUrl) && path == decode(ServerPath(uriPath))
      ensures var scheme := if useSsl then "https" else "http";
        rawUrl == render(scheme, host, path, None) && sanitizedUrl == rawUrl
        && rawUrlPort == render(scheme, host, path, Some(Port(uriPort, useSsl)))
        && reverseProtocolUrl == render(if useSsl then "http" else "https", host, path, None)
      ensures this.decode == decode && fileNameList.None?
    {
      var scheme := if useSsl then "https" else "http";
      url := AppendDirSeparator(baseUrl);
      var p := decode(ServerPath(uriPath));
      path := p;
      rawUrl := render(scheme, host, p, None);
      rawUrlPort := render(scheme, host, p, Some(Port(uriPort, useSsl)));
      sanitizedUrl := render(scheme, host, p, None);
      reverseProtocolUrl := render(if useSsl then "http" else "https", host, p, None);
      this.decode := decode;
      fileNameList := None;
    }

    /** The seven prefixes an href is matched against, in this order. */
    function Candidates(): (cs: seq<string>)
      ensures |cs| == 7 && cs[0] == url && cs[3] == path && cs[4] == "/" + path
    {
      [url, rawUrl, rawUrlPort, path, "/" + path, sanitizedUrl, reverseProtocolUrl]
    }

    /** The file name in an href: '+' escaped, URL-decoded, and cut after
        the first matching candidate prefix; no name if no prefix matches
        or nothing follows it. */
    function HrefName(href: string): (n: Option<string>)
      ensures var name := decode(EscapePlus(href));
        var k := FirstIndex(Candidates(), c => StartsWith(name, c));
        (n.Some? <==> k.Some? && |name| > |Candidates()[k.value]|)
        && (n.Some? ==> n.value != [] && Candidates()[k.value] + n.value == name)
    {
      var name := decode(EscapePlus(href));
      var cs := Candidates();
      var k := FirstIndex(cs, c => StartsWith(name, c));
      if k.None? || |name| <= |cs[k.value]| then None
      else
        var rest := name[|cs[k.value]|..];
        assert cs[k.value] + rest == name;
        Some(rest)
    }

    /** The entries a PROPFIND reply lists, in order. */
    function Listing(responses: seq<DavResponse>): (r: seq<FileEntry>)
      ensures |r| <= |responses|
      ensures forall e :: e in r ==> e.name != []
    {
      if responses == [] then []
      else
        var last := responses[|responses| - 1];
        var n := HrefName(last.href);
        var rest := Listing(responses[..|responses| - 1]);
        if n.Some? then rest + [EntryOf(n.value, last.prop)] else rest
    }

    /** The listing holds an entry for every response whose href yields a
        name, and nothing else. */
    lemma {:induction false} ListingEntries(responses: seq<DavResponse>)
      ensures forall i :: 0 <= i < |responses| && HrefName(responses[i].href).Some? ==>
                EntryOf(HrefName(responses[i].href).value, responses[i].prop) in Listing(responses)
      ensures forall e :: e in Listing(responses) ==>
                exists i :: 0 <= i < |responses| && HrefName(responses[i].href) == Some(e.name)
                                                 && e == EntryOf(e.name, responses[i].prop)
    {
      if responses != [] {
        var init := responses[..|responses| - 1];
        ListingEntries(init);
        assert forall i :: 0 <= i < |init| ==> init[i] == responses[i];
      }
    }

    function Names(entries: seq<FileEntry>): (names: seq<string>)
      ensures |names| == |entries| && forall i :: 0 <= i < |entries| ==> names[i] == entries[i].name
    {
      seq(|entries|, i requires 0 <= i < |entries| => entries[i].name)
    }

    /** ListWithouExceptionCatch over a successful PROPFIND reply: one
        entry per href that yields a name; the names are remembered. */
    method List(responses: seq<DavResponse>) returns (files: seq<FileEntry>)
      modifies this`fileNameList
      ensures files == Listing(responses)
      ensures fileNameList == Some(Names(files))
    {
      var names: seq<string> := [];
      fileNameList := Some(names);
      files := [];
      var i := 0;
      while i < |responses|
        invariant 0 <= i <= |responses|
        invariant files == Listing(responses[..i]) && names == Names(files)
        decreases |responses| - i
      {
        var resp := responses[i];
        assert responses[..i + 1][..i] == responses[..i];
        var n := HrefName(resp.href);
        if n.Some? {
          var fe := EntryOf(n.value, resp.prop);
          files := files + [fe];
          names := names + [fe.name];
        }
        i := i + 1;
      }
      assert responses[..i] == responses;
      fileNameList := Some(names);
    }

    /** GetAsync's status handling: 409 means the file is missing; a 404
        for a name the last listing showed is reported as such; other
        failures come through. */
    function GetFailure(remotename: string, status: int): (f: Option<Failure>)
      reads this`fileNameList
      ensures f.None? <==> IsSuccessStatus(status)
      ensures f == Some(FileMissing) <==> status == 409
      ensures f == Some(SeenThenNotFound(remotename)) <==>
                status == 404 && fileNameList.Some? && remotename in fileNameList.value
      ensures f.Some? && f.value.HttpStatus? ==> f.value.code == status
    {
      if status == 409 then Some(FileMissing)
      else if status == 404 && fileNameList.Some? && remotename in fileNameList.value then
        Some(SeenThenNotFound(remotename))
      else if !IsSuccessStatus(status) then Some(HttpStatus(status))
      else None
    }
  }

  /** A download of a listed file that the server answers with 404 is
      told apart from one of a file never seen. */
  method ListThenGet(b: WebDavBackend, responses: seq<DavResponse>, k: nat) returns (f: Option<Failure>)
    requires k < |b.Listing(responses)|
    modifies b`fileNameList
    ensures f == Some(SeenThenNotFound(b.Listing(responses)[k].name))
  {
    var files := b.List(responses);
    assert files[k].name in b.fileNameList.value by {
      assert b.fileNameList.value[k] == files[k].name;
    }
    f := b.GetFailure(files[k].name, 404);
  }
}
