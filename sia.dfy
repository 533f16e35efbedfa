/** The Sia backend's decision logic: the target path clean-up and
    defaults done by the constructor, the listing filter, and the check
    whether a download has completed. The renter's JSON replies are
    inputs. */
module Sia {
  import opened Common

  const DefaultPort: int := 9980
  const DefaultTargetPath: string := "backup"

  /** True when `s` holds "//" somewhere. */
  predicate HasDoubleSlash(s: string) {
    exists i :: 0 <= i < |s| - 1 && s[i] == '/' && s[i + 1] == '/'
  }

  /** String.Replace("//", "/"): one left-to-right pass over
      non-overlapping occurrences, so "///" becomes "//". */
  function ReplaceDoubleSlash(s: string): (r: string)
    ensures |r| <= |s|
    ensures HasDoubleSlash(s) ==> |r| < |s|
    ensures s == [] <==> r == []
    ensures s != [] ==> r[0] == s[0]
  {
    if |s| >= 2 && s[0] == '/' && s[1] == '/' then "/" + ReplaceDoubleSlash(s[2..])
    else if s == [] then []
    else
      var r := [s[0]] + ReplaceDoubleSlash(s[1..]);
      assert HasDoubleSlash(s) ==> HasDoubleSlash(s[1..]) by {
        if HasDoubleSlash(s) {
          var i :| 0 <= i < |s| - 1 && s[i] == '/' && s[i + 1] == '/';
          assert i > 0 && s[1..][i - 1] == '/' && s[1..][i] == '/';
        }
      }
      r
  }

  /** The parts of `[c] + t` for a character `c` that is no separator:
      `c` opens a part of its own or is glued in front of the first part
      of `t`. */
  function ConsPart(c: char, glued: bool, parts: seq<string>): seq<string> {
    if glued && parts != [] then [[c] + parts[0]] + parts[1..] else [[c]] + parts
  }

  lemma SplitCons(c: char, t: string, sep: char)
    requires c != sep
    ensures SplitNonEmpty([c] + t, sep) == ConsPart(c, t != [] && t[0] != sep, SplitNonEmpty(t, sep))
  {
    var s := [c] + t;
    assert s[1..] == t;
    if t != [] && t[0] != sep {
      var n := RunLength(t, sep);
      assert RunLength(s, sep) == n + 1;
      assert s[..n + 1] == [c] + t[..n];
      assert s[n + 1..] == t[n..];
    } else {
      assert RunLength(s, sep) == 1;
      assert s[..1] == [c];
    }
  }

  /** Collapsing "//" keeps the '/'-separated parts. */
  lemma {:induction false} ReplaceDoubleSlashParts(s: string)
    ensures SplitNonEmpty(ReplaceDoubleSlash(s), '/') == SplitNonEmpty(s, '/')
    decreases |s|
  {
    if |s| >= 2 && s[0] == '/' && s[1] == '/' {
      var t := ReplaceDoubleSlash(s[2..]);
      ReplaceDoubleSlashParts(s[2..]);
      assert ("/" + t)[1..] == t;
      assert s[1..][1..] == s[2..];
    } else if s != [] {
      var t := ReplaceDoubleSlash(s[1..]);
      ReplaceDoubleSlashParts(s[1..]);
      assert ([s[0]] + t)[1..] == t;
      if s[0] != '/' {
        SplitCons(s[0], t, '/');
        SplitCons(s[0], s[1..], '/');
        assert [s[0]] + s[1..] == s;
      }
    }
  }

  /** A trailing separator adds no part. */
  lemma {:induction false} SplitTrailing(s: string, sep: char)
    ensures SplitNonEmpty(s + [sep], sep) == SplitNonEmpty(s, sep)
    decreases |s|
  {
    if s == [] {
      assert [sep][1..] == [];
    } else {
      assert (s + [sep])[1..] == s[1..] + [sep];
      SplitTrailing(s[1..], sep);
      if s[0] != sep {
        assert [s[0]] + (s[1..] + [sep]) == s + [sep];
        assert [s[0]] + s[1..] == s;
        SplitCons(s[0], s[1..] + [sep], sep);
        SplitCons(s[0], s[1..], sep);
        if s[1..] == [] {
          assert s[1..] + [sep] == [sep];
        }
      }
    }
  }

  /** The constructor's clean-up of the target path: every "//" collapsed
      until none is left, leading and trailing '/' removed, and "backup"
      if nothing remains. The '/'-separated parts are kept. */
  method NormalizeTargetPath(path: string) returns (r: string)
    ensures r != [] && !HasDoubleSlash(r)
    ensures !StartsWith(r, "/") && !EndsWith(r, "/")
    ensures SplitNonEmpty(path, '/') == [] ==> r == DefaultTargetPath
    ensures SplitNonEmpty(path, '/') != [] ==> SplitNonEmpty(r, '/') == SplitNonEmpty(path, '/')
  {
    r := path;
    while HasDoubleSlash(r)
      invariant SplitNonEmpty(r, '/') == SplitNonEmpty(path, '/')
      decreases |r|
    {
      ReplaceDoubleSlashParts(r);
      r := ReplaceDoubleSlash(r);
    }
    while StartsWith(r, "/")
      invariant !HasDoubleSlash(r)
      invariant SplitNonEmpty(r, '/') == SplitNonEmpty(path, '/')
      decreases |r|
    {
      assert r[0] == '/';
      assert !HasDoubleSlash(r[1..]) by {
        forall i | 0 <= i < |r[1..]| - 1
          ensures !(r[1..][i] == '/' && r[1..][i + 1] == '/')
        {
          assert r[1..][i] == r[i + 1] && r[1..][i + 1] == r[i + 2];
        }
      }
      r := r[1..];
    }
    while EndsWith(r, "/")
      invariant !HasDoubleSlash(r) && !StartsWith(r, "/")
      invariant SplitNonEmpty(r, '/') == SplitNonEmpty(path, '/')
      decreases |r|
    {
      var last := |r| - 1;
      assert r[last] == '/' && r[0] != '/' && last >= 1;
      var r' := r[..last];
      assert r' + ['/'] == r;
      SplitTrailing(r', '/');
      assert !HasDoubleSlash(r') by {
        forall i | 0 <= i < |r'| - 1
          ensures !(r'[i] == '/' && r'[i + 1] == '/')
        {
          assert r'[i] == r[i] && r'[i + 1] == r[i + 1];
        }
      }
      assert r'[0] == r[0];
      r := r';
    }
    if r == [] {
      assert SplitNonEmpty(path, '/') == [];
      r := DefaultTargetPath;
      assert r[0] == 'b' && r[|r| - 1] == 'p';
      assert !HasDoubleSlash(r) by {
        forall i | 0 <= i < |r| - 1 ensures r[i] != '/' { }
      }
    } else {
      assert r[0] != '/';
      assert SplitNonEmpty(r, '/') != [];
    }
  }

  /** An API port of 0 or less means the default port 9980. */
  function ApiPort(uriPort: int): (p: int)
    ensures p > 0
    ensures uriPort > 0 ==> p == uriPort
    ensures uriPort <= 0 ==> p == DefaultPort
  {
    if uriPort <= 0 then DefaultPort else uriPort
  }

  /** The Authorization header value: set only for a present, non-empty
      "sia-password", as Basic with an empty user name. `base64` stands
      for the ISO-8859-1 encoding followed by Base64. */
  function Authorization(options: map<string, string>, base64: string -> string): (a: Option<string>)
    ensures a.Some? <==> "sia-password" in options && options["sia-password"] != ""
    ensures a.Some? ==> StartsWith(a.value, "Basic ")
    ensures a.Some? ==> a.value == "Basic " + base64(":" + options["sia-password"])
  {
    var pw := Lookup(options, "sia-password");
    if pw.Some? && pw.value != "" then
      var v := "Basic " + base64(":" + pw.value);
      assert v[..6] == "Basic ";
      Some(v)
    else None
  }

  datatype SiaConfig = SiaConfig(host: string, port: int, targetPath: string, authorization: Option<string>)

  /** The constructor: the URL's host, port and path, the "sia-targetpath"
      option overriding the path. */
  method Configure(host: string, uriPort: int, uriPath: string, options: map<string, string>,
                   base64: string -> string)
    returns (c: SiaConfig)
    ensures c.host == host && c.port == ApiPort(uriPort)
    ensures c.authorization == Authorization(options, base64)
    ensures var p := if "sia-targetpath" in options then options["sia-targetpath"] else uriPath;
      (SplitNonEmpty(p, '/') == [] ==> c.targetPath == DefaultTargetPath)
      && (SplitNonEmpty(p, '/') != [] ==> SplitNonEmpty(c.targetPath, '/') == SplitNonEmpty(p, '/'))
    ensures c.targetPath != [] && !HasDoubleSlash(c.targetPath)
    ensures !StartsWith(c.targetPath, "/") && !EndsWith(c.targetPath, "/")
  {
    var p := uriPath;
    if "sia-targetpath" in options {
      p := options["sia-targetpath"];
    }
    var t := NormalizeTargetPath(p);
    c := SiaConfig(host, ApiPort(uriPort), t, Authorization(options, base64));
  }

  /** An entry of /renter/files. */
  datatype SiaFile = SiaFile(siapath: string, filesize: int)

  datatype FileEntry = FileEntry(name: string, size: int)

  /** Substring(start) throws ArgumentOutOfRange past the end. */
  datatype ListError = ArgumentOutOfRange(siapath: string)

  /** The files whose path starts with `prefix`, in listing order. */
  function Kept(prefix: string, files: seq<SiaFile>): (r: seq<SiaFile>)
    ensures forall f :: f in r <==> f in files && StartsWith(f.siapath, prefix)
    ensures |r| <= |files|
  {
    if files == [] then []
    else
      var rest := Kept(prefix, files[1..]);
      assert forall g :: g in files <==> g == files[0] || g in files[1..];
      if StartsWith(files[0].siapath, prefix) then [files[0]] + rest else rest
  }

  /** The entries for `kept`, in order, each named by its path with the
      first |target| + 1 characters cut off. */
  function Relative(target: string, kept: seq<SiaFile>): (r: seq<FileEntry>)
    requires forall f :: f in kept ==> |target| + 1 <= |f.siapath|
    ensures |r| == |kept|
    ensures forall k :: 0 <= k < |kept| ==> r[k] == FileEntry(kept[k].siapath[|target| + 1..], kept[k].filesize)
  {
    if kept == [] then []
    else [FileEntry(kept[0].siapath[|target| + 1..], kept[0].filesize)] + Relative(target, kept[1..])
  }

  /** ListAsync as written: keeps the files whose path starts with the
      target path and cuts off the target path plus one character; a file
      stored as the target path itself makes Substring throw. Otherwise
      the entries are exactly the kept files, in order, with that cut. */
  function ListAsWritten(target: string, files: seq<SiaFile>): (r: Result<seq<FileEntry>, ListError>)
    ensures r.Err? <==> exists f :: f in files && f.siapath == target
    ensures r.Err? ==> r.error == ArgumentOutOfRange(target)
    ensures r.Ok? ==>
      (forall f :: f in Kept(target, files) ==> |target| + 1 <= |f.siapath|)
      && r.value == Relative(target, Kept(target, files))
  {
    if files == [] then Ok([])
    else
      var f := files[0];
      var rest := ListAsWritten(target, files[1..]);
      assert forall g :: g in files <==> g == f || g in files[1..];
      if StartsWith(f.siapath, target) then
        if |target| + 1 > |f.siapath| then Err(ArgumentOutOfRange(f.siapath))
        else if rest.Err? then rest
        else
          assert ([f] + Kept(target, files[1..]))[1..] == Kept(target, files[1..]);
          Ok([FileEntry(f.siapath[|target| + 1..], f.filesize)] + rest.value)
      else rest
  }

  /** A file stored as the target path itself makes the whole listing
      fail. */
  lemma ListAsWrittenFailsOnTargetItself()
    ensures ListAsWritten("backup", [SiaFile("backup", 1)]).Err?
  {
    assert SiaFile("backup", 1) in [SiaFile("backup", 1)];
  }

  /** A file of a sibling folder whose name extends the target path is
      listed, under a name that starts with '/'. */
  lemma ListAsWrittenLeaksSibling()
    ensures ListAsWritten("backup", [SiaFile("backup2/x", 1)]) == Ok([FileEntry("/x", 1)])
  {
    var f := SiaFile("backup2/x", 1);
    assert f.siapath[..6] == "backup";
    assert f.siapath[7..] == "/x";
    assert [f][1..] == [];
    assert ListAsWritten("backup", []) == Ok([]);
    assert StartsWith(f.siapath, "backup") && !(|"backup"| + 1 > |f.siapath|);
    var e := FileEntry(f.siapath[7..], 1);
    assert ListAsWritten("backup", [f]) == Ok([e] + []);
    assert e == FileEntry("/x", 1) && [e] + [] == [e];
  }

  /** The listing with the separator included in the filter: exactly the
      files stored below the target path, named relative to it. */
  function List(target: string, files: seq<SiaFile>): (r: seq<FileEntry>)
    ensures forall e :: e in r ==> exists f :: f in files && f.siapath == target + "/" + e.name && f.filesize == e.size
    ensures forall f :: f in files && StartsWith(f.siapath, target + "/") ==>
              FileEntry(f.siapath[|target| + 1..], f.filesize) in r
  {
    if files == [] then []
    else
      var f := files[0];
      var rest := List(target, files[1..]);
      assert forall g :: g in files <==> g == f || g in files[1..];
      if StartsWith(f.siapath, target + "/") then
        var e := FileEntry(f.siapath[|target| + 1..], f.filesize);
        assert f.siapath == f.siapath[..|target| + 1] + e.name;
        [e] + rest
      else rest
  }

  /** PutAsync stores `name` as target + "/" + name; the listing gives
      that name back. */
  lemma ListAfterPut(target: string, files: seq<SiaFile>, name: string, size: int)
    requires SiaFile(target + "/" + name, size) in files
    ensures FileEntry(name, size) in List(target, files)
  {
    var p := target + "/" + name;
    assert p[..|target| + 1] == target + "/";
    assert p[|target| + 1..] == name;
  }

  /** An entry of /renter/downloads; `error` is None when the reply has
      no error field. */
  datatype SiaDownload = SiaDownload(siapath: string, filesize: int, received: int, error: Option<string>)

  /** An entry that settles the download check: one for the file that
      has an error (C#'s null differs from "") or has all its bytes. */
  predicate Decisive(d: SiaDownload, siapath: string) {
    d.siapath == siapath && (d.error != Some("") || d.filesize == d.received)
  }

  /** The message of the exception for a download with an error; a null
      error reads as "". */
  function DownloadFailure(siapath: string, error: Option<string>): string {
    "failed to download " + siapath + "err: " + (if error.Some? then error.value else "")
  }

  /** What a settling entry decides: its error fails the check, otherwise
      the download is complete iff the local file can be opened. */
  function Verdict(d: SiaDownload, siapath: string, openable: bool): Result<bool, string> {
    if d.error != Some("") then Err(DownloadFailure(siapath, d.error)) else Ok(openable)
  }

  /** The index of the first settling entry for the file, or the number
      of entries when there is none. */
  function FirstDecisive(downloads: seq<SiaDownload>, siapath: string): (i: nat)
    ensures i <= |downloads|
    ensures forall j :: 0 <= j < i ==> !Decisive(downloads[j], siapath)
    ensures i < |downloads| ==> Decisive(downloads[i], siapath)
  {
    if downloads == [] then 0
    else if Decisive(downloads[0], siapath) then 0
    else
      var i := FirstDecisive(downloads[1..], siapath);
      assert forall j :: 0 < j <= i ==> downloads[j] == downloads[1..][j - 1];
      1 + i
  }

  /** The download check over the entries: the first settling entry for
      the file decides; without one the download is not complete. */
  function DownloadDecision(downloads: seq<SiaDownload>, siapath: string, openable: bool): (r: Result<bool, string>)
    ensures var i := FirstDecisive(downloads, siapath);
      r == if i < |downloads| then Verdict(downloads[i], siapath, openable) else Ok(false)
  {
    if downloads == [] then Ok(false)
    else
      var d := downloads[0];
      var rest := DownloadDecision(downloads[1..], siapath, openable);
      if d.siapath == siapath then
        if d.error != Some("") then Err(DownloadFailure(siapath, d.error))
        else if d.filesize == d.received then Ok(openable)
        else rest
      else rest
  }

  /** IsDownloadCompleteAsync: a listing without entries is not complete;
      otherwise the entries are scanned in order and the first settling
      one decides. `openable` says whether the local file can be opened
      for reading, the IOException case giving false. */
  method IsDownloadComplete(downloads: Option<seq<SiaDownload>>, siapath: string, openable: bool)
    returns (r: Result<bool, string>)
    ensures downloads.None? ==> r == Ok(false)
    ensures downloads.Some? ==> r == DownloadDecision(downloads.value, siapath, openable)
  {
    if downloads.None? {
      return Ok(false);
    }
    var files := downloads.value;
    var i := 0;
    while i < |files|
      invariant 0 <= i <= |files|
      invariant DownloadDecision(files, siapath, openable) == DownloadDecision(files[i..], siapath, openable)
      decreases |files| - i
    {
      var d := files[i];
      assert files[i..][1..] == files[i + 1..];
      if d.siapath == siapath {
        if d.error != Some("") {
          return Err(DownloadFailure(siapath, d.error));
        }
        if d.filesize == d.received {
          return Ok(openable);
        }
      }
      i := i + 1;
    }
    r := Ok(false);
  }
}
