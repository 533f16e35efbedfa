/** The SFTP backend's own logic: the target path, port and credentials
    its constructor derives from the URL and the options, the folder
    creation that walks "/a", "/a/b", ... one level at a time, the host
    key trust decision, the working-directory shortcut, the choice of
    key or password authentication, and the listing filter. The SFTP
    connection's answers (what exists, what a path resolves to) are
    inputs. */
module SshV2 {
  import opened Common

  const DefaultPort: int := 22
  const KeyFileUri: string := "sshkey://"

  /** The constructor's path: a non-blank path gets a trailing '/', and
      every path gets a leading one. */
  function TargetPath(uriPath: string): (p: string)
    ensures StartsWith(p, "/")
    ensures !IsNullOrWhiteSpace(Some(uriPath)) ==> EndsWith(p, "/")
    ensures uriPath == "" ==> p == "/"
    ensures var q := if IsNullOrWhiteSpace(Some(uriPath)) then uriPath else AppendDirSeparator(uriPath);
      (StartsWith(q, "/") ==> p == q) && (!StartsWith(q, "/") ==> p == "/" + q)
  {
    var q := if IsNullOrWhiteSpace(Some(uriPath)) then uriPath else AppendDirSeparator(uriPath);
    if StartsWith(q, "/") then q else "/" + q
  }

  /** A derived path derives itself again. */
  lemma TargetPathIdempotent(uriPath: string)
    requires !IsNullOrWhiteSpace(Some(uriPath)) || uriPath == ""
    ensures TargetPath(TargetPath(uriPath)) == TargetPath(uriPath)
  {
    var p := TargetPath(uriPath);
    assert p[0] == '/' && !IsWhiteSpace(p[0]);
    assert AppendDirSeparator(p) == p;
  }

  /** The port: the URL's when positive, 22 otherwise. */
  function Port(uriPort: int): (port: int)
    ensures port > 0
    ensures uriPort > 0 ==> port == uriPort
    ensures uriPort <= 0 ==> port == DefaultPort
  {
    if uriPort > 0 then uriPort else DefaultPort
  }

  datatype SshConfig = SshConfig(server: string, port: int, path: string, username: Option<string>,
                                 password: Option<string>, fingerprint: Option<string>, acceptAnyFingerprint: bool)

  /** The constructor: "auth-username", "auth-password" and
      "ssh-fingerprint" come from the options, a non-empty user name or
      password in the URL overrides the option. `acceptAny` is the parsed
      "ssh-accept-any-fingerprints" option. */
  function Configure(host: string, uriPort: int, uriPath: string, uriUser: Option<string>, uriPassword: Option<string>,
                     options: map<string, string>, acceptAny: bool): (c: SshConfig)
    ensures c.server == host && c.port == Port(uriPort) && c.path == TargetPath(uriPath)
    ensures !IsNullOrEmpty(uriUser) ==> c.username == uriUser
    ensures IsNullOrEmpty(uriUser) ==> c.username == Lookup(options, "auth-username")
    ensures !IsNullOrEmpty(uriPassword) ==> c.password == uriPassword
    ensures IsNullOrEmpty(uriPassword) ==> c.password == Lookup(options, "auth-password")
    ensures c.fingerprint == Lookup(options, "ssh-fingerprint") && c.acceptAnyFingerprint == acceptAny
  {
    SshConfig(host, Port(uriPort), TargetPath(uriPath),
              if !IsNullOrEmpty(uriUser) then uriUser else Lookup(options, "auth-username"),
              if !IsNullOrEmpty(uriPassword) then uriPassword else Lookup(options, "auth-password"),
              Lookup(options, "ssh-fingerprint"), acceptAny)
  }

  /** "/" followed by the components joined by "/". */
  function PathOf(parts: seq<string>): (p: string)
    ensures parts != [] ==> p != [] && p[0] == '/'
  {
    if parts == [] then "" else PathOf(parts[..|parts| - 1]) + "/" + parts[|parts| - 1]
  }

  /** The paths CreateFolderAsync visits: one per component, each the
      previous one extended by "/" and the component. */
  function Cumulative(parts: seq<string>): (c: seq<string>)
    ensures |c| == |parts| && forall k :: 0 <= k < |parts| ==> c[k] == PathOf(parts[..k + 1])
  {
    seq(|parts|, k requires 0 <= k < |parts| => PathOf(parts[..k + 1]))
  }

  /** The remote tree: each existing path and whether it is a directory. */
  type Tree = map<string, bool>

  predicate IsFile(tree: Tree, q: string) {
    q in tree && !tree[q]
  }

  datatype Failure = NotADirectory(path: string) | FolderMissing(path: string) | FileMissing | Other

  /** The outcome of visiting `paths` in order: a missing path is created
      as a directory, an existing directory is passed, an existing
      non-directory stops the walk. */
  function Created(tree: Tree, paths: seq<string>): (r: (Result<(), Failure>, Tree))
    decreases |paths|
  {
    if paths == [] then (Ok(()), tree)
    else if IsFile(tree, paths[0]) then (Err(NotADirectory(paths[0])), tree)
    else Created(if paths[0] in tree then tree else tree[paths[0] := true], paths[1..])
  }

  /** A completed walk leaves every visited path a directory, adds
      nothing else and changes no existing path. */
  lemma {:induction false} CreatedOk(tree: Tree, paths: seq<string>)
    requires Created(tree, paths).0.Ok?
    ensures var t := Created(tree, paths).1;
      (forall q :: q in paths ==> q in t && t[q])
      && t.Keys == tree.Keys + (set q | q in paths)
      && (forall q :: q in tree ==> t[q] == tree[q])
    decreases |paths|
  {
    if paths != [] {
      var next := if paths[0] in tree then tree else tree[paths[0] := true];
      CreatedOk(next, paths[1..]);
      assert forall q :: q in paths <==> q == paths[0] || q in paths[1..];
    }
  }

  /** A failed walk stopped at a visited path that is not a directory. */
  lemma {:induction false} CreatedErr(tree: Tree, paths: seq<string>)
    requires Created(tree, paths).0.Err?
    ensures var e := Created(tree, paths).0.error;
      e.NotADirectory? && e.path in paths && IsFile(tree, e.path)
    decreases |paths|
  {
    if !IsFile(tree, paths[0]) {
      var next := if paths[0] in tree then tree else tree[paths[0] := true];
      CreatedErr(next, paths[1..]);
      var e := Created(tree, paths).0.error;
      assert e.path in paths[1..];
    }
  }

  /** Over paths that are all directories already the walk changes
      nothing. */
  lemma {:induction false} CreatedNoop(tree: Tree, paths: seq<string>)
    requires forall q :: q in paths ==> q in tree && tree[q]
    ensures Created(tree, paths) == (Ok(()), tree)
    decreases |paths|
  {
    if paths != [] {
      assert paths[0] in paths;
      assert forall q :: q in paths[1..] ==> q in paths;
      CreatedNoop(tree, paths[1..]);
    }
  }

  /** CreateFolderAsync: visits the cumulative paths of the non-empty
      components of `path`, creating the missing ones. */
  method CreateFolder(path: string, tree: Tree) returns (r: Result<(), Failure>, tree': Tree)
    ensures (r, tree') == Created(tree, Cumulative(SplitNonEmpty(path, '/')))
  {
    var parts := SplitNonEmpty(path, '/');
    ghost var c := Cumulative(parts);
    var partialPath := "";
    tree' := tree;
    var i := 0;
    while i < |parts|
      invariant i <= |parts|
      invariant partialPath == PathOf(parts[..i])
      invariant Created(tree', c[i..]) == Created(tree, c)
    {
      assert parts[..i + 1][..i] == parts[..i];
      partialPath := partialPath + "/" + parts[i];
      assert c[i..][0] == partialPath && c[i..][1..] == c[i + 1..];
      if partialPath in tree' {
        if !tree'[partialPath] {
          return Err(NotADirectory(partialPath)), tree';
        }
      } else {
        tree' := tree'[partialPath := true];
      }
      i := i + 1;
    }
    r := Ok(());
  }

  /** Creating the folder a second time succeeds and changes nothing. */
  method CreateFolderTwice(path: string, tree: Tree)
    returns (first: Result<(), Failure>, once: Tree, second: Result<(), Failure>, twice: Tree)
    ensures first.Ok? ==> second.Ok? && twice == once
  {
    first, once := CreateFolder(path, tree);
    if first.Ok? {
      CreatedOk(tree, Cumulative(SplitNonEmpty(path, '/')));
      CreatedNoop(once, Cumulative(SplitNonEmpty(path, '/')));
    }
    second, twice := CreateFolder(path, once);
  }

  /** Two upper-case hexadecimal digits. */
  function HexDigit(d: bv8): (c: char)
    requires d < 16
  {
    if d < 10 then ('0' as int + d as int) as char else ('A' as int + d as int - 10) as char
  }

  function Hex(b: bv8): (s: string)
    ensures |s| == 2
  {
    [HexDigit(b >> 4), HexDigit(b & 15)]
  }

  lemma HexInjective(a: bv8, b: bv8)
    requires Hex(a) == Hex(b)
    ensures a == b
  {
    assert HexDigit(a >> 4) == HexDigit(b >> 4) && HexDigit(a & 15) == HexDigit(b & 15);
    assert a >> 4 == b >> 4 && a & 15 == b & 15;
  }

  /** BitConverter.ToString with '-' replaced by ':'. */
  function HexColon(bytes: seq<bv8>): (s: string)
    ensures bytes == [] <==> s == ""
  {
    if bytes == [] then ""
    else if |bytes| == 1 then Hex(bytes[0])
    else Hex(bytes[0]) + ":" + HexColon(bytes[1..])
  }

  /** Different key fingerprints never print alike. */
  lemma {:induction false} HexColonInjective(a: seq<bv8>, b: seq<bv8>)
    requires HexColon(a) == HexColon(b)
    ensures a == b
  {
    if a != [] && b != [] {
      var s := HexColon(a);
      assert s[..2] == Hex(a[0]) && s[..2] == Hex(b[0]);
      HexInjective(a[0], b[0]);
      if |a| > 1 && |b| > 1 {
        assert HexColon(a[1..]) == s[3..] == HexColon(b[1..]);
        HexColonInjective(a[1..], b[1..]);
        assert a == [a[0]] + a[1..] && b == [b[0]] + b[1..];
      }
    }
  }

  /** Decimal digits of a number, as Int32.ToString prints it. */
  function Decimal(n: nat): (s: string)
    ensures s != [] && forall i :: 0 <= i < |s| ==> IsDigit(s[i])
    ensures DigitsValue(s) == n
  {
    var d := ['0' + (n % 10) as char];
    if n < 10 then d
    else
      var s := Decimal(n / 10) + d;
      assert s[..|s| - 1] == Decimal(n / 10);
      s
  }

  /** The text the host key is compared as: name, key length and the
      colon-separated hexadecimal fingerprint. */
  function HostFingerprint(hostKeyName: string, keyLength: nat, fingerprint: seq<bv8>): string {
    hostKeyName + " " + Decimal(keyLength) + " " + HexColon(fingerprint)
  }

  datatype HostKeyVerdict = Trust | NotSpecified(host: string) | Mismatch(host: string)

  /** The HostKeyReceived handler: every key is trusted when any
      fingerprint is accepted; otherwise a fingerprint must be configured
      and must match the host's, ignoring case. */
  function HostKeyDecision(acceptAny: bool, configured: Option<string>, hostKeyName: string, keyLength: nat,
                           fingerprint: seq<bv8>): (v: HostKeyVerdict)
    ensures acceptAny ==> v == Trust
    ensures !acceptAny && IsNullOrEmpty(configured) ==> v == NotSpecified(HostFingerprint(hostKeyName, keyLength, fingerprint))
    ensures !acceptAny && !IsNullOrEmpty(configured) ==>
              (v == Trust <==> EqualsIgnoreCase(HostFingerprint(hostKeyName, keyLength, fingerprint), configured.value))
    ensures v.Mismatch? ==> v.host == HostFingerprint(hostKeyName, keyLength, fingerprint)
  {
    var host := HostFingerprint(hostKeyName, keyLength, fingerprint);
    if acceptAny then Trust
    else if IsNullOrEmpty(configured) then NotSpecified(host)
    else if !EqualsIgnoreCase(host, configured.value) then Mismatch(host)
    else Trust
  }

  lemma {:induction false} LowerIdempotent(s: string)
    ensures Lower(Lower(s)) == Lower(s)
  {
    if s != [] {
      LowerIdempotent(s[1..]);
    }
  }

  /** Configuring the lower-cased fingerprint that the "not specified"
      error reports makes the same key trusted. */
  lemma ReportedFingerprintIsTrusted(hostKeyName: string, keyLength: nat, fingerprint: seq<bv8>)
    ensures var reported := Lower(HostFingerprint(hostKeyName, keyLength, fingerprint));
      HostKeyDecision(false, Some(reported), hostKeyName, keyLength, fingerprint) == Trust
  {
    var host := HostFingerprint(hostKeyName, keyLength, fingerprint);
    LowerIdempotent(host);
    assert host != [] && Lower(host) != [];
  }

  /** Whether ChangeDirectory has to ask the server: not for an empty
      path, nor when the working directory with a trailing '/' already
      is the path. */
  predicate MustChangeDirectory(path: string, workingDirectory: string) {
    path != "" && AppendDirSeparator(workingDirectory) != path
  }

  /** An SFTP connection's working directory. */
  class SftpConnection {
    var workingDirectory: string

    constructor(home: string)
      ensures workingDirectory == home
    {
      workingDirectory := home;
    }

    /** ChangeDirectory: `resolve` stands for the server, which gives the
        directory a path leads to or refuses it (FolderMissing). */
    method ChangeDirectory(path: string, resolve: string -> Option<string>) returns (r: Result<(), Failure>)
      modifies this`workingDirectory
      ensures !MustChangeDirectory(path, old(workingDirectory)) ==> r.Ok? && workingDirectory == old(workingDirectory)
      ensures MustChangeDirectory(path, old(workingDirectory)) && resolve(path).None? ==>
                r == Err(FolderMissing(path)) && workingDirectory == old(workingDirectory)
      ensures MustChangeDirectory(path, old(workingDirectory)) && resolve(path).Some? ==>
                r.Ok? && workingDirectory == resolve(path).value
    {
      if path == "" {
        return Ok(());
      }
      var workingDir := AppendDirSeparator(workingDirectory);
      if workingDir == path {
        return Ok(());
      }
      var d := resolve(path);
      if d.None? {
        return Err(FolderMissing(path));
      }
      workingDirectory := d.value;
      r := Ok(());
    }
  }

  /** Changing to a target path a second time is skipped once the server
      resolved it to the path without its trailing '/'. */
  method ChangeDirectoryTwice(c: SftpConnection, path: string, resolve: string -> Option<string>)
    returns (first: Result<(), Failure>, second: Result<(), Failure>)
    requires resolve(path).Some? && resolve(path).value + "/" == path && !EndsWith(resolve(path).value, "/")
    modifies c
    ensures first.Ok? && second.Ok? && AppendDirSeparator(c.workingDirectory) == path
  {
    first := c.ChangeDirectory(path, resolve);
    second := c.ChangeDirectory(path, resolve);
  }

  /** Where the private key comes from: an inline key (the URL-decoded
      text after "sshkey://") or a key file name, with the password as
      passphrase when it is non-empty. */
  datatype KeySource = InlineKey(text: string, passphrase: Option<string>) | KeyFile(filename: string, passphrase: Option<string>)

  /** ValidateKeyFile: the "sshkey://" prefix is recognised ignoring
      case. `urlDecode` stands for Uri.UrlDecode. */
  function KeySourceOf(keyFile: string, password: Option<string>, urlDecode: string -> string): (k: KeySource)
    ensures k.InlineKey? <==> |keyFile| >= |KeyFileUri| && EqualsIgnoreCase(keyFile[..|KeyFileUri|], KeyFileUri)
    ensures k.InlineKey? ==> k.text == urlDecode(keyFile[|KeyFileUri|..])
    ensures k.KeyFile? ==> k.filename == keyFile
    ensures k.passphrase.Some? <==> !IsNullOrEmpty(password)
    ensures k.passphrase.Some? ==> k.passphrase == password
  {
    var passphrase := if IsNullOrEmpty(password) then None else password;
    if |keyFile| >= |KeyFileUri| && EqualsIgnoreCase(keyFile[..|KeyFileUri|], KeyFileUri) then
      InlineKey(urlDecode(keyFile[|KeyFileUri|..]), passphrase)
    else KeyFile(keyFile, passphrase)
  }

  datatype Authentication = KeyAuth(key: KeySource) | PasswordAuth(password: string)

  /** CreateConnectionAsync's choice: "ssh-keyfile", or "ssh-key" when
      that is blank; a non-blank key means key authentication, otherwise
      the password (empty when unset). */
  function AuthenticationOf(options: map<string, string>, password: Option<string>, urlDecode: string -> string): (a: Authentication)
    ensures var file := Lookup(options, "ssh-keyfile");
      var key := if IsNullOrWhiteSpace(file) then Lookup(options, "ssh-key") else file;
      (a.KeyAuth? <==> !IsNullOrWhiteSpace(key))
      && (a.KeyAuth? ==> a.key == KeySourceOf(key.value, password, urlDecode))
      && (a.PasswordAuth? ==> a.password == if password.Some? then password.value else "")
  {
    var file := Lookup(options, "ssh-keyfile");
    var key := if IsNullOrWhiteSpace(file) then Lookup(options, "ssh-key") else file;
    if !IsNullOrWhiteSpace(key) then KeyAuth(KeySourceOf(key.value, password, urlDecode))
    else PasswordAuth(if password.Some? then password.value else "")
  }

  /** A directory listing entry of the SFTP client. */
  datatype SftpFile = SftpFile(name: string, length: int, lastAccess: int, lastWrite: int, isDirectory: bool)

  datatype FileEntry = FileEntry(name: string, size: int, lastAccess: int, lastModification: int, isFolder: bool)

  function EntryOf(f: SftpFile): (e: FileEntry)
    ensures e.name == f.name && e.size == f.length && e.isFolder == f.isDirectory
    ensures e.lastAccess == f.lastAccess && e.lastModification == f.lastWrite
  {
    FileEntry(f.name, f.length, f.lastAccess, f.lastWrite, f.isDirectory)
  }

  predicate IsDotEntry(f: SftpFile) {
    f.name == "." || f.name == ".."
  }

  /** The entries of a listing without "." and "..", in order. */
  function Visible(files: seq<SftpFile>): (es: seq<FileEntry>)
    ensures |es| <= |files|
    ensures forall e :: e in es ==> e.name != "." && e.name != ".."
    ensures forall f :: f in files && !IsDotEntry(f) ==> EntryOf(f) in es
    ensures forall e :: e in es ==> exists f :: f in files && e == EntryOf(f)
  {
    if files == [] then []
    else
      var f := files[|files| - 1];
      var rest := Visible(files[..|files| - 1]);
      assert forall x :: x in files <==> x in files[..|files| - 1] || x == f;
      if IsDotEntry(f) then rest else rest + [EntryOf(f)]
  }

  /** ListEnumerableAsync: every entry of the working directory's listing
      except "." and "..". */
  method List(files: seq<SftpFile>) returns (entries: seq<FileEntry>)
    ensures entries == Visible(files)
  {
    entries := [];
    var i := 0;
    while i < |files|
      invariant i <= |files| && entries == Visible(files[..i])
    {
      var f := files[i];
      assert files[..i + 1][..i] == files[..i] && files[..i + 1][i] == f;
      if f.name == "." || f.name == ".." {
        i := i + 1;
        continue;
      }
      entries := entries + [EntryOf(f)];
      i := i + 1;
    }
    assert files[..i] == files;
  }

  datatype Operation = Put | Get | Delete | Rename
  datatype SftpError = PathNotFound | OtherError

  /** The failure an operation reports: downloads and deletions turn a
      missing path into FileMissing, uploads and renames pass the error
      on. */
  function OperationFailure(op: Operation, e: SftpError): (f: Failure)
    ensures f == FileMissing <==> (op == Get || op == Delete) && e == PathNotFound
    ensures f != FileMissing ==> f == Other
  {
    if (op == Get || op == Delete) && e == PathNotFound then FileMissing else Other
  }
}
