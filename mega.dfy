/** The Mega backend's bookkeeping: the configuration checks of the
    constructor, and the per-name cache of the file nodes in the current
    folder (`m_filecache`), which listing, upload, download, delete and
    rename consult and update. What the Mega client returns is an input
    (the node listing, the uploaded node); the calls made to it are
    recorded in a log. */
module Mega {
  import opened Common

  datatype NodeType = File | Directory | Root

  /** A Mega node: ModificationDate is nullable. */
  datatype Node = Node(id: int, name: string, nodeType: NodeType, parentId: int, modified: Option<int>, size: int)

  datatype MegaConfig = MegaConfig(username: string, password: string, twoFactorKey: Option<string>, prefix: string)
  datatype ConfigError = NoUsername | NoPassword

  /** The constructor: "auth-username"/"auth-password" are overridden by
      a non-empty user name/password in the URL; both must end up
      non-empty. */
  function Configure(options: map<string, string>, uriUser: Option<string>, uriPassword: Option<string>,
                     hostAndPath: Option<string>): (r: Result<MegaConfig, ConfigError>)
    ensures var user := if !IsNullOrEmpty(uriUser) then uriUser else Lookup(options, "auth-username");
      var pass := if !IsNullOrEmpty(uriPassword) then uriPassword else Lookup(options, "auth-password");
      (r == Err(NoUsername) <==> IsNullOrEmpty(user))
      && (r == Err(NoPassword) <==> !IsNullOrEmpty(user) && IsNullOrEmpty(pass))
      && (r.Ok? ==> Some(r.value.username) == user && Some(r.value.password) == pass)
    ensures r.Ok? ==> r.value.twoFactorKey == Lookup(options, "auth-two-factor-key")
    ensures r.Ok? ==> r.value.prefix == (if hostAndPath.Some? then hostAndPath.value else "")
  {
    var user := if !IsNullOrEmpty(uriUser) then uriUser else Lookup(options, "auth-username");
    var pass := if !IsNullOrEmpty(uriPassword) then uriPassword else Lookup(options, "auth-password");
    if IsNullOrEmpty(user) then Err(NoUsername)
    else if IsNullOrEmpty(pass) then Err(NoPassword)
    else Ok(MegaConfig(user.value, pass.value, Lookup(options, "auth-two-factor-key"),
                       if hostAndPath.Some? then hostAndPath.value else ""))
  }

  predicate InFolder(n: Node, folder: int) {
    n.nodeType == File && n.parentId == folder
  }

  /** The files of `folder` grouped by name, each group in listing order. */
  function Group(nodes: seq<Node>, folder: int): (g: map<string, seq<Node>>)
    ensures forall k :: k in g ==> g[k] != [] && forall x :: x in g[k] ==> InFolder(x, folder) && x.name == k
    ensures forall x :: x in nodes && InFolder(x, folder) ==> x.name in g && x in g[x.name]
    ensures forall k :: k in g ==> exists x :: x in nodes && InFolder(x, folder) && x.name == k
  {
    if nodes == [] then map[]
    else
      var n := nodes[|nodes| - 1];
      var g := Group(nodes[..|nodes| - 1], folder);
      assert forall x :: x in nodes <==> x in nodes[..|nodes| - 1] || x == n;
      if InFolder(n, folder) then
        g[n.name := (if n.name in g then g[n.name] else []) + [n]]
      else g
  }

  /** The files of `folder` named `k`, in listing order. */
  function Named(nodes: seq<Node>, folder: int, k: string): (r: seq<Node>)
    ensures forall x :: x in r <==> x in nodes && InFolder(x, folder) && x.name == k
  {
    if nodes == [] then []
    else
      var n := nodes[|nodes| - 1];
      assert forall x :: x in nodes <==> x in nodes[..|nodes| - 1] || x == n;
      Named(nodes[..|nodes| - 1], folder, k) + (if InFolder(n, folder) && n.name == k then [n] else [])
  }

  /** Each group is exactly the files of the folder with that name, in
      listing order, and there is a group for every such name. */
  lemma {:induction false} GroupIsNamed(nodes: seq<Node>, folder: int)
    ensures forall k :: k in Group(nodes, folder) <==> Named(nodes, folder, k) != []
    ensures forall k :: k in Group(nodes, folder) ==> Group(nodes, folder)[k] == Named(nodes, folder, k)
  {
    if nodes != [] {
      var p, n := nodes[..|nodes| - 1], nodes[|nodes| - 1];
      GroupIsNamed(p, folder);
      var g, g' := Group(p, folder), Group(nodes, folder);
      assert g' == if InFolder(n, folder) then g[n.name := (if n.name in g then g[n.name] else []) + [n]] else g;
      forall k
        ensures (k in g' <==> Named(nodes, folder, k) != []) && (k in g' ==> g'[k] == Named(nodes, folder, k))
      {
        assert Named(nodes, folder, k) == Named(p, folder, k) + (if InFolder(n, folder) && n.name == k then [n] else []);
      }
    }
  }

  /** The node GetFileNodeAsync and ListAsync use for a name:
      OrderByDescending(ModificationDate).First(). */
  function Newest(group: seq<Node>): (r: Node)
    requires group != []
    ensures r in group
    ensures forall x :: x in group ==> !Earlier(r.modified, x.modified)
  {
    group[NewestIndex(group, (n: Node) => n.modified)]
  }

  datatype FileEntry = FileEntry(name: string, size: int, modified: int)

  /** A listed entry; a null date becomes 0. */
  function EntryOf(n: Node): (e: FileEntry)
    ensures e.name == n.name && e.size == n.size
    ensures e.modified == (if n.modified.Some? then n.modified.value else 0)
  {
    FileEntry(n.name, n.size, if n.modified.Some? then n.modified.value else 0)
  }

  /** The calls made to the Mega client. */
  datatype RemoteCall = Upload(name: string) | DeleteNode(id: int) | RenameNode(id: int, newName: string)

  datatype Failure = FileMissing | KeyNotFound | UploadFailed | ClientFailed(id: int)

  function DeleteCalls(nodes: seq<Node>): (calls: seq<RemoteCall>)
    ensures |calls| == |nodes| && forall i :: 0 <= i < |nodes| ==> calls[i] == DeleteNode(nodes[i].id)
  {
    seq(|nodes|, i requires 0 <= i < |nodes| => DeleteNode(nodes[i].id))
  }

  function RenameCalls(nodes: seq<Node>, newName: string): (calls: seq<RemoteCall>)
    ensures |calls| == |nodes| && forall i :: 0 <= i < |nodes| ==> calls[i] == RenameNode(nodes[i].id, newName)
  {
    seq(|nodes|, i requires 0 <= i < |nodes| => RenameNode(nodes[i].id, newName))
  }

  /** The position of the first node whose delete or rename call the
      client refuses (throws for). */
  function FirstRefused(group: seq<Node>, refused: set<int>): (r: Option<nat>)
    ensures r.Some? ==> r.value < |group| && group[r.value].id in refused
                        && forall j :: 0 <= j < r.value ==> group[j].id !in refused
    ensures r.None? <==> forall x :: x in group ==> x.id !in refused
  {
    FirstIndex(group, (x: Node) => x.id in refused)
  }

  /** The nodes a loop of client calls reaches: all of them, or those up
      to and including the first refused one. */
  function Attempted(group: seq<Node>, refused: set<int>): (a: seq<Node>)
    ensures |a| <= |group| && a == group[..|a|]
    ensures FirstRefused(group, refused).None? ==> a == group
    ensures FirstRefused(group, refused).Some? ==> |a| == FirstRefused(group, refused).value + 1
  {
    var stop := FirstRefused(group, refused);
    if stop.None? then group else group[..stop.value + 1]
  }

  class MegaBackend {
    /** The id of the current folder. */
    const folder: int
    var fileCache: Option<map<string, seq<Node>>>
    ghost var calls: seq<RemoteCall>

    /** Every cached name maps to a non-empty list of nodes. */
    ghost predicate Valid()
      reads this`fileCache
    {
      fileCache.Some? ==> forall k :: k in fileCache.value ==> fileCache.value[k] != []
    }

    constructor(folder: int)
      ensures this.folder == folder && fileCache.None? && calls == [] && Valid()
    {
      this.folder := folder;
      fileCache := None;
      calls := [];
    }

    /** ResetFileCacheAsync: the cache becomes the current folder's files
        of the node listing `nodes`, grouped by name. */
    method ResetFileCache(nodes: seq<Node>)
      modifies this`fileCache
      ensures fileCache == Some(Group(nodes, folder)) && Valid()
    {
      fileCache := Some(Group(nodes, folder));
    }

    /** GetFileNodeAsync: the newest node cached for the name; the cache
        is refreshed once (from `nodes`) if the name is not in it. */
    method GetFileNode(name: string, nodes: seq<Node>) returns (r: Result<Node, Failure>)
      requires Valid()
      modifies this`fileCache
      ensures Valid()
      ensures old(fileCache).Some? && name in old(fileCache).value ==>
                fileCache == old(fileCache) && r == Ok(Newest(old(fileCache).value[name]))
      ensures !(old(fileCache).Some? && name in old(fileCache).value) ==>
                fileCache == Some(Group(nodes, folder))
                && (r.Ok? <==> name in Group(nodes, folder))
                && (r.Ok? ==> r.value == Newest(Group(nodes, folder)[name]))
      ensures r.Err? ==> r.error == FileMissing
    {
      if fileCache.Some? && name in fileCache.value {
        return Ok(Newest(fileCache.value[name]));
      }
      ResetFileCache(nodes);
      if name in fileCache.value {
        return Ok(Newest(fileCache.value[name]));
      }
      return Err(FileMissing);
    }

    /** ListAsync: one entry per cached name, for its newest node; the
        cache is filled first if it is empty. */
    method List(nodes: seq<Node>) returns (entries: map<string, FileEntry>)
      requires Valid()
      modifies this`fileCache
      ensures Valid() && fileCache.Some?
      ensures old(fileCache).Some? ==> fileCache == old(fileCache)
      ensures old(fileCache).None? ==> fileCache == Some(Group(nodes, folder))
      ensures entries.Keys == fileCache.value.Keys
      ensures forall k :: k in entries ==> entries[k] == EntryOf(Newest(fileCache.value[k]))
    {
      if fileCache.None? {
        ResetFileCache(nodes);
      }
      var cache := fileCache.value;
      entries := map k | k in cache :: EntryOf(Newest(cache[k]));
      assert entries.Keys == cache.Keys;
    }

    /** The client's delete call on each node in turn, stopping at the
        first one it refuses (`refused` are the ids it throws for). */
    method DeleteNodes(group: seq<Node>, refused: set<int>) returns (r: Result<(), Failure>)
      modifies this`calls
      ensures calls == old(calls) + DeleteCalls(Attempted(group, refused))
      ensures r.Ok? <==> FirstRefused(group, refused).None?
      ensures r.Err? ==> r.error == ClientFailed(group[FirstRefused(group, refused).value].id)
    {
      var i := 0;
      while i < |group|
        invariant i <= |group|
        invariant forall j :: 0 <= j < i ==> group[j].id !in refused
        invariant calls == old(calls) + DeleteCalls(group[..i])
      {
        assert DeleteCalls(group[..i + 1]) == DeleteCalls(group[..i]) + [DeleteNode(group[i].id)];
        calls := calls + [DeleteNode(group[i].id)];
        if group[i].id in refused {
          return Err(ClientFailed(group[i].id));
        }
        i := i + 1;
      }
      assert group[..i] == group;
      r := Ok(());
    }

    /** The client's rename call on each node in turn, stopping at the
        first one it refuses. */
    method RenameNodes(group: seq<Node>, newName: string, refused: set<int>) returns (r: Result<(), Failure>)
      modifies this`calls
      ensures calls == old(calls) + RenameCalls(Attempted(group, refused), newName)
      ensures r.Ok? <==> FirstRefused(group, refused).None?
      ensures r.Err? ==> r.error == ClientFailed(group[FirstRefused(group, refused).value].id)
    {
      var i := 0;
      while i < |group|
        invariant i <= |group|
        invariant forall j :: 0 <= j < i ==> group[j].id !in refused
        invariant calls == old(calls) + RenameCalls(group[..i], newName)
      {
        assert RenameCalls(group[..i + 1], newName) == RenameCalls(group[..i], newName) + [RenameNode(group[i].id, newName)];
        calls := calls + [RenameNode(group[i].id, newName)];
        if group[i].id in refused {
          return Err(ClientFailed(group[i].id));
        }
        i := i + 1;
      }
      assert group[..i] == group;
      r := Ok(());
    }

    /** DeleteAsync: the cache is refreshed if the name is not in it;
        still absent means FileMissing; otherwise every node of the name
        is deleted (`refused` are the node ids whose delete call throws)
        and the name leaves the cache. Any failure empties the cache. */
    method Delete(name: string, nodes: seq<Node>, refused: set<int>) returns (r: Result<(), Failure>)
      requires Valid()
      modifies this`fileCache, this`calls
      ensures Valid()
      ensures var before := if old(fileCache).Some? && name in old(fileCache).value
                            then old(fileCache).value else Group(nodes, folder);
        (name !in before ==> r == Err(FileMissing) && fileCache.None? && calls == old(calls))
        && (name in before ==>
              calls == old(calls) + DeleteCalls(Attempted(before[name], refused))
              && (r.Ok? <==> FirstRefused(before[name], refused).None?)
              && (r.Ok? ==> fileCache == Some(before - {name}))
              && (r.Err? ==> r == Err(ClientFailed(before[name][FirstRefused(before[name], refused).value].id))))
        && (r.Err? ==> fileCache.None?)
    {
      if fileCache.None? || name !in fileCache.value {
        ResetFileCache(nodes);
      }
      var cache := fileCache.value;
      if name !in cache {
        fileCache := None;
        return Err(FileMissing);
      }
      r := DeleteNodes(cache[name], refused);
      if r.Err? {
        fileCache := None;
        return;
      }
      fileCache := Some(cache - {name});
    }

    /** The part of PutAsync after a successful upload of `node`: the old
        nodes of the name are deleted, then the name maps to the new node;
        a refused delete fails and empties the cache. */
    method Replace(name: string, nodes: seq<Node>, node: Node, refused: set<int>) returns (r: Result<(), Failure>)
      requires Valid() && fileCache.Some?
      modifies this`fileCache, this`calls
      ensures Valid()
      ensures var before := old(fileCache).value;
        var fails := name in before && FirstRefused(before[name], refused).Some?;
        calls == old(calls) + (if name in before then DeleteCalls(Attempted(before[name], refused)) else [])
        && (fails ==> r == Err(ClientFailed(before[name][FirstRefused(before[name], refused).value].id))
                      && fileCache.None?)
        && (!fails ==> r.Ok? && fileCache == Some(before[name := [node]]))
    {
      var cache := fileCache.value;
      if name in cache {
        r := Delete(name, nodes, refused);
        if r.Err? {
          return;
        }
        assert fileCache == Some(cache - {name});
        assert (cache - {name})[name := [node]] == cache[name := [node]];
      }
      fileCache := Some(fileCache.value[name := [node]]);
      r := Ok(());
    }

    /** PutAsync: the cache is filled if empty, the file uploaded, the old
        nodes of the name deleted, and the name then maps to exactly the
        uploaded node. `uploaded` is the node the client returns, None if
        the upload throws; `refused` are the node ids whose delete call
        throws. Any failure empties the cache. */
    method Put(name: string, nodes: seq<Node>, uploaded: Option<Node>, refused: set<int>) returns (r: Result<(), Failure>)
      requires Valid()
      modifies this`fileCache, this`calls
      ensures Valid()
      ensures uploaded.None? ==> r == Err(UploadFailed) && fileCache.None?
      ensures var before := if old(fileCache).Some? then old(fileCache).value else Group(nodes, folder);
        var fails := name in before && FirstRefused(before[name], refused).Some?;
        uploaded.Some? ==>
          calls == old(calls) + [Upload(name)] + (if name in before then DeleteCalls(Attempted(before[name], refused)) else [])
          && (fails ==> r == Err(ClientFailed(before[name][FirstRefused(before[name], refused).value].id))
                        && fileCache.None?)
          && (!fails ==> r.Ok? && fileCache == Some(before[name := [uploaded.value]])
                         && name in fileCache.value && fileCache.value[name] == [uploaded.value])
    {
      if fileCache.None? {
        ResetFileCache(nodes);
      }
      calls := calls + [Upload(name)];
      if uploaded.None? {
        fileCache := None;
        return Err(UploadFailed);
      }
      r := Replace(name, nodes, uploaded.value, refused);
    }

    /** The cache after moving the nodes of `oldName` to `newName`. */
    static function Renamed(before: map<string, seq<Node>>, oldName: string, newName: string): (c: map<string, seq<Node>>)
      requires oldName in before && oldName != newName
      ensures c.Keys == before.Keys - {oldName} + {newName}
      ensures c[newName] == before[oldName]
      ensures forall k :: k in c && k != newName ==> c[k] == before[k]
    {
      (before - {newName})[newName := before[oldName]] - {oldName}
    }

    /** The part of RenameAsync after the existence check, as written: an
        existing target is deleted, then the nodes are looked up under the
        old name again, which is gone when both names are equal, and
        renamed one by one. `refused` are the node ids whose delete or
        rename call throws; any failure empties the cache. */
    method MoveAsWritten(oldName: string, newName: string, nodes: seq<Node>, refused: set<int>)
      returns (r: Result<(), Failure>)
      requires Valid() && fileCache.Some? && oldName in fileCache.value
      modifies this`fileCache, this`calls
      ensures Valid()
      ensures var before := old(fileCache).value;
        var deleteFails := newName in before && FirstRefused(before[newName], refused).Some?;
        var renameFails := FirstRefused(before[oldName], refused).Some?;
        (deleteFails ==>
           r == Err(ClientFailed(before[newName][FirstRefused(before[newName], refused).value].id))
           && fileCache.None? && calls == old(calls) + DeleteCalls(Attempted(before[newName], refused)))
        && (!deleteFails && oldName == newName ==>
              r == Err(KeyNotFound) && fileCache.None? && calls == old(calls) + DeleteCalls(before[oldName]))
        && (!deleteFails && oldName != newName ==>
              calls == old(calls) + (if newName in before then DeleteCalls(before[newName]) else [])
                       + RenameCalls(Attempted(before[oldName], refused), newName)
              && (renameFails ==>
                    r == Err(ClientFailed(before[oldName][FirstRefused(before[oldName], refused).value].id))
                    && fileCache.None?)
              && (!renameFails ==> r.Ok? && fileCache == Some(Renamed(before, oldName, newName))))
    {
      var cache := fileCache.value;
      if newName in cache {
        r := Delete(newName, nodes, refused);
        if r.Err? {
          return;
        }
      }
      var cache' := fileCache.value;
      if oldName !in cache' {
        fileCache := None;
        return Err(KeyNotFound);
      }
      assert cache' == cache - {newName} || cache' == cache;
      r := RenameNodes(cache'[oldName], newName, refused);
      if r.Err? {
        fileCache := None;
        return;
      }
      fileCache := Some(cache'[newName := cache'[oldName]] - {oldName});
      assert fileCache.value == Renamed(cache, oldName, newName);
    }

    /** RenameAsync as written: the cache is refreshed if the old name is
        not in it; still absent means FileMissing, which empties the
        cache; otherwise as MoveAsWritten. */
    method RenameAsWritten(oldName: string, newName: string, nodes: seq<Node>, refused: set<int>)
      returns (r: Result<(), Failure>)
      requires Valid()
      modifies this`fileCache, this`calls
      ensures Valid()
      ensures var before := if old(fileCache).Some? && oldName in old(fileCache).value
                            then old(fileCache).value else Group(nodes, folder);
        var deleteFails := newName in before && FirstRefused(before[newName], refused).Some?;
        var renameFails := oldName in before && FirstRefused(before[oldName], refused).Some?;
        (oldName !in before ==> r == Err(FileMissing) && fileCache.None? && calls == old(calls))
        && (oldName in before && deleteFails ==>
              r == Err(ClientFailed(before[newName][FirstRefused(before[newName], refused).value].id))
              && fileCache.None? && calls == old(calls) + DeleteCalls(Attempted(before[newName], refused)))
        && (oldName in before && !deleteFails && oldName == newName ==>
              r == Err(KeyNotFound) && fileCache.None? && calls == old(calls) + DeleteCalls(before[oldName]))
        && (oldName in before && !deleteFails && oldName != newName ==>
              calls == old(calls) + (if newName in before then DeleteCalls(before[newName]) else [])
                       + RenameCalls(Attempted(before[oldName], refused), newName)
              && (renameFails ==>
                    r == Err(ClientFailed(before[oldName][FirstRefused(before[oldName], refused).value].id))
                    && fileCache.None?)
              && (!renameFails ==> r.Ok? && fileCache == Some(Renamed(before, oldName, newName))))
    {
      if fileCache.None? || oldName !in fileCache.value {
        ResetFileCache(nodes);
      }
      if oldName !in fileCache.value {
        fileCache := None;
        return Err(FileMissing);
      }
      r := MoveAsWritten(oldName, newName, nodes, refused);
    }

    /** RenameAsync with a rename onto itself left alone (after the
        existence check): otherwise as written. */
    method Rename(oldName: string, newName: string, nodes: seq<Node>, refused: set<int>)
      returns (r: Result<(), Failure>)
      requires Valid()
      modifies this`fileCache, this`calls
      ensures Valid()
      ensures var before := if old(fileCache).Some? && oldName in old(fileCache).value
                            then old(fileCache).value else Group(nodes, folder);
        var deleteFails := oldName != newName && newName in before && FirstRefused(before[newName], refused).Some?;
        var renameFails := oldName != newName && oldName in before && FirstRefused(before[oldName], refused).Some?;
        (oldName !in before ==> r == Err(FileMissing) && fileCache.None? && calls == old(calls))
        && (oldName in before && oldName == newName ==> r.Ok? && fileCache == Some(before) && calls == old(calls))
        && (oldName in before && deleteFails ==>
              r == Err(ClientFailed(before[newName][FirstRefused(before[newName], refused).value].id))
              && fileCache.None? && calls == old(calls) + DeleteCalls(Attempted(before[newName], refused)))
        && (oldName in before && oldName != newName && !deleteFails ==>
              calls == old(calls) + (if newName in before then DeleteCalls(before[newName]) else [])
                       + RenameCalls(Attempted(before[oldName], refused), newName)
              && (renameFails ==>
                    r == Err(ClientFailed(before[oldName][FirstRefused(before[oldName], refused).value].id))
                    && fileCache.None?))
        && (r.Ok? ==> fileCache.Some? && newName in fileCache.value && fileCache.value[newName] == before[oldName])
        && (r.Ok? && oldName != newName ==> fileCache == Some(Renamed(before, oldName, newName)))
        && (r.Err? ==> fileCache.None?)
    {
      if fileCache.None? || oldName !in fileCache.value {
        ResetFileCache(nodes);
      }
      if oldName !in fileCache.value {
        fileCache := None;
        return Err(FileMissing);
      }
      if oldName == newName {
        return Ok(());
      }
      r := RenameAsWritten(oldName, newName, nodes, refused);
    }
  }

  /** Renaming a file onto its own name, as written, deletes it and fails,
      even when the client accepts every call. */
  method RenameOntoItself(b: MegaBackend, name: string, nodes: seq<Node>) returns (r: Result<(), Failure>)
    requires b.Valid() && b.fileCache.Some? && name in b.fileCache.value
    modifies b`fileCache, b`calls
    ensures r == Err(KeyNotFound) && b.fileCache.None?
    ensures b.calls == old(b.calls) + DeleteCalls(old(b.fileCache).value[name])
  {
    r := b.RenameAsWritten(name, name, nodes, {});
  }
}
