/** The part of the local database that one compaction pass reads and
    writes, as plain values: the remote-volume rows, the volume each block
    lives in, and the links between index volumes and block volumes. The
    SQL behind the queries is not part of this model; each query becomes a
    function whose contract states what the pass relies on. */
module CompactStore {
  import opened Common

  datatype VolumeType = Blocks | Index | Files

  /** The remote-volume lifecycle. */
  datatype VolumeState = Temporary | Uploading | Uploaded | Verified | Deleting | Deleted

  /** A RemoteVolume row. A size of -1 stands for "not known yet". */
  datatype Volume = Volume(name: string, vtype: VolumeType, state: VolumeState, size: int)

  /** Blocks are identified by hash and size. */
  datatype BlockKey = BlockKey(hash: string, size: nat)

  datatype IndexLink = IndexLink(index: string, blockVolume: string)

  /** Volume rows in registration order, the owning volume of each block,
      and the index-volume links. */
  datatype Db = Db(volumes: seq<Volume>, owner: map<BlockKey, string>, links: seq<IndexLink>)

  datatype Failure =
    | DatabaseMissing
    | RemoteListMismatch
    | DownloadFailed(name: string)
    | SizeMismatch(key: BlockKey, read: int)
    | BlockNotFound(key: BlockKey)

  predicate Absent(vols: seq<Volume>, name: string) {
    forall v :: v in vols ==> v.name != name
  }

  predicate NamesDistinct(vols: seq<Volume>) {
    forall i, j :: 0 <= i < j < |vols| ==> vols[i].name != vols[j].name
  }

  /** The state recorded for `name`, looked up by the first row of that name. */
  function StateOf(vols: seq<Volume>, name: string): (r: Option<VolumeState>)
    ensures r.None? <==> Absent(vols, name)
  {
    if vols == [] then None
    else if vols[0].name == name then Some(vols[0].state)
    else
      assert forall v :: v in vols ==> v == vols[0] || v in vols[1..];
      StateOf(vols[1..], name)
  }

  /** With distinct names, every row's own state is the state of its name. */
  lemma {:induction false} StateOfRow(vols: seq<Volume>, i: nat)
    requires NamesDistinct(vols) && i < |vols|
    ensures StateOf(vols, vols[i].name) == Some(vols[i].state)
  {
    if i > 0 {
      assert NamesDistinct(vols[1..]) by {
        forall a, b | 0 <= a < b < |vols[1..]|
          ensures vols[1..][a].name != vols[1..][b].name
        {
          assert vols[1..][a] == vols[a + 1] && vols[1..][b] == vols[b + 1];
        }
      }
      StateOfRow(vols[1..], i - 1);
      assert vols[1..][i - 1] == vols[i];
    }
  }

  /** Appending a row never changes the state of a name already present. */
  lemma {:induction false} StateOfAppend(vols: seq<Volume>, v: Volume, n: string)
    ensures StateOf(vols + [v], n) ==
      if !Absent(vols, n) then StateOf(vols, n)
      else if n == v.name then Some(v.state)
      else None
  {
    if vols == [] {
      assert vols + [v] == [v];
    } else {
      assert (vols + [v])[1..] == vols[1..] + [v];
      assert (vols + [v])[0] == vols[0];
      StateOfAppend(vols[1..], v, n);
    }
  }

  /** The row selections the local database makes. */
  datatype Criterion =
    | IsListed
    | NameIn(names: seq<string>)
    | NameIsNot(name: string)
    | HoldsNoLive(owner: map<BlockKey, string>, live: set<BlockKey>)

  predicate Keeps(c: Criterion, v: Volume) {
    match c
    case IsListed => v.state == Uploaded || v.state == Verified
    case NameIn(names) => v.name in names
    case NameIsNot(name) => v.name != name
    case HoldsNoLive(owner, live) => !OwnsLive(owner, live, v.name)
  }

  /** Keeps the rows that satisfy `keep`, in order. */
  function Filter(vols: seq<Volume>, keep: Criterion): (r: seq<Volume>)
    ensures forall v :: v in r <==> v in vols && Keeps(keep, v)
    ensures NamesDistinct(vols) ==> NamesDistinct(r)
  {
    if vols == [] then []
    else
      var rest := Filter(vols[1..], keep);
      assert forall v :: v in vols <==> v == vols[0] || v in vols[1..];
      if Keeps(keep, vols[0]) then
        assert NamesDistinct(vols) ==> Absent(vols[1..], vols[0].name) by {
          if NamesDistinct(vols) {
            forall v | v in vols[1..] ensures v.name != vols[0].name {
              var k :| 0 <= k < |vols[1..]| && vols[1..][k] == v;
              assert vols[k + 1] == v;
            }
          }
        }
        assert NamesDistinct(vols) ==> NamesDistinct(vols[1..]) by {
          if NamesDistinct(vols) {
            forall a, b | 0 <= a < b < |vols[1..]|
              ensures vols[1..][a].name != vols[1..][b].name
            {
              assert vols[1..][a] == vols[a + 1] && vols[1..][b] == vols[b + 1];
            }
          }
        }
        assert NamesDistinct(vols) ==> NamesDistinct([vols[0]] + rest) by {
          if NamesDistinct(vols) {
            var s := [vols[0]] + rest;
            forall a, b | 0 <= a < b < |s| ensures s[a].name != s[b].name {
              assert s[b] == rest[b - 1] && s[b] in rest;
              if a > 0 { assert s[a] == rest[a - 1]; }
            }
          }
        }
        [vols[0]] + rest
      else
        assert NamesDistinct(vols) ==> NamesDistinct(vols[1..]) by {
          if NamesDistinct(vols) {
            forall a, b | 0 <= a < b < |vols[1..]|
              ensures vols[1..][a].name != vols[1..][b].name
            {
              assert vols[1..][a] == vols[a + 1] && vols[1..][b] == vols[b + 1];
            }
          }
        }
        rest
  }

  /** The volumes the pass may delete or download: only those whose state
      is Uploaded or Verified. */
  function RemoteList(vols: seq<Volume>): (r: seq<Volume>)
    ensures forall v :: v in r <==> v in vols && (v.state == Uploaded || v.state == Verified)
    ensures NamesDistinct(vols) ==> NamesDistinct(r)
  {
    Filter(vols, IsListed)
  }

  /** The rows of `vols` whose name the report lists. */
  function Selected(vols: seq<Volume>, names: seq<string>): (r: seq<Volume>)
    ensures forall v :: v in r <==> v in vols && v.name in names
    ensures NamesDistinct(vols) ==> NamesDistinct(r)
  {
    Filter(vols, NameIn(names))
  }

  /** Whether a block that is still in use lives in the volume `name`. */
  predicate OwnsLive(owner: map<BlockKey, string>, live: set<BlockKey>, name: string) {
    exists b :: b in owner && b in live && owner[b] == name
  }

  /** The database's choice of which candidates may be marked Deleting:
      exactly those that no longer hold a block still in use. */
  function GetDeletableVolumes(d: Db, live: set<BlockKey>, candidates: seq<Volume>): (r: seq<Volume>)
    ensures forall v :: v in r <==> v in candidates && !OwnsLive(d.owner, live, v.name)
    ensures NamesDistinct(candidates) ==> NamesDistinct(r)
  {
    Filter(candidates, HoldsNoLive(d.owner, live))
  }

  /** UpdateRemoteVolume: every row named `name` takes the new state and
      size; all other rows are unchanged. */
  function UpdateRemoteVolume(vols: seq<Volume>, name: string, state: VolumeState, size: int): (r: seq<Volume>)
    ensures |r| == |vols|
    ensures forall i :: 0 <= i < |r| ==> r[i].name == vols[i].name && r[i].vtype == vols[i].vtype
    ensures forall i :: 0 <= i < |r| && vols[i].name != name ==> r[i] == vols[i]
    ensures forall i :: 0 <= i < |r| && vols[i].name == name ==> r[i].state == state && r[i].size == size
  {
    if vols == [] then []
    else
      var head := if vols[0].name == name then vols[0].(state := state, size := size) else vols[0];
      var rest := UpdateRemoteVolume(vols[1..], name, state, size);
      assert forall i :: 1 <= i <= |rest| ==> ([head] + rest)[i] == rest[i - 1] && vols[i] == vols[1..][i - 1];
      [head] + rest
  }

  /** After an update, `name` has the new state (if it has a row at all)
      and every other name keeps its state. */
  lemma {:induction false} StateOfUpdate(vols: seq<Volume>, name: string, state: VolumeState, size: int, n: string)
    ensures StateOf(UpdateRemoteVolume(vols, name, state, size), n) ==
      if n == name && !Absent(vols, n) then Some(state) else StateOf(vols, n)
  {
    if vols != [] {
      var r := UpdateRemoteVolume(vols, name, state, size);
      assert r[1..] == UpdateRemoteVolume(vols[1..], name, state, size);
      AbsentCons(vols, n);
      StateOfUpdate(vols[1..], name, state, size, n);
    }
  }

  /** A name is absent from rows exactly when it is not the first row's
      and is absent from the rest. */
  lemma AbsentCons(vols: seq<Volume>, n: string)
    requires vols != []
    ensures Absent(vols, n) <==> vols[0].name != n && Absent(vols[1..], n)
  {
    assert forall v :: v in vols <==> v == vols[0] || v in vols[1..];
  }

  lemma UpdateKeepsDistinct(vols: seq<Volume>, name: string, state: VolumeState, size: int)
    requires NamesDistinct(vols)
    ensures NamesDistinct(UpdateRemoteVolume(vols, name, state, size))
  {
  }

  lemma UpdateKeepsAbsent(vols: seq<Volume>, name: string, state: VolumeState, size: int, n: string)
    requires Absent(vols, n)
    ensures Absent(UpdateRemoteVolume(vols, name, state, size), n)
  {
    var r := UpdateRemoteVolume(vols, name, state, size);
    forall v | v in r ensures v.name != n {
      var i :| 0 <= i < |r| && r[i] == v;
      assert vols[i] in vols;
    }
  }

  /** RemoveRemoteVolume: every row named `name` is dropped. */
  function RemoveRemoteVolume(vols: seq<Volume>, name: string): (r: seq<Volume>)
    ensures forall v :: v in r <==> v in vols && v.name != name
    ensures NamesDistinct(vols) ==> NamesDistinct(r)
  {
    Filter(vols, NameIsNot(name))
  }

  /** After a removal `name` has no row and every other name keeps its state. */
  lemma {:induction false} StateOfRemove(vols: seq<Volume>, name: string, n: string)
    ensures StateOf(RemoveRemoteVolume(vols, name), n) == if n == name then None else StateOf(vols, n)
    decreases |vols|
  {
    if vols != [] {
      var keep := NameIsNot(name);
      assert RemoveRemoteVolume(vols, name) == Filter(vols, keep);
      assert RemoveRemoteVolume(vols[1..], name) == Filter(vols[1..], keep);
      StateOfRemove(vols[1..], name, n);
      if Keeps(keep, vols[0]) {
        var r := Filter(vols, keep);
        assert r == [vols[0]] + Filter(vols[1..], keep);
        assert r[0] == vols[0] && r[1..] == Filter(vols[1..], keep);
      }
    }
  }

  /** MoveBlockToNewVolume: the block now lives in `target`; a block the
      database does not know is reported as BlockNotFound. */
  function MoveBlock(d: Db, key: BlockKey, target: string): (r: Result<Db, Failure>)
    ensures r.Err? <==> key !in d.owner
    ensures r.Err? ==> r.error == BlockNotFound(key)
    ensures r.Ok? ==> r.value.volumes == d.volumes && r.value.links == d.links
    ensures r.Ok? ==> r.value.owner.Keys == d.owner.Keys && r.value.owner[key] == target
    ensures r.Ok? ==> forall b :: b in d.owner && b != key ==> r.value.owner[b] == d.owner[b]
  {
    if key in d.owner then Ok(d.(owner := d.owner[key := target])) else Err(BlockNotFound(key))
  }

  /** Every block still in use lives in a volume that is not being deleted. */
  predicate NoOrphans(d: Db, live: set<BlockKey>) {
    forall b :: b in d.owner && b in live ==> StateOf(d.volumes, d.owner[b]) != Some(Deleting)
  }

  /** Marking as Deleting a volume that holds no block in use keeps every
      block in use away from Deleting volumes. */
  lemma MarkKeepsNoOrphans(d: Db, live: set<BlockKey>, name: string, size: int)
    requires NoOrphans(d, live) && !OwnsLive(d.owner, live, name)
    ensures NoOrphans(d.(volumes := UpdateRemoteVolume(d.volumes, name, Deleting, size)), live)
  {
    forall b | b in d.owner && b in live
      ensures StateOf(UpdateRemoteVolume(d.volumes, name, Deleting, size), d.owner[b]) != Some(Deleting)
    {
      StateOfUpdate(d.volumes, name, Deleting, size, d.owner[b]);
    }
  }

  /** Re-pointing a block at a volume that is not being deleted keeps the
      invariant. */
  lemma MoveKeepsNoOrphans(d: Db, live: set<BlockKey>, key: BlockKey, target: string)
    requires NoOrphans(d, live) && key in d.owner && StateOf(d.volumes, target) != Some(Deleting)
    ensures NoOrphans(MoveBlock(d, key, target).value, live)
  {
  }

  /** Registering a Temporary volume keeps the invariant. */
  lemma RegisterKeepsNoOrphans(d: Db, live: set<BlockKey>, v: Volume)
    requires NoOrphans(d, live) && v.state == Temporary
    ensures NoOrphans(d.(volumes := d.volumes + [v]), live)
  {
    forall b | b in d.owner && b in live ensures StateOf(d.volumes + [v], d.owner[b]) != Some(Deleting) {
      StateOfAppend(d.volumes, v, d.owner[b]);
    }
  }

  /** Deregistering a volume keeps the invariant. */
  lemma RemoveKeepsNoOrphans(d: Db, live: set<BlockKey>, name: string)
    requires NoOrphans(d, live)
    ensures NoOrphans(d.(volumes := RemoveRemoteVolume(d.volumes, name)), live)
  {
    forall b | b in d.owner && b in live
      ensures StateOf(RemoveRemoteVolume(d.volumes, name), d.owner[b]) != Some(Deleting)
    {
      StateOfRemove(d.volumes, name, d.owner[b]);
    }
  }

  /** `o1` differs from `o0` only in blocks that now live in a volume
      absent from `vols0`: the only kind of change a compaction pass makes
      to the block owners. */
  predicate MovedIntoNew(o0: map<BlockKey, string>, o1: map<BlockKey, string>, vols0: seq<Volume>) {
    o1.Keys == o0.Keys && forall b :: b in o0 ==> o1[b] == o0[b] || Absent(vols0, o1[b])
  }

  /** Moving one known block into a volume absent from `vols0` is such a change. */
  lemma MoveIsMovedIntoNew(d: Db, key: BlockKey, target: string, vols0: seq<Volume>)
    requires key in d.owner && Absent(vols0, target)
    ensures MovedIntoNew(d.owner, MoveBlock(d, key, target).value.owner, vols0)
  {
  }

  lemma MovedIntoNewTrans(o0: map<BlockKey, string>, o1: map<BlockKey, string>, o2: map<BlockKey, string>,
                          vols0: seq<Volume>)
    requires MovedIntoNew(o0, o1, vols0) && MovedIntoNew(o1, o2, vols0)
    ensures MovedIntoNew(o0, o2, vols0)
  {
  }

  /** A volume registered before the pass that holds no block in use keeps
      holding none while blocks only move into new volumes. */
  lemma MovedKeepsFree(o0: map<BlockKey, string>, o1: map<BlockKey, string>, vols0: seq<Volume>,
                                          live: set<BlockKey>, name: string)
    requires MovedIntoNew(o0, o1, vols0) && !Absent(vols0, name) && !OwnsLive(o0, live, name)
    ensures !OwnsLive(o1, live, name)
  {
    forall b | b in o1 && b in live ensures o1[b] != name {
      assert b in o0 && o0[b] != name by {
        assert !Absent(vols0, name);
      }
    }
  }
}
