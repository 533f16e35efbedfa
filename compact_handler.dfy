/** One compaction pass: Run, DoCompact, DoDelete, FinishVolumeAndUpload and
    PerformDelete of the compact handler.

    The local database is the value `db` (the open transaction) beside
    `committed` (what the last commit made durable). The backend, the
    volume writers and the downloader are replaced by the ghost history
    `log` of the calls made to them, checked step by step by `Replay`; the
    report, the "block still in use" query, the downloaded volume contents
    and the stop signal are inputs. */
module Compaction {
  import opened Common
  import opened CompactStore
  import opened CompactAudit

  /** The compaction report: whether to reclaim or compact, and which
      volumes are fully deletable or worth compacting. */
  datatype Report = Report(
    shouldReclaim: bool,
    shouldCompact: bool,
    deleteableVolumes: seq<string>,
    compactableVolumes: seq<string>)

  /** A block as the volume reader yields it: its key as indexed, and the
      size ReadBlock actually returned. */
  datatype StoredBlock = StoredBlock(key: BlockKey, readSize: int)

  /** An open volume writer and the blocks added to it so far. */
  datatype Writer = Writer(name: string, blocks: seq<BlockKey>)

  /** The open block volume, its index volume unless the index policy is
      None, and the serial its name was drawn from. */
  datatype OpenVolume = OpenVolume(vol: Writer, index: Option<Writer>, serial: nat)

  function IndexName(index: Option<Writer>): Option<string> {
    if index.Some? then Some(index.value.name) else None
  }

  /** The keys of the blocks a volume reader yields. */
  function KeysOf(blocks: seq<StoredBlock>): set<BlockKey> {
    if blocks == [] then {} else KeysOf(blocks[..|blocks| - 1]) + {blocks[|blocks| - 1].key}
  }

  /** The keys of the blocks of every volume in `vs` whose contents were downloaded. */
  function ReadKeys(vs: seq<Volume>, contents: map<string, seq<StoredBlock>>): set<BlockKey> {
    if vs == [] then {}
    else
      var v := vs[|vs| - 1];
      ReadKeys(vs[..|vs| - 1], contents) + (if v.name in contents then KeysOf(contents[v.name]) else {})
  }

  /** The open volume after AddBlock: the key is added to the block volume
      and to its index volume alike. */
  function Appended(w: OpenVolume, key: BlockKey): (r: OpenVolume)
    ensures r.vol.name == w.vol.name && r.serial == w.serial && IndexName(r.index) == IndexName(w.index)
    ensures r.vol.blocks == w.vol.blocks + [key]
    ensures r.index.Some? ==> r.index.value.blocks == w.index.value.blocks + [key]
  {
    w.(vol := w.vol.(blocks := w.vol.blocks + [key]),
       index := if w.index.Some? then Some(w.index.value.(blocks := w.index.value.blocks + [key])) else None)
  }

  /** What a stretch of a pass did, measured against the volumes `vols0`
      the pass started from, from owners `o0`, deletions `del0` and uploads
      `up0` to `o1`, `del1` and `up1`: blocks only moved into new volumes;
      every volume it deleted is one of `cands`, was registered before the
      pass and holds no block still in use; every volume it uploaded is new. */
  ghost predicate Accounted(live: set<BlockKey>, vols0: seq<Volume>, cands: seq<Volume>,
                            o0: map<BlockKey, string>, o1: map<BlockKey, string>,
                            del0: seq<Transfer>, del1: seq<Transfer>, up0: seq<Transfer>, up1: seq<Transfer>)
  {
    MovedIntoNew(o0, o1, vols0)
    && del0 <= del1 && up0 <= up1
    && (forall t :: t in del1[|del0|..] ==>
          t in Transfers(cands) && !Absent(vols0, t.name) && !OwnsLive(o1, live, t.name))
    && (forall t :: t in up1[|up0|..] ==> Absent(vols0, t.name))
  }

  /** A stretch of a pass that moved, deleted and uploaded nothing. */
  lemma AccountedNothing(live: set<BlockKey>, vols0: seq<Volume>, cands: seq<Volume>,
                         o: map<BlockKey, string>, del: seq<Transfer>, up: seq<Transfer>)
    ensures Accounted(live, vols0, cands, o, o, del, del, up, up)
  {
    assert del[|del|..] == [] && up[|up|..] == [];
  }

  /** A whole pass, from no deletions and no uploads, in plain terms:
      blocks moved only into new volumes, every deleted volume is a
      candidate registered before the pass that holds no block in use,
      and every uploaded volume is new. */
  lemma AccountedPass(live: set<BlockKey>, vols0: seq<Volume>, cands: seq<Volume>,
                      o0: map<BlockKey, string>, o1: map<BlockKey, string>, del: seq<Transfer>, up: seq<Transfer>)
    requires Accounted(live, vols0, cands, o0, o1, [], del, [], up)
    ensures MovedIntoNew(o0, o1, vols0)
    ensures forall t :: t in del ==> t in Transfers(cands) && !Absent(vols0, t.name) && !OwnsLive(o1, live, t.name)
    ensures forall t :: t in up ==> Absent(vols0, t.name)
  {
    assert del[0..] == del;
    assert up[0..] == up;
  }

  /** Two stretches of a pass make one, over the wider candidate list. */
  lemma AccountedTrans(live: set<BlockKey>, vols0: seq<Volume>, cands: seq<Volume>, cands': seq<Volume>,
                       o0: map<BlockKey, string>, o1: map<BlockKey, string>, o2: map<BlockKey, string>,
                       del0: seq<Transfer>, del1: seq<Transfer>, del2: seq<Transfer>,
                       up0: seq<Transfer>, up1: seq<Transfer>, up2: seq<Transfer>)
    requires Accounted(live, vols0, cands, o0, o1, del0, del1, up0, up1)
    requires Accounted(live, vols0, cands', o1, o2, del1, del2, up1, up2)
    requires forall v :: v in cands' ==> v in cands
    ensures Accounted(live, vols0, cands, o0, o2, del0, del2, up0, up2)
  {
    MovedIntoNewTrans(o0, o1, o2, vols0);
    TransfersMono(cands', cands);
    assert del2[|del0|..] == del1[|del0|..] + del2[|del1|..];
    assert up2[|up0|..] == up1[|up0|..] + up2[|up1|..];
    forall t | t in del1[|del0|..] ensures !OwnsLive(o2, live, t.name) {
      MovedKeepsFree(o1, o2, vols0, live, t.name);
    }
  }

  /** DoDelete of candidates registered before the pass is accounted for. */
  lemma AccountedDelete(live: set<BlockKey>, vols0: seq<Volume>, cands: seq<Volume>, d: Db,
                        vs: seq<Volume>, del: seq<Transfer>, up: seq<Transfer>)
    requires forall v :: v in vs ==> v in cands && v in vols0
    ensures Accounted(live, vols0, cands, d.owner, d.owner,
                      del, del + Transfers(GetDeletableVolumes(d, live, vs)), up, up)
  {
    var marks := GetDeletableVolumes(d, live, vs);
    var del' := del + Transfers(marks);
    assert del'[|del|..] == Transfers(marks);
    TransfersMember(marks);
    TransfersMono(marks, cands);
    forall t | t in Transfers(marks) ensures !Absent(vols0, t.name) && !OwnsLive(d.owner, live, t.name) {
      var v :| v in marks && t == Transfer(v.name, v.size);
      assert v in vols0;
    }
  }

  /** The upload of new volumes followed by DoDelete of the candidates
      is accounted for. */
  lemma AccountedMoveless(live: set<BlockKey>, vols0: seq<Volume>, cands: seq<Volume>, d: Db,
                          del0: seq<Transfer>, up0: seq<Transfer>, ups: seq<Transfer>)
    requires forall v :: v in cands ==> v in vols0
    requires forall t :: t in ups ==> Absent(vols0, t.name)
    ensures Accounted(live, vols0, cands, d.owner, d.owner,
                      del0, del0 + Transfers(GetDeletableVolumes(d, live, cands)), up0, up0 + ups)
  {
    AccountedDelete(live, vols0, cands, d, cands, del0, up0);
    assert (up0 + ups)[|up0|..] == ups;
  }

  /** A block moved into a new volume, followed (when `rolled`) by the
      upload of new volumes and DoDelete of the candidates, is accounted for. */
  lemma AccountedMove(live: set<BlockKey>, vols0: seq<Volume>, cands: seq<Volume>, o0: map<BlockKey, string>,
                      key: BlockKey, target: string, d1: Db, del0: seq<Transfer>, up0: seq<Transfer>,
                      ups: seq<Transfer>, rolled: bool)
    requires key in o0 && Absent(vols0, target) && d1.owner == o0[key := target]
    requires forall v :: v in cands ==> v in vols0
    requires forall t :: t in ups ==> Absent(vols0, t.name)
    ensures Accounted(live, vols0, cands, o0, d1.owner,
                      del0, del0 + (if rolled then Transfers(GetDeletableVolumes(d1, live, cands)) else []),
                      up0, up0 + ups)
  {
    assert MovedIntoNew(o0, d1.owner, vols0);
    assert (up0 + ups)[|up0|..] == ups;
    if rolled {
      AccountedDelete(live, vols0, cands, d1, cands, del0, up0);
    } else {
      assert del0 + [] == del0 && del0[|del0|..] == [];
    }
  }

  /** What CopyLiveBlocks has established about the first `j` blocks of a
      volume: each one in use was read with its indexed size and lives in
      a new volume, and if there was one (or the open volume already held
      blocks) the open volume holds a block or a volume was uploaded. */
  ghost predicate CopiedBlocks(live: set<BlockKey>, vols0: seq<Volume>, blocks: seq<StoredBlock>, j: nat,
                               owner: map<BlockKey, string>, count0: nat, count: nat, up0: nat, up: nat)
  {
    j <= |blocks|
    && (forall k :: 0 <= k < j && blocks[k].key in live ==> blocks[k].readSize == blocks[k].key.size)
    && (forall b :: b in live && b in KeysOf(blocks[..j]) ==> b in owner && Absent(vols0, owner[b]))
    && (count0 > 0 || live * KeysOf(blocks[..j]) != {} ==> count > 0 || up > up0)
  }

  /** Copying block `j` keeps CopiedBlocks when blocks only move into new
      volumes: a block not in use leaves the count alone, a block in use
      ends up in a new volume that is still open or was uploaded. */
  lemma {:induction false} CopiedStep(live: set<BlockKey>, vols0: seq<Volume>, blocks: seq<StoredBlock>, j: nat,
                                      o1: map<BlockKey, string>, o2: map<BlockKey, string>,
                                      count0: nat, count: nat, count': nat, up0: nat, up1: nat, up2: nat)
    requires j < |blocks| && CopiedBlocks(live, vols0, blocks, j, o1, count0, count, up0, up1)
    requires MovedIntoNew(o1, o2, vols0) && up0 <= up1 <= up2
    requires blocks[j].key !in live ==> count' == count
    requires blocks[j].key in live ==>
      blocks[j].readSize == blocks[j].key.size && blocks[j].key in o2 && Absent(vols0, o2[blocks[j].key])
      && (count' > 0 || up2 > up1)
    ensures CopiedBlocks(live, vols0, blocks, j + 1, o2, count0, count', up0, up2)
  {
    assert blocks[..j + 1][..j] == blocks[..j];
    assert KeysOf(blocks[..j + 1]) == KeysOf(blocks[..j]) + {blocks[j].key};
    OwnedStep(live, vols0, KeysOf(blocks[..j]), {blocks[j].key}, o1, o2);
    if blocks[j].key !in live {
      assert live * KeysOf(blocks[..j + 1]) == live * KeysOf(blocks[..j]);
    }
  }

  /** Where a stretch of a pass started: the block owners, the deletions
      and uploads so far, and the committed database. */
  datatype Progress = Progress(owner: map<BlockKey, string>, deleted: seq<Transfer>,
                               uploaded: seq<Transfer>, committed: Db)

  /** What CompactVolumes has done after the first `i` volumes of
      `toDownload`, from where the loop started (`start`, `down0`) to the
      owners, deletions, uploads and downloads now: the volumes read since
      the last rollover are the last ones read, every volume so far was
      downloaded, and every block in use read so far lives in a new volume. */
  ghost predicate DownloadedUpTo(live: set<BlockKey>, vols0: seq<Volume>, toDownload: seq<Volume>,
                                 contents: map<string, seq<StoredBlock>>, i: nat, count: nat,
                                 deleteable: seq<Volume>, o0: map<BlockKey, string>, del0: seq<Transfer>,
                                 up0: seq<Transfer>, down0: seq<Transfer>,
                                 owner: map<BlockKey, string>, del: seq<Transfer>, up: seq<Transfer>,
                                 down: seq<Transfer>)
  {
    NamesDistinct(toDownload) && (forall v :: v in toDownload ==> v in vols0)
    && Accounted(live, vols0, toDownload, o0, owner, del0, del, up0, up)
    && ReadUpTo(live, vols0, toDownload, contents, i, count, deleteable, up0, down0, owner, up, down)
  }

  /** The part of DownloadedUpTo about the first `i` volumes read: the
      downloads recorded, the volumes read since the last rollover, and
      where their blocks in use now live. */
  ghost predicate ReadUpTo(live: set<BlockKey>, vols0: seq<Volume>, toDownload: seq<Volume>,
                           contents: map<string, seq<StoredBlock>>, i: nat, count: nat,
                           deleteable: seq<Volume>, up0: seq<Transfer>, down0: seq<Transfer>,
                           owner: map<BlockKey, string>, up: seq<Transfer>, down: seq<Transfer>)
  {
    i <= |toDownload| && |up0| <= |up|
    && |deleteable| <= i && (forall k :: 0 <= k < |deleteable| ==> deleteable[k] == toDownload[i - |deleteable| + k])
    && (forall j :: 0 <= j < i ==> toDownload[j].name in contents)
    && down == down0 + Transfers(toDownload[..i])
    && (forall b :: b in live && b in ReadKeys(toDownload[..i], contents) ==> b in owner && Absent(vols0, owner[b]))
    && (live * ReadKeys(toDownload[..i], contents) != {} ==> count > 0 || |up| > |up0|)
  }

  lemma DownloadedNothing(live: set<BlockKey>, vols0: seq<Volume>, toDownload: seq<Volume>,
                          contents: map<string, seq<StoredBlock>>, o0: map<BlockKey, string>,
                          del0: seq<Transfer>, up0: seq<Transfer>, down0: seq<Transfer>)
    requires NamesDistinct(toDownload) && forall v :: v in toDownload ==> v in vols0
    ensures DownloadedUpTo(live, vols0, toDownload, contents, 0, 0, [], o0, del0, up0, down0, o0, del0, up0, down0)
  {
    AccountedNothing(live, vols0, toDownload, o0, del0, up0);
    assert toDownload[..0] == [];
  }

  /** The volumes read since the last rollover come before volume `i`, so
      none of them shares its name. */
  lemma ReadBeforeDistinct(toDownload: seq<Volume>, i: nat, deleteable: seq<Volume>, vols0: seq<Volume>)
    requires i < |toDownload| && NamesDistinct(toDownload)
    requires |deleteable| <= i && forall k :: 0 <= k < |deleteable| ==> deleteable[k] == toDownload[i - |deleteable| + k]
    requires forall v :: v in toDownload ==> v in vols0
    ensures forall v :: v in deleteable ==> v.name != toDownload[i].name && v in toDownload && v in vols0
  {
    forall v | v in deleteable ensures v.name != toDownload[i].name && v in toDownload {
      var k :| 0 <= k < |deleteable| && deleteable[k] == v;
      assert toDownload[i - |deleteable| + k] == v;
    }
  }

  /** One more volume downloaded and read keeps DownloadedUpTo. */
  lemma DownloadedStep(live: set<BlockKey>, vols0: seq<Volume>, toDownload: seq<Volume>,
                       contents: map<string, seq<StoredBlock>>, i: nat, count: nat, deleteable: seq<Volume>,
                       count': nat, deleteable': seq<Volume>,
                       o0: map<BlockKey, string>, del0: seq<Transfer>, up0: seq<Transfer>, down0: seq<Transfer>,
                       o1: map<BlockKey, string>, del1: seq<Transfer>, up1: seq<Transfer>, down1: seq<Transfer>,
                       o2: map<BlockKey, string>, del2: seq<Transfer>, up2: seq<Transfer>, down2: seq<Transfer>)
    requires i < |toDownload| && toDownload[i].name in contents
    requires DownloadedUpTo(live, vols0, toDownload, contents, i, count, deleteable, o0, del0, up0, down0,
                            o1, del1, up1, down1)
    requires Accounted(live, vols0, toDownload, o0, o2, del0, del2, up0, up2)
    requires MovedIntoNew(o1, o2, vols0) && up1 <= up2
    requires down2 == down1 + [Transfer(toDownload[i].name, toDownload[i].size)]
    requires deleteable' == deleteable + [toDownload[i]] || deleteable' == [toDownload[i]]
    requires forall b :: b in live && b in KeysOf(contents[toDownload[i].name]) ==> b in o2 && Absent(vols0, o2[b])
    requires count > 0 || live * KeysOf(contents[toDownload[i].name]) != {} ==> count' > 0 || |up2| > |up1|
    ensures DownloadedUpTo(live, vols0, toDownload, contents, i + 1, count', deleteable', o0, del0, up0, down0,
                           o2, del2, up2, down2)
  {
    ReadUpToStep(live, vols0, toDownload, contents, i, count, deleteable, count', deleteable', up0, down0,
                 o1, up1, down1, o2, up2, down2);
  }

  lemma ReadUpToStep(live: set<BlockKey>, vols0: seq<Volume>, toDownload: seq<Volume>,
                     contents: map<string, seq<StoredBlock>>, i: nat, count: nat, deleteable: seq<Volume>,
                     count': nat, deleteable': seq<Volume>, up0: seq<Transfer>, down0: seq<Transfer>,
                     o1: map<BlockKey, string>, up1: seq<Transfer>, down1: seq<Transfer>,
                     o2: map<BlockKey, string>, up2: seq<Transfer>, down2: seq<Transfer>)
    requires i < |toDownload| && toDownload[i].name in contents
    requires ReadUpTo(live, vols0, toDownload, contents, i, count, deleteable, up0, down0, o1, up1, down1)
    requires MovedIntoNew(o1, o2, vols0) && up1 <= up2
    requires down2 == down1 + [Transfer(toDownload[i].name, toDownload[i].size)]
    requires deleteable' == deleteable + [toDownload[i]] || deleteable' == [toDownload[i]]
    requires forall b :: b in live && b in KeysOf(contents[toDownload[i].name]) ==> b in o2 && Absent(vols0, o2[b])
    requires count > 0 || live * KeysOf(contents[toDownload[i].name]) != {} ==> count' > 0 || |up2| > |up1|
    ensures ReadUpTo(live, vols0, toDownload, contents, i + 1, count', deleteable', up0, down0, o2, up2, down2)
  {
    PrefixSnoc(toDownload, i, contents);
    ReadSinceRolloverStep(toDownload, i, deleteable, deleteable');
    OwnedStep(live, vols0, ReadKeys(toDownload[..i], contents), KeysOf(contents[toDownload[i].name]), o1, o2);
  }

  /** The volumes read since the last rollover stay the last ones read. */
  lemma ReadSinceRolloverStep(vs: seq<Volume>, i: nat, d: seq<Volume>, d': seq<Volume>)
    requires i < |vs| && |d| <= i && forall k :: 0 <= k < |d| ==> d[k] == vs[i - |d| + k]
    requires d' == d + [vs[i]] || d' == [vs[i]]
    ensures |d'| <= i + 1 && forall k :: 0 <= k < |d'| ==> d'[k] == vs[i + 1 - |d'| + k]
  {
  }

  /** Blocks in use owned by new volumes stay so when blocks only move
      into new volumes. */
  lemma OwnedStep(live: set<BlockKey>, vols0: seq<Volume>, k0: set<BlockKey>, k1: set<BlockKey>,
                  o1: map<BlockKey, string>, o2: map<BlockKey, string>)
    requires forall b :: b in live && b in k0 ==> b in o1 && Absent(vols0, o1[b])
    requires forall b :: b in live && b in k1 ==> b in o2 && Absent(vols0, o2[b])
    requires MovedIntoNew(o1, o2, vols0)
    ensures forall b :: b in live && b in k0 + k1 ==> b in o2 && Absent(vols0, o2[b])
  {
  }

  /** Transfers and ReadKeys of one more volume of `vs`. */
  lemma PrefixSnoc(vs: seq<Volume>, i: nat, contents: map<string, seq<StoredBlock>>)
    requires i < |vs| && vs[i].name in contents
    ensures Transfers(vs[..i + 1]) == Transfers(vs[..i]) + [Transfer(vs[i].name, vs[i].size)]
    ensures ReadKeys(vs[..i + 1], contents) == ReadKeys(vs[..i], contents) + KeysOf(contents[vs[i].name])
  {
    assert vs[..i + 1][..i] == vs[..i];
  }

  /** At the end of the loop, DownloadedUpTo speaks of all of `toDownload`. */
  lemma DownloadedAll(live: set<BlockKey>, vols0: seq<Volume>, toDownload: seq<Volume>,
                      contents: map<string, seq<StoredBlock>>, count: nat, deleteable: seq<Volume>,
                      o0: map<BlockKey, string>, del0: seq<Transfer>, up0: seq<Transfer>, down0: seq<Transfer>,
                      owner: map<BlockKey, string>, del: seq<Transfer>, up: seq<Transfer>, down: seq<Transfer>)
    requires DownloadedUpTo(live, vols0, toDownload, contents, |toDownload|, count, deleteable, o0, del0, up0, down0,
                            owner, del, up, down)
    ensures forall v :: v in toDownload ==> v.name in contents
    ensures down == down0 + Transfers(toDownload)
    ensures |deleteable| <= |toDownload| && deleteable == toDownload[|toDownload| - |deleteable|..]
    ensures forall v :: v in deleteable ==> v in toDownload
    ensures forall b :: b in live && b in ReadKeys(toDownload, contents) ==> b in owner && Absent(vols0, owner[b])
    ensures live * ReadKeys(toDownload, contents) != {} ==> count > 0 || |up| > |up0|
  {
    assert toDownload[..|toDownload|] == toDownload;
    assert deleteable == toDownload[|toDownload| - |deleteable|..];
    forall v | v in toDownload ensures v.name in contents {
      var j :| 0 <= j < |toDownload| && toDownload[j] == v;
    }
  }

  class CompactHandler {
    const opts: Options
    /** The blocks the block-query helper reports as still in use. */
    const live: set<BlockKey>
    /** Fresh remote file names; the n-th new volume is called newName(n). */
    const newName: nat -> string
    /** Size of a finished index volume listing the given blocks. */
    const indexSize: seq<BlockKey> -> int

    var db: Db
    var committed: Db
    var serial: nat
    var uploadedVolumes: seq<Transfer>
    var deletedVolumes: seq<Transfer>
    var downloadedVolumes: seq<Transfer>
    var result: CompactResults
    ghost var log: seq<Event>
    ghost var audit: Audit
    ghost var stopped: bool

    /** A database state the pass may start from or return to: unique
        volume names, no block in use inside a Deleting volume, and no
        name the pass has yet to hand out. */
    ghost predicate Consistent(d: Db)
      reads this`serial
    {
      NamesDistinct(d.volumes)
      && NoOrphans(d, live)
      && forall k: nat :: k >= serial ==> Absent(d.volumes, newName(k))
    }

    ghost predicate Valid()
      reads this`db, this`committed, this`serial, this`log, this`audit
    {
      (forall i: nat, j: nat :: i != j ==> newName(i) != newName(j))
      && Consistent(db)
      && Consistent(committed)
      && Replay(log, opts) == Some(audit)
    }

    /** The last call of the history waited for the backend to finish. */
    ghost predicate EndedWaiting()
      reads this`log
    {
      |log| > 0 && log[|log| - 1] == WaitForComplete
    }

    constructor (opts: Options, live: set<BlockKey>, newName: nat -> string,
                 indexSize: seq<BlockKey> -> int, db: Db)
      requires forall i: nat, j: nat :: i != j ==> newName(i) != newName(j)
      requires forall k: nat :: Absent(db.volumes, newName(k))
      requires NamesDistinct(db.volumes) && NoOrphans(db, live)
      ensures Valid() && audit.reading == {}
      ensures this.opts == opts && this.live == live && this.newName == newName
      ensures this.db == db && committed == db && log == []
    {
      this.opts := opts;
      this.live := live;
      this.newName := newName;
      this.indexSize := indexSize;
      this.db := db;
      committed := db;
      serial := 0;
      uploadedVolumes := [];
      deletedVolumes := [];
      downloadedVolumes := [];
      result := CompactResults(0, 0, 0, 0, 0, 0, opts.dryRun);
      log := [];
      audit := Start;
      stopped := false;
    }

    /** Records one call in the history; only calls the rules allow. */
    ghost method Emit(e: Event)
      requires Valid() && Step(audit, e, opts).Some?
      modifies this`log, this`audit
      ensures Valid()
      ensures log == old(log) + [e] && audit == Step(old(audit), e, opts).value
    {
      ReplayAppend(log, e, opts);
      log := log + [e];
      audit := Step(audit, e, opts).value;
    }

    method CommitTransaction()
      requires Valid() && !opts.dryRun
      modifies this`committed, this`log, this`audit
      ensures Valid() && committed == db
      ensures log == old(log) + [Commit]
      ensures audit == old(audit).(pending := {}, ready := old(audit).ready + old(audit).pending)
    {
      committed := db;
      Emit(Commit);
    }

    method RollbackTransaction()
      requires Valid()
      modifies this`db, this`log, this`audit
      ensures Valid() && db == committed
      ensures log == old(log) + [Rollback]
      ensures audit == old(audit).(pending := {}, reading := {})
    {
      db := committed;
      Emit(Rollback);
    }

    /** RegisterRemoteVolume: a new Temporary row under the next fresh name. */
    method RegisterVolume(vtype: VolumeType) returns (name: string)
      requires Valid()
      modifies this`db, this`serial, this`log, this`audit
      ensures Valid() && audit == old(audit)
      ensures name == newName(old(serial)) && serial == old(serial) + 1
      ensures db == old(db).(volumes := old(db).volumes + [Volume(name, vtype, Temporary, -1)])
      ensures log == old(log) + [Register(name, vtype)]
    {
      name := newName(serial);
      var v := Volume(name, vtype, Temporary, -1);
      var vols := db.volumes + [v];
      RegisterKeepsNoOrphans(db, live, v);
      assert Absent(db.volumes, name);
      assert NamesDistinct(vols) by {
        forall i, j | 0 <= i < j < |vols| ensures vols[i].name != vols[j].name {
          if j == |db.volumes| {
            assert vols[i] == db.volumes[i] && db.volumes[i] in db.volumes;
          }
        }
      }
      forall k: nat | k >= serial + 1 ensures Absent(vols, newName(k)) {
        assert Absent(db.volumes, newName(k)) && newName(k) != name;
      }
      db := db.(volumes := vols);
      serial := serial + 1;
      Emit(Register(name, vtype));
    }

    /** AddIndexBlockLink. */
    method LinkIndexVolume(index: string, blockVolume: string)
      requires Valid()
      modifies this`db, this`log, this`audit
      ensures Valid() && audit == old(audit)
      ensures db == old(db).(links := old(db).links + [IndexLink(index, blockVolume)])
      ensures log == old(log) + [Link(index, blockVolume)]
    {
      db := db.(links := db.links + [IndexLink(index, blockVolume)]);
      Emit(Link(index, blockVolume));
    }

    /** RemoveRemoteVolume. */
    method DeregisterVolume(name: string)
      requires Valid()
      modifies this`db, this`log, this`audit
      ensures Valid() && audit == old(audit)
      ensures db == old(db).(volumes := RemoveRemoteVolume(old(db).volumes, name))
      ensures log == old(log) + [Deregister(name)]
    {
      var vols := RemoveRemoteVolume(db.volumes, name);
      RemoveKeepsNoOrphans(db, live, name);
      db := db.(volumes := vols);
      Emit(Deregister(name));
    }

    /** MoveBlockToNewVolume, onto a volume that is still Temporary. */
    method MoveBlockToNewVolume(key: BlockKey, target: string) returns (failure: Option<Failure>)
      requires Valid() && StateOf(db.volumes, target) == Some(Temporary)
      modifies this`db, this`log, this`audit
      ensures Valid() && audit == old(audit)
      ensures key in old(db).owner ==>
        failure.None? && db == MoveBlock(old(db), key, target).value && log == old(log) + [Move(key, target)]
      ensures key !in old(db).owner ==>
        failure == Some(BlockNotFound(key)) && db == old(db) && log == old(log)
    {
      var m := MoveBlock(db, key, target);
      if m.Err? {
        return Some(m.error);
      }
      MoveKeepsNoOrphans(db, live, key, target);
      db := m.value;
      Emit(Move(key, target));
      return None;
    }

    /** UpdateRemoteVolume(name, Deleting, size) for a volume holding no
        block in use and not being read. */
    method MarkVolumeDeleting(v: Volume)
      requires Valid() && !OwnsLive(db.owner, live, v.name) && v.name !in audit.reading
      modifies this`db, this`log, this`audit
      ensures Valid()
      ensures db == old(db).(volumes := UpdateRemoteVolume(old(db).volumes, v.name, Deleting, v.size))
      ensures log == old(log) + [MarkDeleting(v.name)]
      ensures audit == old(audit).(pending := old(audit).pending + {v.name})
    {
      var vols := UpdateRemoteVolume(db.volumes, v.name, Deleting, v.size);
      MarkKeepsNoOrphans(db, live, v.name, v.size);
      UpdateKeepsDistinct(db.volumes, v.name, Deleting, v.size);
      forall k: nat | k >= serial ensures Absent(vols, newName(k)) {
        UpdateKeepsAbsent(db.volumes, v.name, Deleting, v.size, newName(k));
      }
      db := db.(volumes := vols);
      Emit(MarkDeleting(v.name));
    }

    /** PerformDelete: deletes each volume unless this is a dry run, and
        reports every name and size either way. */
    method PerformDelete(list: seq<Volume>) returns (deleted: seq<Transfer>)
      requires Valid()
      requires !opts.dryRun ==> forall v :: v in list ==> v.name in audit.ready
      modifies this`log, this`audit
      ensures Valid() && audit == old(audit)
      ensures deleted == Transfers(list)
      ensures log == old(log) + (if opts.dryRun then [] else DeleteEvents(list))
    {
      deleted := [];
      var i := 0;
      while i < |list|
        invariant 0 <= i <= |list|
        invariant Valid() && audit == old(audit)
        invariant deleted == Transfers(list[..i])
        invariant log == old(log) + (if opts.dryRun then [] else DeleteEvents(list[..i]))
      {
        var f := list[i];
        assert list[..i + 1][..i] == list[..i];
        DeleteVolume(f);
        deleted := deleted + [Transfer(f.name, f.size)];
        i := i + 1;
      }
      assert list[..|list|] == list;
    }

    /** One pass of PerformDelete's loop: the volume's delete is logged,
        unless in a dry run. */
    method DeleteVolume(f: Volume)
      requires Valid()
      requires !opts.dryRun ==> f.name in audit.ready
      modifies this`log, this`audit
      ensures Valid() && audit == old(audit)
      ensures log == old(log) + (if opts.dryRun then [] else [Delete(f.name, f.size)])
    {
      if !opts.dryRun {
        Emit(Delete(f.name, f.size));
      }
    }

    /** The first loop of DoDelete: marks each volume Deleting, in order. */
    method MarkEachDeleting(marks: seq<Volume>)
      requires Valid()
      requires forall v :: v in marks ==> !OwnsLive(db.owner, live, v.name) && v.name !in audit.reading
      modifies this`db, this`log, this`audit
      ensures Valid()
      ensures audit.reading == old(audit).reading && audit.ready == old(audit).ready
      ensures forall v :: v in marks ==> v.name in audit.pending
      ensures db == old(db).(volumes := MarkAll(old(db).volumes, marks))
      ensures log == old(log) + MarkEvents(marks)
    {
      ghost var db0 := db;
      ghost var log0 := log;
      ghost var audit0 := audit;
      var i := 0;
      while i < |marks|
        invariant 0 <= i <= |marks|
        invariant MarkedUpTo(marks, i, db0, log0, audit0)
      {
        MarkNext(marks, i, db0, log0, audit0);
        i := i + 1;
      }
      assert marks[..|marks|] == marks;
      forall v | v in marks ensures v.name in audit.pending {
        var j :| 0 <= j < |marks| && marks[j] == v;
      }
    }

    /** The state of MarkEachDeleting after the first `i` marks. */
    ghost predicate MarkedUpTo(marks: seq<Volume>, i: nat, db0: Db, log0: seq<Event>, audit0: Audit)
      reads this`db, this`committed, this`serial, this`log, this`audit
    {
      i <= |marks|
      && Valid()
      && (forall v :: v in marks ==> !OwnsLive(db0.owner, live, v.name) && v.name !in audit0.reading)
      && audit.reading == audit0.reading && audit.ready == audit0.ready
      && db == db0.(volumes := MarkAll(db0.volumes, marks[..i]))
      && log == log0 + MarkEvents(marks[..i])
      && (forall j :: 0 <= j < i ==> marks[j].name in audit.pending)
    }

    /** One iteration of MarkEachDeleting. */
    method MarkNext(marks: seq<Volume>, i: nat, ghost db0: Db, ghost log0: seq<Event>, ghost audit0: Audit)
      requires i < |marks| && MarkedUpTo(marks, i, db0, log0, audit0)
      modifies this`db, this`log, this`audit
      ensures MarkedUpTo(marks, i + 1, db0, log0, audit0)
    {
      var v := marks[i];
      assert v in marks;
      assert marks[..i + 1] == marks[..i] + [v];
      MarkSnoc(log0, db0.volumes, marks[..i], v);
      MarkVolumeDeleting(v);
    }

    /** DoDelete: marks the deletable candidates Deleting, waits for the
        backend queue to drain, commits (unless dry run), then deletes.
        `marks` names the volumes the database chose. */
    method DoDelete(candidates: seq<Volume>) returns (deleted: seq<Transfer>, ghost marks: seq<Volume>)
      requires Valid()
      requires forall v :: v in candidates ==> v.name !in audit.reading
      modifies this`db, this`committed, this`log, this`audit
      ensures Valid() && audit.reading == old(audit).reading
      ensures marks == GetDeletableVolumes(old(db), live, candidates)
      ensures deleted == Transfers(marks)
      ensures db == old(db).(volumes := MarkAll(old(db).volumes, marks))
      ensures committed == if opts.dryRun then old(committed) else db
      ensures log == old(log) + DeleteLog(marks, opts.dryRun)
    {
      var toRemove := GetDeletableVolumes(db, live, candidates);
      marks := toRemove;
      ghost var log0 := log;
      MarkEachDeleting(toRemove);
      ghost var log1 := log;
      deleted := CommitAndDelete(toRemove);
      DeleteLogSplit(log0, toRemove, opts.dryRun);
    }

    /** The second half of DoDelete: after the marks, the backend queue
        is drained, the transaction committed and the volumes deleted. */
    method CommitAndDelete(marks: seq<Volume>) returns (deleted: seq<Transfer>)
      requires Valid() && forall v :: v in marks ==> v.name in audit.pending
      modifies this`committed, this`log, this`audit
      ensures Valid() && audit.reading == old(audit).reading
      ensures deleted == Transfers(marks)
      ensures committed == if opts.dryRun then old(committed) else db
      ensures log == old(log) + ([WaitForEmpty] + (if opts.dryRun then [] else [Commit] + DeleteEvents(marks)))
    {
      Emit(WaitForEmpty);
      if !opts.dryRun {
        CommitTransaction();
      }
      ghost var log2 := log;
      deleted := PerformDelete(marks);
      assert log2 == old(log) + [WaitForEmpty] + (if opts.dryRun then [] else [Commit]);
    }

    /** FinishVolumeAndUpload: records the sealed volume (and its index
        volume) as uploaded and, unless this is a dry run, hands both to
        the backend; full index blocklists are written only under the Full
        policy. */
    method FinishVolumeAndUpload(vol: Writer, index: Option<Writer>)
      requires Valid() && SealedWithin(vol.blocks, opts.volumeSize)
      modifies this`uploadedVolumes, this`log, this`audit
      ensures Valid() && audit == old(audit)
      ensures uploadedVolumes == old(uploadedVolumes) + Uploads(vol, index)
      ensures log == if opts.dryRun then old(log) + [Seal(vol.name, vol.blocks)]
        else old(log) + [Seal(vol.name, vol.blocks), Put(vol.name, IndexName(index), index.Some? && opts.indexPolicy == Full)]
    {
      uploadedVolumes := uploadedVolumes + Uploads(vol, index);
      Emit(Seal(vol.name, vol.blocks));
      if !opts.dryRun {
        var put := Put(vol.name, IndexName(index), index.Some? && opts.indexPolicy == Full);
        Emit(put);
        assert log == old(log) + [Seal(vol.name, vol.blocks), put];
      }
    }

    /** The files a finished volume adds to the uploads: the block volume
        at its size and, when there is one, its index volume. */
    function Uploads(vol: Writer, index: Option<Writer>): (r: seq<Transfer>)
    {
      [Transfer(vol.name, Filesize(vol.blocks))]
        + (if index.Some? then [Transfer(index.value.name, indexSize(index.value.blocks))] else [])
    }

    /** Opens a new Temporary block volume and, unless the index policy is
        None, a Temporary index volume linked to it. */
    method StartVolume() returns (w: OpenVolume)
      requires Valid()
      modifies this`db, this`serial, this`log, this`audit
      ensures Valid() && audit == old(audit)
      ensures w.serial == old(serial) && w.vol == Writer(newName(old(serial)), [])
      ensures w.index.Some? <==> opts.indexPolicy != NoIndex
      ensures w.index.Some? ==> w.index.value == Writer(newName(old(serial) + 1), [])
      ensures serial > old(serial)
      ensures StateOf(db.volumes, w.vol.name) == Some(Temporary)
      ensures db.owner == old(db).owner
      ensures |db.volumes| > |old(db).volumes| && db.volumes[..|old(db).volumes|] == old(db).volumes
    {
      ghost var vols0 := db.volumes;
      var name := RegisterBlockVolume();
      w := OpenVolume(Writer(name, []), None, serial - 1);
      if opts.indexPolicy != NoIndex {
        ghost var vols1 := db.volumes;
        var index := StartIndexVolume(name);
        assert db.volumes[..|vols0|] == db.volumes[..|vols1|][..|vols0|];
        w := w.(index := Some(index));
      }
    }

    /** The block volume of StartVolume, registered as Temporary. */
    method RegisterBlockVolume() returns (name: string)
      requires Valid()
      modifies this`db, this`serial, this`log, this`audit
      ensures Valid() && audit == old(audit)
      ensures name == newName(old(serial)) && serial == old(serial) + 1
      ensures StateOf(db.volumes, name) == Some(Temporary)
      ensures db.owner == old(db).owner
      ensures |db.volumes| > |old(db).volumes| && db.volumes[..|old(db).volumes|] == old(db).volumes
    {
      ghost var vols0 := db.volumes;
      name := RegisterVolume(Blocks);
      StateOfAppend(vols0, Volume(name, Blocks, Temporary, -1), name);
      assert db.volumes[..|vols0|] == vols0;
    }

    /** The index volume of a new block volume: registered as Temporary
        and linked to the block volume. */
    method StartIndexVolume(blockVolume: string) returns (index: Writer)
      requires Valid() && !Absent(db.volumes, blockVolume)
      modifies this`db, this`serial, this`log, this`audit
      ensures Valid() && audit == old(audit)
      ensures index == Writer(newName(old(serial)), []) && serial == old(serial) + 1
      ensures StateOf(db.volumes, blockVolume) == StateOf(old(db).volumes, blockVolume)
      ensures db.owner == old(db).owner
      ensures |db.volumes| > |old(db).volumes| && db.volumes[..|old(db).volumes|] == old(db).volumes
    {
      ghost var vols1 := db.volumes;
      var iname := RegisterVolume(Index);
      StateOfAppend(vols1, Volume(iname, Index, Temporary, -1), blockVolume);
      LinkIndexVolume(iname, blockVolume);
      index := Writer(iname, []);
      assert db.volumes[..|vols1|] == vols1;
    }

    /** What holds between blocks while a pass copies: the open volume is
        Temporary under a name fresh for the pass, holds `blocksInVolume`
        blocks that fit the volume size, the index volume mirrors it, and
        every volume waiting for deletion was registered before the pass. */
    ghost predicate PassInvariant(w: OpenVolume, blocksInVolume: int, deleteable: seq<Volume>,
                                  vols0: seq<Volume>, serial0: nat)
      reads this`db, this`committed, this`serial, this`log, this`audit
    {
      Valid()
      && (forall k: nat :: k >= serial0 ==> Absent(vols0, newName(k)))
      && serial0 <= w.serial < serial && w.vol.name == newName(w.serial)
      && StateOf(db.volumes, w.vol.name) == Some(Temporary)
      && blocksInVolume == |w.vol.blocks|
      && (w.vol.blocks == [] || Filesize(w.vol.blocks) <= opts.volumeSize)
      && (w.index.Some? <==> opts.indexPolicy != NoIndex)
      && (w.index.Some? ==> w.index.value.blocks == w.vol.blocks && Absent(vols0, w.index.value.name))
      && (forall v :: v in deleteable ==> v in vols0)
    }

    /** The rollover inside the block loop: the full volume is sealed and
        uploaded, a new one is opened, and the volumes read completely so
        far are deleted (those of them that hold no block in use). */
    method Rollover(vol: Writer, index: Option<Writer>, deleteable: seq<Volume>,
                    ghost vols0: seq<Volume>, ghost serial0: nat)
      returns (w': OpenVolume)
      requires Valid() && SealedWithin(vol.blocks, opts.volumeSize)
      requires (forall k: nat :: k >= serial0 ==> Absent(vols0, newName(k))) && serial0 <= serial
      requires forall v :: v in deleteable ==> v in vols0 && v.name !in audit.reading
      modifies this`db, this`committed, this`serial, this`uploadedVolumes, this`deletedVolumes
      modifies this`log, this`audit
      ensures PassInvariant(w', 0, [], vols0, serial0) && w'.serial >= old(serial)
      ensures audit.reading == old(audit).reading
      ensures opts.dryRun ==> committed == old(committed)
      ensures db.owner == old(db).owner
      ensures uploadedVolumes == old(uploadedVolumes) + Uploads(vol, index)
      ensures deletedVolumes == old(deletedVolumes) + Transfers(GetDeletableVolumes(old(db), live, deleteable))
    {
      ghost var d0 := db;
      FinishVolumeAndUpload(vol, index);
      w' := OpenPassVolume(vols0, serial0);
      assert GetDeletableVolumes(db, live, deleteable) == GetDeletableVolumes(d0, live, deleteable);
      DeleteKeepingOpen(deleteable, w', vols0, serial0);
    }

    /** StartVolume inside a pass: the new volume is empty and its name is
        fresh for the volumes the pass started from. */
    method OpenPassVolume(ghost vols0: seq<Volume>, ghost serial0: nat) returns (w: OpenVolume)
      requires Valid() && serial0 <= serial
      requires forall k: nat :: k >= serial0 ==> Absent(vols0, newName(k))
      modifies this`db, this`serial, this`log, this`audit
      ensures PassInvariant(w, 0, [], vols0, serial0) && audit == old(audit)
      ensures w.serial == old(serial) && db.owner == old(db).owner
    {
      w := StartVolume();
    }

    /** One block of the block loop. A block no longer in use is skipped;
        a block still in use is checked against its indexed size, added to
        the open volume and its index and moved there, and once the volume
        is past the volume size it rolls over. */
    method CopyBlock(w: OpenVolume, count: nat, deleteable: seq<Volume>, e: StoredBlock,
                     ghost vols0: seq<Volume>, ghost serial0: nat)
      returns (w': OpenVolume, count': nat, deleteable': seq<Volume>, failure: Option<Failure>)
      requires PassInvariant(w, count, deleteable, vols0, serial0)
      requires forall v :: v in deleteable ==> v.name !in audit.reading
      modifies this`db, this`committed, this`serial, this`uploadedVolumes, this`deletedVolumes
      modifies this`log, this`audit
      ensures Valid()
      ensures opts.dryRun ==> committed == old(committed)
      ensures Accounted(live, vols0, deleteable, old(db).owner, db.owner,
                        old(deletedVolumes), deletedVolumes, old(uploadedVolumes), uploadedVolumes)
      ensures failure.None? ==> PassInvariant(w', count', deleteable', vols0, serial0)
      ensures failure.None? ==> audit.reading == old(audit).reading
      ensures e.key !in live ==>
        failure.None? && w' == w && count' == count && deleteable' == deleteable && db == old(db) && log == old(log)
      ensures e.key in live && e.readSize != e.key.size ==>
        failure == Some(SizeMismatch(e.key, e.readSize)) && db == old(db) && log == old(log)
      ensures e.key in live && e.readSize == e.key.size && e.key !in old(db).owner ==>
        failure == Some(BlockNotFound(e.key)) && db == old(db) && log == old(log)
      ensures e.key in live && e.readSize == e.key.size && e.key in old(db).owner ==>
        failure.None? && db.owner == old(db).owner[e.key := w.vol.name]
      ensures failure.None? && e.key in live && Filesize(w.vol.blocks + [e.key]) <= opts.volumeSize ==>
        w' == Appended(w, e.key) && count' == count + 1 && deleteable' == deleteable
        && db == MoveBlock(old(db), e.key, w.vol.name).value
        && uploadedVolumes == old(uploadedVolumes) && deletedVolumes == old(deletedVolumes)
      ensures failure.None? && e.key in live && Filesize(w.vol.blocks + [e.key]) > opts.volumeSize ==>
        uploadedVolumes == old(uploadedVolumes) + Uploads(Appended(w, e.key).vol, Appended(w, e.key).index)
        && deletedVolumes == old(deletedVolumes) + Transfers(GetDeletableVolumes(db, live, deleteable))
        && w'.serial > w.serial && count' == 0 && deleteable' == []
      // in short: a block in use that was copied lives in a new volume,
      // which is either still open with blocks in it or was uploaded
      ensures failure.None? ==> deleteable' == deleteable || deleteable' == []
      ensures failure.None? && e.key in live ==>
        e.readSize == e.key.size && e.key in db.owner && Absent(vols0, db.owner[e.key])
        && (count' > 0 || |uploadedVolumes| > |old(uploadedVolumes)|)
    {
      w', count', deleteable', failure := w, count, deleteable, None;
      if e.key !in live {
        return;
      }
      if e.readSize != e.key.size {
        return w', count', deleteable', Some(SizeMismatch(e.key, e.readSize));
      }
      if Filesize(w.vol.blocks + [e.key]) <= opts.volumeSize {
        w', count', failure := AppendBlock(w, count, deleteable, e.key, vols0, serial0);
      } else {
        w', failure := AppendAndRollover(w, count, deleteable, e.key, vols0, serial0);
        if failure.None? {
          count', deleteable' := 0, [];
        }
      }
    }

    /** AddBlock and MoveBlockToNewVolume for a block in use that still
        fits the open volume. */
    method AppendBlock(w: OpenVolume, count: nat, deleteable: seq<Volume>, key: BlockKey,
                       ghost vols0: seq<Volume>, ghost serial0: nat)
      returns (w': OpenVolume, count': nat, failure: Option<Failure>)
      requires PassInvariant(w, count, deleteable, vols0, serial0)
      requires Filesize(w.vol.blocks + [key]) <= opts.volumeSize
      modifies this`db, this`log, this`audit
      ensures Valid() && audit == old(audit)
      ensures Accounted(live, vols0, deleteable, old(db).owner, db.owner,
                        deletedVolumes, deletedVolumes, uploadedVolumes, uploadedVolumes)
      ensures key !in old(db).owner ==> failure == Some(BlockNotFound(key)) && db == old(db) && log == old(log)
      ensures key in old(db).owner ==>
        failure.None? && w' == Appended(w, key) && count' == count + 1
        && db == MoveBlock(old(db), key, w.vol.name).value
        && PassInvariant(w', count', deleteable, vols0, serial0)
        && Absent(vols0, db.owner[key])
    {
      w', count' := Appended(w, key), count + 1;
      assert Absent(vols0, w.vol.name);
      failure := MoveBlockToNewVolume(key, w.vol.name);
      if failure.None? {
        AccountedMove(live, vols0, deleteable, old(db).owner, key, w.vol.name, db,
                      deletedVolumes, uploadedVolumes, [], false);
      } else {
        AccountedNothing(live, vols0, deleteable, db.owner, deletedVolumes, uploadedVolumes);
      }
    }

    /** AddBlock and MoveBlockToNewVolume for a block in use that takes
        the open volume past the volume size, followed by the rollover. */
    method AppendAndRollover(w: OpenVolume, count: nat, deleteable: seq<Volume>, key: BlockKey,
                             ghost vols0: seq<Volume>, ghost serial0: nat)
      returns (w': OpenVolume, failure: Option<Failure>)
      requires PassInvariant(w, count, deleteable, vols0, serial0)
      requires forall v :: v in deleteable ==> v.name !in audit.reading
      requires Filesize(w.vol.blocks + [key]) > opts.volumeSize
      modifies this`db, this`committed, this`serial, this`uploadedVolumes, this`deletedVolumes
      modifies this`log, this`audit
      ensures Valid()
      ensures opts.dryRun ==> committed == old(committed)
      ensures Accounted(live, vols0, deleteable, old(db).owner, db.owner,
                        old(deletedVolumes), deletedVolumes, old(uploadedVolumes), uploadedVolumes)
      ensures key !in old(db).owner ==> failure == Some(BlockNotFound(key)) && db == old(db) && log == old(log)
      ensures key in old(db).owner ==>
        failure.None? && db.owner == old(db).owner[key := w.vol.name]
        && uploadedVolumes == old(uploadedVolumes) + Uploads(Appended(w, key).vol, Appended(w, key).index)
        && deletedVolumes == old(deletedVolumes) + Transfers(GetDeletableVolumes(db, live, deleteable))
        && w'.serial > w.serial && PassInvariant(w', 0, [], vols0, serial0)
        && audit.reading == old(audit).reading
        && Absent(vols0, db.owner[key]) && |uploadedVolumes| > |old(uploadedVolumes)|
    {
      w' := w;
      assert Absent(vols0, w.vol.name);
      failure := MoveBlockToNewVolume(key, w.vol.name);
      if failure.Some? {
        AccountedNothing(live, vols0, deleteable, db.owner, deletedVolumes, uploadedVolumes);
        return;
      }
      var full := Appended(w, key);
      w' := RollFull(full, deleteable, vols0, serial0, old(db).owner, key, w.vol.name);
    }

    /** Rollover of the volume a block was just moved into, with the
        accounting of that move. */
    method RollFull(full: OpenVolume, deleteable: seq<Volume>, ghost vols0: seq<Volume>, ghost serial0: nat,
                    ghost o0: map<BlockKey, string>, ghost key: BlockKey, ghost target: string)
      returns (w': OpenVolume)
      requires Valid() && SealedWithin(full.vol.blocks, opts.volumeSize)
      requires (forall k: nat :: k >= serial0 ==> Absent(vols0, newName(k))) && serial0 <= serial
      requires forall v :: v in deleteable ==> v in vols0 && v.name !in audit.reading
      requires key in o0 && Absent(vols0, target) && db.owner == o0[key := target]
      requires Absent(vols0, full.vol.name) && (full.index.Some? ==> Absent(vols0, full.index.value.name))
      modifies this`db, this`committed, this`serial, this`uploadedVolumes, this`deletedVolumes
      modifies this`log, this`audit
      ensures PassInvariant(w', 0, [], vols0, serial0) && w'.serial >= old(serial)
      ensures audit.reading == old(audit).reading
      ensures opts.dryRun ==> committed == old(committed)
      ensures db.owner == old(db).owner && |uploadedVolumes| > |old(uploadedVolumes)|
      ensures uploadedVolumes == old(uploadedVolumes) + Uploads(full.vol, full.index)
      ensures deletedVolumes == old(deletedVolumes) + Transfers(GetDeletableVolumes(old(db), live, deleteable))
      ensures Accounted(live, vols0, deleteable, o0, db.owner,
                        old(deletedVolumes), deletedVolumes, old(uploadedVolumes), uploadedVolumes)
    {
      ghost var d1 := db;
      w' := Rollover(full.vol, full.index, deleteable, vols0, serial0);
      assert |Uploads(full.vol, full.index)| > 0;
      AccountedMove(live, vols0, deleteable, o0, key, target, d1,
                    old(deletedVolumes), old(uploadedVolumes), Uploads(full.vol, full.index), true);
    }

    /** The block loop of DoCompact for one downloaded volume: every block
        still in use ends up in a volume created by the pass, and once one
        is copied, a volume is open with blocks in it or one was uploaded. */
    method CopyLiveBlocks(w: OpenVolume, blocksInVolume: nat, deleteable: seq<Volume>,
                          entry: Volume, blocks: seq<StoredBlock>,
                          ghost vols0: seq<Volume>, ghost serial0: nat)
      returns (w': OpenVolume, count: nat, deleteable': seq<Volume>, failure: Option<Failure>)
      requires PassInvariant(w, blocksInVolume, deleteable, vols0, serial0)
      requires audit.reading == {entry.name}
      requires forall v :: v in deleteable ==> v.name != entry.name
      modifies this`db, this`committed, this`serial, this`uploadedVolumes, this`deletedVolumes
      modifies this`log, this`audit
      ensures Valid()
      ensures opts.dryRun ==> committed == old(committed)
      ensures Accounted(live, vols0, deleteable, old(db).owner, db.owner,
                        old(deletedVolumes), deletedVolumes, old(uploadedVolumes), uploadedVolumes)
      ensures failure.None? ==> PassInvariant(w', count, deleteable', vols0, serial0)
      ensures failure.None? ==> audit.reading == {entry.name}
      ensures failure.None? ==> deleteable' == deleteable || deleteable' == []
      ensures failure.None? ==> forall j :: 0 <= j < |blocks| && blocks[j].key in live ==> blocks[j].readSize == blocks[j].key.size
      ensures failure.None? ==> forall b :: b in live && b in KeysOf(blocks) ==> b in db.owner && Absent(vols0, db.owner[b])
      ensures failure.None? && (blocksInVolume > 0 || live * KeysOf(blocks) != {}) ==>
        count > 0 || |uploadedVolumes| > |old(uploadedVolumes)|
    {
      w', count, deleteable', failure := w, blocksInVolume, deleteable, None;
      ghost var start := Progress(db.owner, deletedVolumes, uploadedVolumes, committed);
      assert blocks[..0] == [];
      var j := 0;
      while j < |blocks|
        invariant 0 <= j <= |blocks|
        invariant CopiedUpTo(blocks, j, w', count, deleteable, deleteable', entry, vols0, serial0, start, blocksInVolume)
      {
        w', count, deleteable', failure :=
          CopyNext(blocks, j, w', count, deleteable, deleteable', entry, vols0, serial0, start, blocksInVolume);
        if failure.Some? {
          return;
        }
        j := j + 1;
      }
      assert blocks[..j] == blocks;
    }

    /** The state of CopyLiveBlocks after the first `j` blocks, from the
        owners, deletions, uploads and committed database of `start`. */
    ghost predicate CopiedUpTo(blocks: seq<StoredBlock>, j: nat, w: OpenVolume, count: nat,
                               deleteable0: seq<Volume>, deleteable: seq<Volume>, entry: Volume,
                               vols0: seq<Volume>, serial0: nat, start: Progress, count0: nat)
      reads this`db, this`committed, this`serial, this`log, this`audit, this`uploadedVolumes, this`deletedVolumes
    {
      j <= |blocks|
      && PassInvariant(w, count, deleteable, vols0, serial0)
      && audit.reading == {entry.name}
      && (forall v :: v in deleteable0 ==> v.name != entry.name)
      && (deleteable == deleteable0 || deleteable == [])
      && Accounted(live, vols0, deleteable0, start.owner, db.owner,
                   start.deleted, deletedVolumes, start.uploaded, uploadedVolumes)
      && (opts.dryRun ==> committed == start.committed)
      && CopiedBlocks(live, vols0, blocks, j, db.owner, count0, count, |start.uploaded|, |uploadedVolumes|)
    }

    /** One iteration of CopyLiveBlocks. */
    method CopyNext(blocks: seq<StoredBlock>, j: nat, w: OpenVolume, count: nat,
                    deleteable0: seq<Volume>, deleteable: seq<Volume>, entry: Volume,
                    ghost vols0: seq<Volume>, ghost serial0: nat, ghost start: Progress, ghost count0: nat)
      returns (w': OpenVolume, count': nat, deleteable': seq<Volume>, failure: Option<Failure>)
      requires j < |blocks| && CopiedUpTo(blocks, j, w, count, deleteable0, deleteable, entry, vols0, serial0, start, count0)
      modifies this`db, this`committed, this`serial, this`uploadedVolumes, this`deletedVolumes
      modifies this`log, this`audit
      ensures Valid()
      ensures opts.dryRun ==> committed == start.committed
      ensures Accounted(live, vols0, deleteable0, start.owner, db.owner,
                        start.deleted, deletedVolumes, start.uploaded, uploadedVolumes)
      ensures failure.None? ==>
        CopiedUpTo(blocks, j + 1, w', count', deleteable0, deleteable', entry, vols0, serial0, start, count0)
    {
      var e := blocks[j];
      ghost var o1 := db.owner;
      ghost var del1 := deletedVolumes;
      ghost var up1 := uploadedVolumes;
      assert Absent(vols0, w.vol.name);
      w', count', deleteable', failure := CopyBlock(w, count, deleteable, e, vols0, serial0);
      AccountedTrans(live, vols0, deleteable0, deleteable, start.owner, o1, db.owner,
                     start.deleted, del1, deletedVolumes, start.uploaded, up1, uploadedVolumes);
      if failure.None? {
        CopiedStep(live, vols0, blocks, j, o1, db.owner, count0, count, count', |start.uploaded|, |up1|,
                   |uploadedVolumes|);
      }
    }

    /** The start of a pass: a new volume is opened, the bookkeeping lists
        are reset, and the fully deletable volumes of the remote listing
        are deleted. */
    method StartPass(deleteableNames: seq<string>) returns (w: OpenVolume, remoteList: seq<Volume>)
      requires Valid() && audit.reading == {}
      modifies this`db, this`committed, this`serial, this`uploadedVolumes, this`deletedVolumes
      modifies this`downloadedVolumes, this`log, this`audit
      ensures PassInvariant(w, 0, [], old(db).volumes, old(serial))
      ensures remoteList == RemoteList(old(db).volumes)
      ensures audit.reading == {}
      ensures opts.dryRun ==> committed == old(committed)
      ensures uploadedVolumes == [] && downloadedVolumes == []
      ensures db.owner == old(db).owner
      ensures deletedVolumes == Transfers(GetDeletableVolumes(old(db), live, Selected(remoteList, deleteableNames)))
      ensures Accounted(live, old(db).volumes, remoteList, old(db).owner, db.owner, [], deletedVolumes, [], [])
    {
      ghost var vols0 := db.volumes;
      ghost var serial0 := serial;
      remoteList := RemoteList(db.volumes);
      uploadedVolumes := [];
      deletedVolumes := [];
      downloadedVolumes := [];
      w := OpenPassVolume(vols0, serial0);
      DeleteKeepingOpen(Selected(remoteList, deleteableNames), w, vols0, serial0);
      AccountedDelete(live, vols0, remoteList, old(db), Selected(remoteList, deleteableNames), [], []);
    }

    /** DoDelete while a volume is open: the open volume stays Temporary. */
    method DeleteKeepingOpen(vs: seq<Volume>, w: OpenVolume, ghost vols0: seq<Volume>, ghost serial0: nat)
      requires PassInvariant(w, 0, [], vols0, serial0)
      requires forall v :: v in vs ==> v in vols0 && v.name !in audit.reading
      modifies this`db, this`committed, this`deletedVolumes, this`log, this`audit
      ensures PassInvariant(w, 0, [], vols0, serial0) && audit.reading == old(audit).reading
      ensures opts.dryRun ==> committed == old(committed)
      ensures db.owner == old(db).owner
      ensures deletedVolumes == old(deletedVolumes) + Transfers(GetDeletableVolumes(old(db), live, vs))
    {
      ghost var before := db;
      assert Absent(vols0, w.vol.name);
      forall v | v in vs ensures v.name != w.vol.name {
        assert v in vols0;
      }
      var d, marks := DoDelete(vs);
      forall v | v in marks ensures v.name != w.vol.name {
        assert v in vs;
      }
      MarkAllKeepsOthers(before.volumes, marks, w.vol.name);
      deletedVolumes := deletedVolumes + d;
    }

    /** The body of the download loop for one volume: it is downloaded,
        the pass stops here if asked to (after waiting for the backend),
        otherwise its live blocks are copied and it joins the volumes to
        delete. `outcome` is what DoCompact returns when it ends early. */
    method CompactVolume(entry: Volume, blocks: seq<StoredBlock>, stop: bool,
                         w: OpenVolume, count: nat, deleteable: seq<Volume>,
                         ghost vols0: seq<Volume>, ghost serial0: nat)
      returns (w': OpenVolume, count': nat, deleteable': seq<Volume>, outcome: Option<Result<bool, Failure>>)
      requires PassInvariant(w, count, deleteable, vols0, serial0) && audit.reading == {}
      requires entry in vols0 && forall v :: v in deleteable ==> v.name != entry.name
      modifies this`db, this`committed, this`serial, this`uploadedVolumes, this`deletedVolumes
      modifies this`downloadedVolumes, this`log, this`audit, this`stopped
      ensures Valid()
      ensures opts.dryRun ==> committed == old(committed)
      ensures stop <==> stopped
      ensures stop ==> outcome == Some(Ok(false)) && EndedWaiting()
      ensures outcome.Some? && !stop ==> outcome.value.Err?
      ensures stop ==>
        db == old(db) && deletedVolumes == old(deletedVolumes)
        && uploadedVolumes == old(uploadedVolumes) && downloadedVolumes == old(downloadedVolumes)
      ensures !stop ==> downloadedVolumes == old(downloadedVolumes) + [Transfer(entry.name, entry.size)]
      ensures Accounted(live, vols0, deleteable, old(db).owner, db.owner,
                        old(deletedVolumes), deletedVolumes, old(uploadedVolumes), uploadedVolumes)
      ensures outcome.None? ==> PassInvariant(w', count', deleteable', vols0, serial0) && audit.reading == {}
      ensures outcome.None? ==> deleteable' == deleteable + [entry] || deleteable' == [entry]
      ensures outcome.None? ==>
        forall b :: b in live && b in KeysOf(blocks) ==> b in db.owner && Absent(vols0, db.owner[b])
      ensures outcome.None? && (count > 0 || live * KeysOf(blocks) != {}) ==>
        count' > 0 || |uploadedVolumes| > |old(uploadedVolumes)|
    {
      stopped := false;
      w', count', deleteable', outcome := w, count, deleteable, None;
      if stop {
        WaitAfterDownload(entry.name);
        stopped := true;
        AccountedNothing(live, vols0, deleteable, db.owner, deletedVolumes, uploadedVolumes);
        return w', count', deleteable', Some(Ok(false));
      }
      w', count', deleteable', outcome := ReadVolume(entry, blocks, w, count, deleteable, vols0, serial0);
    }

    /** A stop request right after a download: the backend is waited for. */
    method WaitAfterDownload(name: string)
      requires Valid()
      modifies this`log, this`audit
      ensures Valid() && EndedWaiting()
    {
      Emit(Downloaded(name));
      Emit(WaitForComplete);
    }

    /** A downloaded volume is read: its live blocks are copied, and once
        read completely it joins the volumes to delete. */
    method ReadVolume(entry: Volume, blocks: seq<StoredBlock>,
                      w: OpenVolume, count: nat, deleteable: seq<Volume>,
                      ghost vols0: seq<Volume>, ghost serial0: nat)
      returns (w': OpenVolume, count': nat, deleteable': seq<Volume>, outcome: Option<Result<bool, Failure>>)
      requires PassInvariant(w, count, deleteable, vols0, serial0) && audit.reading == {}
      requires entry in vols0 && forall v :: v in deleteable ==> v.name != entry.name
      modifies this`db, this`committed, this`serial, this`uploadedVolumes, this`deletedVolumes
      modifies this`downloadedVolumes, this`log, this`audit
      ensures Valid()
      ensures opts.dryRun ==> committed == old(committed)
      ensures outcome.Some? ==> outcome.value.Err?
      ensures downloadedVolumes == old(downloadedVolumes) + [Transfer(entry.name, entry.size)]
      ensures Accounted(live, vols0, deleteable, old(db).owner, db.owner,
                        old(deletedVolumes), deletedVolumes, old(uploadedVolumes), uploadedVolumes)
      ensures outcome.None? ==> PassInvariant(w', count', deleteable', vols0, serial0) && audit.reading == {}
      ensures outcome.None? ==> deleteable' == deleteable + [entry] || deleteable' == [entry]
      ensures outcome.None? ==>
        forall b :: b in live && b in KeysOf(blocks) ==> b in db.owner && Absent(vols0, db.owner[b])
      ensures outcome.None? && (count > 0 || live * KeysOf(blocks) != {}) ==>
        count' > 0 || |uploadedVolumes| > |old(uploadedVolumes)|
    {
      outcome := None;
      StartReading(entry, w, count, deleteable, vols0, serial0);
      var failure;
      w', count', deleteable', failure := CopyLiveBlocks(w, count, deleteable, entry, blocks, vols0, serial0);
      if failure.Some? {
        return w', count', deleteable', Some(Err(failure.value));
      }
      EndReading(entry, w', count', deleteable', vols0, serial0);
      deleteable' := deleteable' + [entry];
    }

    /** The download of `entry` is recorded and its reading begins. */
    method StartReading(entry: Volume, w: OpenVolume, count: nat, deleteable: seq<Volume>,
                        ghost vols0: seq<Volume>, ghost serial0: nat)
      requires PassInvariant(w, count, deleteable, vols0, serial0) && audit.reading == {}
      modifies this`downloadedVolumes, this`log, this`audit
      ensures PassInvariant(w, count, deleteable, vols0, serial0) && audit.reading == {entry.name}
      ensures downloadedVolumes == old(downloadedVolumes) + [Transfer(entry.name, entry.size)]
    {
      Emit(Downloaded(entry.name));
      downloadedVolumes := downloadedVolumes + [Transfer(entry.name, entry.size)];
    }

    /** `entry` has been read completely. */
    method EndReading(entry: Volume, w: OpenVolume, count: nat, deleteable: seq<Volume>,
                      ghost vols0: seq<Volume>, ghost serial0: nat)
      requires PassInvariant(w, count, deleteable, vols0, serial0) && audit.reading == {entry.name}
      requires entry in vols0
      modifies this`log, this`audit
      ensures PassInvariant(w, count, deleteable + [entry], vols0, serial0) && audit.reading == {}
    {
      Emit(FullyRead(entry.name));
    }

    /** After the download loop: the open volume is uploaded if it holds
        blocks, and deregistered with its index volume otherwise. */
    method CloseVolume(w: OpenVolume, count: nat, deleteable: seq<Volume>,
                       ghost vols0: seq<Volume>, ghost serial0: nat)
      requires PassInvariant(w, count, deleteable, vols0, serial0)
      modifies this`db, this`uploadedVolumes, this`log, this`audit
      ensures Valid() && audit == old(audit)
      ensures count > 0 ==> db == old(db) && uploadedVolumes == old(uploadedVolumes) + Uploads(w.vol, w.index)
      ensures count == 0 ==> uploadedVolumes == old(uploadedVolumes) && Absent(db.volumes, w.vol.name)
      ensures count == 0 && w.index.Some? ==> Absent(db.volumes, w.index.value.name)
      ensures db.owner == old(db).owner
    {
      if count > 0 {
        FinishVolumeAndUpload(w.vol, w.index);
      } else {
        DeregisterVolume(w.vol.name);
        if w.index.Some? {
          DeregisterVolume(w.index.value.name);
        }
      }
    }

    /** The final deletion of a pass: the volumes read completely are
        deleted, the results are tallied, and the backend is waited for. */
    method DeleteAndTally(deleteable: seq<Volume>) returns (changed: bool)
      requires Valid() && audit.reading == {}
      modifies this`db, this`committed, this`deletedVolumes, this`result, this`log, this`audit
      ensures Valid() && audit.reading == {}
      ensures opts.dryRun ==> committed == old(committed)
      ensures result == Tally(uploadedVolumes, deletedVolumes, downloadedVolumes, opts.dryRun)
      ensures changed == (|deletedVolumes| + |uploadedVolumes| > 0)
      ensures EndedWaiting()
      ensures db.owner == old(db).owner
      ensures deletedVolumes == old(deletedVolumes) + Transfers(GetDeletableVolumes(old(db), live, deleteable))
    {
      var d, marks := DoDelete(deleteable);
      deletedVolumes := deletedVolumes + d;
      changed := TallyAndWait();
    }

    /** The results of a pass are the counts and sizes of what it deleted,
        downloaded and uploaded; then the backend is waited for. */
    method TallyAndWait() returns (changed: bool)
      requires Valid()
      modifies this`result, this`log, this`audit
      ensures Valid() && audit.reading == {}
      ensures result == Tally(uploadedVolumes, deletedVolumes, downloadedVolumes, opts.dryRun)
      ensures changed == (|deletedVolumes| + |uploadedVolumes| > 0)
      ensures EndedWaiting()
    {
      result := Tally(uploadedVolumes, deletedVolumes, downloadedVolumes, opts.dryRun);
      Emit(WaitForComplete);
      changed := result.deletedFileCount + result.uploadedFileCount > 0;
    }

    /** The end of a pass: the open volume is closed when the pass
        compacted, then the volumes read completely are deleted. */
    method EndPass(compact: bool, w: OpenVolume, count: nat, deleteable: seq<Volume>,
                   ghost vols0: seq<Volume>, ghost serial0: nat)
      returns (changed: bool)
      requires PassInvariant(w, count, deleteable, vols0, serial0) && audit.reading == {}
      modifies this`db, this`committed, this`uploadedVolumes, this`deletedVolumes
      modifies this`result, this`log, this`audit
      ensures Valid() && audit.reading == {}
      ensures opts.dryRun ==> committed == old(committed)
      ensures result == Tally(uploadedVolumes, deletedVolumes, downloadedVolumes, opts.dryRun)
      ensures changed == (|deletedVolumes| + |uploadedVolumes| > 0)
      ensures EndedWaiting()
      ensures db.owner == old(db).owner
      ensures uploadedVolumes == old(uploadedVolumes) + (if compact && count > 0 then Uploads(w.vol, w.index) else [])
      ensures deletedVolumes == old(deletedVolumes) + Transfers(GetDeletableVolumes(old(db), live, deleteable))
      ensures Accounted(live, vols0, deleteable, old(db).owner, db.owner,
                        old(deletedVolumes), deletedVolumes, old(uploadedVolumes), uploadedVolumes)
    {
      ghost var ups := if compact && count > 0 then Uploads(w.vol, w.index) else [];
      assert Absent(vols0, w.vol.name);
      assert forall t :: t in ups ==> Absent(vols0, t.name);
      AccountedMoveless(live, vols0, deleteable, old(db), old(deletedVolumes), old(uploadedVolumes), ups);
      CloseIfCompacting(compact, w, count, deleteable, vols0, serial0);
      ghost var d1 := db;
      changed := DeleteAndTally(deleteable);
      assert GetDeletableVolumes(d1, live, deleteable) == GetDeletableVolumes(old(db), live, deleteable);
    }

    /** CloseVolume, when the pass compacted. */
    method CloseIfCompacting(compact: bool, w: OpenVolume, count: nat, deleteable: seq<Volume>,
                             ghost vols0: seq<Volume>, ghost serial0: nat)
      requires PassInvariant(w, count, deleteable, vols0, serial0)
      modifies this`db, this`uploadedVolumes, this`log, this`audit
      ensures Valid() && audit == old(audit)
      ensures db.owner == old(db).owner
      ensures uploadedVolumes == old(uploadedVolumes) + (if compact && count > 0 then Uploads(w.vol, w.index) else [])
    {
      if compact {
        CloseVolume(w, count, deleteable, vols0, serial0);
      }
    }

    /** The download loop of DoCompact: each compactable volume is
        downloaded and its live blocks copied, in order. `outcome` is what
        DoCompact returns when the loop ends early. When the loop runs to
        the end, every volume was downloaded, the volumes read since the
        last rollover are left to delete, and every block still in use
        that was read lives in a volume the pass created. */
    method CompactVolumes(toDownload: seq<Volume>, contents: map<string, seq<StoredBlock>>,
                          stopAt: Option<nat>, w: OpenVolume, ghost vols0: seq<Volume>, ghost serial0: nat)
      returns (w': OpenVolume, count: nat, deleteable: seq<Volume>, outcome: Option<Result<bool, Failure>>)
      requires PassInvariant(w, 0, [], vols0, serial0) && audit.reading == {} && !stopped
      requires NamesDistinct(toDownload) && forall v :: v in toDownload ==> v in vols0
      modifies this`db, this`committed, this`serial, this`uploadedVolumes, this`deletedVolumes
      modifies this`downloadedVolumes, this`log, this`audit, this`stopped
      ensures Valid()
      ensures opts.dryRun ==> committed == old(committed)
      ensures stopped ==> outcome == Some(Ok(false)) && stopAt.Some? && EndedWaiting()
      ensures outcome.Some? && !stopped ==> outcome.value.Err?
      ensures Accounted(live, vols0, toDownload, old(db).owner, db.owner,
                        old(deletedVolumes), deletedVolumes, old(uploadedVolumes), uploadedVolumes)
      ensures outcome.None? ==> PassInvariant(w', count, deleteable, vols0, serial0) && audit.reading == {}
      ensures outcome.None? ==> forall v :: v in toDownload ==> v.name in contents
      ensures outcome.None? ==> downloadedVolumes == old(downloadedVolumes) + Transfers(toDownload)
      ensures outcome.None? ==>
        |deleteable| <= |toDownload| && deleteable == toDownload[|toDownload| - |deleteable|..]
      ensures outcome.None? ==> forall v :: v in deleteable ==> v in toDownload
      ensures outcome.None? ==>
        forall b :: b in live && b in ReadKeys(toDownload, contents) ==> b in db.owner && Absent(vols0, db.owner[b])
      ensures outcome.None? && live * ReadKeys(toDownload, contents) != {} ==>
        count > 0 || |uploadedVolumes| > |old(uploadedVolumes)|
    {
      w', count, deleteable, outcome := DownloadEach(toDownload, contents, stopAt, w, vols0, serial0);
      if outcome.None? {
        DownloadedAll(live, vols0, toDownload, contents, count, deleteable,
                      old(db).owner, old(deletedVolumes), old(uploadedVolumes), old(downloadedVolumes),
                      db.owner, deletedVolumes, uploadedVolumes, downloadedVolumes);
      }
    }

    /** The loop of CompactVolumes. */
    method DownloadEach(toDownload: seq<Volume>, contents: map<string, seq<StoredBlock>>,
                        stopAt: Option<nat>, w: OpenVolume, ghost vols0: seq<Volume>, ghost serial0: nat)
      returns (w': OpenVolume, count: nat, deleteable: seq<Volume>, outcome: Option<Result<bool, Failure>>)
      requires PassInvariant(w, 0, [], vols0, serial0) && audit.reading == {} && !stopped
      requires NamesDistinct(toDownload) && forall v :: v in toDownload ==> v in vols0
      modifies this`db, this`committed, this`serial, this`uploadedVolumes, this`deletedVolumes
      modifies this`downloadedVolumes, this`log, this`audit, this`stopped
      ensures Valid()
      ensures opts.dryRun ==> committed == old(committed)
      ensures stopped ==> outcome == Some(Ok(false)) && stopAt.Some? && EndedWaiting()
      ensures outcome.Some? && !stopped ==> outcome.value.Err?
      ensures Accounted(live, vols0, toDownload, old(db).owner, db.owner,
                        old(deletedVolumes), deletedVolumes, old(uploadedVolumes), uploadedVolumes)
      ensures outcome.None? ==> PassInvariant(w', count, deleteable, vols0, serial0) && audit.reading == {}
      ensures outcome.None? ==>
        DownloadedUpTo(live, vols0, toDownload, contents, |toDownload|, count, deleteable,
                       old(db).owner, old(deletedVolumes), old(uploadedVolumes), old(downloadedVolumes),
                       db.owner, deletedVolumes, uploadedVolumes, downloadedVolumes)
    {
      w', count, deleteable, outcome := w, 0, [], None;
      ghost var o0, del0, up0, down0 := db.owner, deletedVolumes, uploadedVolumes, downloadedVolumes;
      ghost var committed0 := committed;
      DownloadedNothing(live, vols0, toDownload, contents, o0, del0, up0, down0);
      var i := 0;
      while i < |toDownload|
        invariant PassInvariant(w', count, deleteable, vols0, serial0) && audit.reading == {}
        invariant opts.dryRun ==> committed == committed0
        invariant DownloadedUpTo(live, vols0, toDownload, contents, i, count, deleteable, o0, del0, up0, down0,
                                 db.owner, deletedVolumes, uploadedVolumes, downloadedVolumes)
        invariant !stopped && outcome.None?
      {
        w', count, deleteable, outcome :=
          CompactNext(toDownload, contents, stopAt, i, w', count, deleteable, vols0, serial0, o0, del0, up0, down0);
        if outcome.Some? {
          return;
        }
        i := i + 1;
      }
    }

    /** One iteration of CompactVolumes: volume `i` is downloaded and read. */
    method CompactNext(toDownload: seq<Volume>, contents: map<string, seq<StoredBlock>>, stopAt: Option<nat>,
                       i: nat, w: OpenVolume, count: nat, deleteable: seq<Volume>,
                       ghost vols0: seq<Volume>, ghost serial0: nat, ghost o0: map<BlockKey, string>,
                       ghost del0: seq<Transfer>, ghost up0: seq<Transfer>, ghost down0: seq<Transfer>)
      returns (w': OpenVolume, count': nat, deleteable': seq<Volume>, outcome: Option<Result<bool, Failure>>)
      requires i < |toDownload| && !stopped
      requires PassInvariant(w, count, deleteable, vols0, serial0) && audit.reading == {}
      requires DownloadedUpTo(live, vols0, toDownload, contents, i, count, deleteable, o0, del0, up0, down0,
                              db.owner, deletedVolumes, uploadedVolumes, downloadedVolumes)
      modifies this`db, this`committed, this`serial, this`uploadedVolumes, this`deletedVolumes
      modifies this`downloadedVolumes, this`log, this`audit, this`stopped
      ensures Valid()
      ensures opts.dryRun ==> committed == old(committed)
      ensures stopped ==> outcome == Some(Ok(false)) && stopAt == Some(i) && EndedWaiting()
      ensures outcome.Some? && !stopped ==> outcome.value.Err?
      ensures Accounted(live, vols0, toDownload, o0, db.owner, del0, deletedVolumes, up0, uploadedVolumes)
      ensures outcome.None? ==> !stopped && PassInvariant(w', count', deleteable', vols0, serial0) && audit.reading == {}
      ensures outcome.None? ==>
        DownloadedUpTo(live, vols0, toDownload, contents, i + 1, count', deleteable', o0, del0, up0, down0,
                       db.owner, deletedVolumes, uploadedVolumes, downloadedVolumes)
    {
      var entry := toDownload[i];
      if entry.name !in contents {
        return w, count, deleteable, Some(Err(DownloadFailed(entry.name)));
      }
      ReadBeforeDistinct(toDownload, i, deleteable, vols0);
      ghost var o1, del1, up1, down1 := db.owner, deletedVolumes, uploadedVolumes, downloadedVolumes;
      w', count', deleteable', outcome :=
        CompactVolume(entry, contents[entry.name], stopAt == Some(i), w, count, deleteable, vols0, serial0);
      AccountedTrans(live, vols0, toDownload, deleteable, o0, o1, db.owner,
                     del0, del1, deletedVolumes, up0, up1, uploadedVolumes);
      if outcome.None? {
        DownloadedStep(live, vols0, toDownload, contents, i, count, deleteable, count', deleteable', o0, del0, up0, down0,
                       o1, del1, up1, down1, db.owner, deletedVolumes, uploadedVolumes, downloadedVolumes);
      }
    }

    /** DoCompact: one pass over the report. Returns whether anything was
        deleted or uploaded; a stop request while downloading waits for
        the backend and returns false. */
    method DoCompact(report: Report, hasVerifiedBackend: bool, listingMatches: bool,
                     contents: map<string, seq<StoredBlock>>, stopAt: Option<nat>)
      returns (r: Result<bool, Failure>)
      requires Valid() && audit.reading == {}
      modifies this
      ensures Valid()
      ensures !(report.shouldReclaim || report.shouldCompact) ==>
        r == Ok(false) && db == old(db) && committed == old(committed) && log == old(log)
      ensures opts.dryRun ==> committed == old(committed)
      ensures r.Ok? ==> audit.reading == {}
      ensures stopped ==> r == Ok(false) && stopAt.Some? && EndedWaiting()
      ensures r.Ok? && !stopped && (report.shouldReclaim || report.shouldCompact) ==>
        result == Tally(uploadedVolumes, deletedVolumes, downloadedVolumes, opts.dryRun)
        && r.value == (|deletedVolumes| + |uploadedVolumes| > 0)
        && EndedWaiting()
      ensures !hasVerifiedBackend && !listingMatches && (report.shouldReclaim || report.shouldCompact) ==>
        r == Err(RemoteListMismatch)
      ensures r.Ok? && (report.shouldReclaim || report.shouldCompact) ==>
        Transfers(GetDeletableVolumes(old(db), live, Selected(RemoteList(old(db).volumes), report.deleteableVolumes)))
          <= deletedVolumes
        && ReclaimKept(old(db), db.owner, deletedVolumes)
        && (forall t :: t in uploadedVolumes ==> Absent(old(db).volumes, t.name))
      ensures r.Ok? && report.shouldCompact && !stopped ==>
        downloadedVolumes == Transfers(Selected(RemoteList(old(db).volumes), report.compactableVolumes))
        && CompactKept(old(db), db.owner, report, contents)
      ensures r.Ok? && report.shouldCompact && !stopped
        && live * ReadKeys(Selected(RemoteList(old(db).volumes), report.compactableVolumes), contents) != {}
        ==> r == Ok(true)
    {
      stopped := false;
      if !(report.shouldReclaim || report.shouldCompact) {
        return Ok(false);
      }
      if !hasVerifiedBackend {
        Emit(VerifyRemoteList);
        if !listingMatches {
          return Err(RemoteListMismatch);
        }
      }
      r := CompactPass(report, contents, stopAt);
    }

    /** The pass proper, once the remote listing has been accepted. The
        fully deletable volumes are deleted first; every volume the pass
        deletes is listed remotely and holds no block in use at the end,
        every volume it uploads is new, blocks only move into new volumes,
        and every block in use read from a compactable volume ends up in a
        new one. */
    method CompactPass(report: Report, contents: map<string, seq<StoredBlock>>, stopAt: Option<nat>)
      returns (r: Result<bool, Failure>)
      requires Valid() && audit.reading == {}
      modifies this`db, this`committed, this`serial, this`uploadedVolumes, this`deletedVolumes
      modifies this`downloadedVolumes, this`result, this`log, this`audit, this`stopped
      ensures Valid()
      ensures opts.dryRun ==> committed == old(committed)
      ensures r.Ok? ==> audit.reading == {} && EndedWaiting()
      ensures stopped ==> r == Ok(false) && stopAt.Some?
      ensures r.Ok? && !stopped ==>
        result == Tally(uploadedVolumes, deletedVolumes, downloadedVolumes, opts.dryRun)
        && r.value == (|deletedVolumes| + |uploadedVolumes| > 0)
      ensures Transfers(GetDeletableVolumes(old(db), live, Selected(RemoteList(old(db).volumes), report.deleteableVolumes)))
                <= deletedVolumes
      ensures MovedIntoNew(old(db).owner, db.owner, old(db).volumes)
      ensures forall t :: t in deletedVolumes ==>
        t in Transfers(RemoteList(old(db).volumes)) && !OwnsLive(db.owner, live, t.name)
      ensures forall t :: t in uploadedVolumes ==> Absent(old(db).volumes, t.name)
      ensures !report.shouldCompact ==>
        r.Ok? && !stopped && uploadedVolumes == [] && downloadedVolumes == []
        && deletedVolumes
           == Transfers(GetDeletableVolumes(old(db), live, Selected(RemoteList(old(db).volumes), report.deleteableVolumes)))
      ensures report.shouldCompact && r.Ok? && !stopped ==>
        downloadedVolumes == Transfers(Selected(RemoteList(old(db).volumes), report.compactableVolumes))
      ensures report.shouldCompact && r.Ok? && !stopped ==>
        forall b :: b in live && b in ReadKeys(Selected(RemoteList(old(db).volumes), report.compactableVolumes), contents)
          ==> b in db.owner && Absent(old(db).volumes, db.owner[b])
      ensures report.shouldCompact && r.Ok? && !stopped
        && live * ReadKeys(Selected(RemoteList(old(db).volumes), report.compactableVolumes), contents) != {}
        ==> r == Ok(true)
    {
      stopped := false;
      ghost var vols0 := db.volumes;
      ghost var serial0 := serial;
      var w, remoteList := StartPass(report.deleteableVolumes);
      ghost var o1, del1 := db.owner, deletedVolumes;
      var toDownload := Selected(remoteList, report.compactableVolumes);
      r := CopyAndEnd(report.shouldCompact, toDownload, contents, stopAt, w, vols0, serial0);
      AccountedTrans(live, vols0, remoteList, toDownload, old(db).owner, o1, db.owner,
                     [], del1, deletedVolumes, [], [], uploadedVolumes);
      AccountedPass(live, vols0, remoteList, old(db).owner, db.owner, deletedVolumes, uploadedVolumes);
    }

    /** The rest of a pass once the fully deletable volumes are gone: the
        compactable volumes are copied when the report asks for it, then
        the pass ends. */
    method CopyAndEnd(compact: bool, toDownload: seq<Volume>, contents: map<string, seq<StoredBlock>>,
                      stopAt: Option<nat>, w: OpenVolume, ghost vols0: seq<Volume>, ghost serial0: nat)
      returns (r: Result<bool, Failure>)
      requires PassInvariant(w, 0, [], vols0, serial0) && audit.reading == {} && !stopped
      requires NamesDistinct(toDownload) && forall v :: v in toDownload ==> v in vols0
      modifies this`db, this`committed, this`serial, this`uploadedVolumes, this`deletedVolumes
      modifies this`downloadedVolumes, this`result, this`log, this`audit, this`stopped
      ensures Valid()
      ensures opts.dryRun ==> committed == old(committed)
      ensures r.Ok? ==> audit.reading == {} && EndedWaiting()
      ensures stopped ==> r == Ok(false) && stopAt.Some?
      ensures r.Ok? && !stopped ==>
        result == Tally(uploadedVolumes, deletedVolumes, downloadedVolumes, opts.dryRun)
        && r.value == (|deletedVolumes| + |uploadedVolumes| > 0)
      ensures Accounted(live, vols0, toDownload, old(db).owner, db.owner,
                        old(deletedVolumes), deletedVolumes, old(uploadedVolumes), uploadedVolumes)
      ensures !compact ==>
        r.Ok? && !stopped && db.owner == old(db).owner && deletedVolumes == old(deletedVolumes)
        && uploadedVolumes == old(uploadedVolumes) && downloadedVolumes == old(downloadedVolumes)
      ensures compact && r.Ok? && !stopped ==> downloadedVolumes == old(downloadedVolumes) + Transfers(toDownload)
      ensures compact && r.Ok? && !stopped ==>
        forall b :: b in live && b in ReadKeys(toDownload, contents) ==> b in db.owner && Absent(vols0, db.owner[b])
      ensures compact && r.Ok? && !stopped && live * ReadKeys(toDownload, contents) != {} ==> r == Ok(true)
    {
      if compact {
        r := CompactAndEnd(toDownload, contents, stopAt, w, vols0, serial0);
      } else {
        var changed := EndPass(false, w, 0, [], vols0, serial0);
        r := Ok(changed);
        assert GetDeletableVolumes(old(db), live, []) == [];
        assert Transfers([]) == [];
        AccountedTrans(live, vols0, toDownload, [], old(db).owner, old(db).owner, db.owner,
                       old(deletedVolumes), old(deletedVolumes), deletedVolumes,
                       old(uploadedVolumes), old(uploadedVolumes), uploadedVolumes);
      }
    }

    /** CopyAndEnd when the report asks for compaction. */
    method CompactAndEnd(toDownload: seq<Volume>, contents: map<string, seq<StoredBlock>>,
                         stopAt: Option<nat>, w: OpenVolume, ghost vols0: seq<Volume>, ghost serial0: nat)
      returns (r: Result<bool, Failure>)
      requires PassInvariant(w, 0, [], vols0, serial0) && audit.reading == {} && !stopped
      requires NamesDistinct(toDownload) && forall v :: v in toDownload ==> v in vols0
      modifies this`db, this`committed, this`serial, this`uploadedVolumes, this`deletedVolumes
      modifies this`downloadedVolumes, this`result, this`log, this`audit, this`stopped
      ensures Valid()
      ensures opts.dryRun ==> committed == old(committed)
      ensures r.Ok? ==> audit.reading == {} && EndedWaiting()
      ensures stopped ==> r == Ok(false) && stopAt.Some?
      ensures r.Ok? && !stopped ==>
        result == Tally(uploadedVolumes, deletedVolumes, downloadedVolumes, opts.dryRun)
        && r.value == (|deletedVolumes| + |uploadedVolumes| > 0)
      ensures Accounted(live, vols0, toDownload, old(db).owner, db.owner,
                        old(deletedVolumes), deletedVolumes, old(uploadedVolumes), uploadedVolumes)
      ensures r.Ok? && !stopped ==> downloadedVolumes == old(downloadedVolumes) + Transfers(toDownload)
      ensures r.Ok? && !stopped ==>
        forall b :: b in live && b in ReadKeys(toDownload, contents) ==> b in db.owner && Absent(vols0, db.owner[b])
      ensures r.Ok? && !stopped && live * ReadKeys(toDownload, contents) != {} ==> r == Ok(true)
    {
      ghost var o0, del0, up0 := db.owner, deletedVolumes, uploadedVolumes;
      var w', blocksInVolume, deleteable, outcome := CompactVolumes(toDownload, contents, stopAt, w, vols0, serial0);
      if outcome.Some? {
        return outcome.value;
      }
      var changed := EndCompactedPass(toDownload, ReadKeys(toDownload, contents), w', blocksInVolume, deleteable,
                                      vols0, serial0, o0, del0, up0);
      r := Ok(changed);
    }

    /** EndPass after the download loop ran to its end: a pass that has a
        volume with blocks open, or uploaded one, reports a change. The
        blocks in use read so far (`keys`) stay in new volumes. */
    method EndCompactedPass(toDownload: seq<Volume>, ghost keys: set<BlockKey>, w: OpenVolume, count: nat,
                            deleteable: seq<Volume>, ghost vols0: seq<Volume>, ghost serial0: nat,
                            ghost o0: map<BlockKey, string>, ghost del0: seq<Transfer>, ghost up0: seq<Transfer>)
      returns (changed: bool)
      requires PassInvariant(w, count, deleteable, vols0, serial0) && audit.reading == {}
      requires forall v :: v in deleteable ==> v in toDownload
      requires Accounted(live, vols0, toDownload, o0, db.owner, del0, deletedVolumes, up0, uploadedVolumes)
      requires forall b :: b in live && b in keys ==> b in db.owner && Absent(vols0, db.owner[b])
      requires live * keys != {} ==> count > 0 || |uploadedVolumes| > |up0|
      modifies this`db, this`committed, this`uploadedVolumes, this`deletedVolumes
      modifies this`result, this`log, this`audit
      ensures Valid() && audit.reading == {} && EndedWaiting()
      ensures opts.dryRun ==> committed == old(committed)
      ensures result == Tally(uploadedVolumes, deletedVolumes, downloadedVolumes, opts.dryRun)
      ensures changed == (|deletedVolumes| + |uploadedVolumes| > 0)
      ensures db.owner == old(db).owner
      ensures Accounted(live, vols0, toDownload, o0, db.owner, del0, deletedVolumes, up0, uploadedVolumes)
      ensures live * keys != {} ==> changed
    {
      ghost var o1, del1, up1 := db.owner, deletedVolumes, uploadedVolumes;
      changed := EndPass(true, w, count, deleteable, vols0, serial0);
      AccountedTrans(live, vols0, toDownload, deleteable, o1, o1, db.owner,
                     del1, del1, deletedVolumes, up1, up1, uploadedVolumes);
      AccountedTrans(live, vols0, toDownload, toDownload, o0, o1, db.owner,
                     del0, del1, deletedVolumes, up0, up1, uploadedVolumes);
    }

    /** Run: one compaction in its own transaction. The transaction is
        committed unless this is a dry run, and rolled back on failure. */
    method Run(dbExists: bool, report: Report, listingMatches: bool,
               contents: map<string, seq<StoredBlock>>, stopAt: Option<nat>)
      returns (r: Result<bool, Failure>)
      requires Valid() && audit.reading == {}
      modifies this
      ensures Valid() && audit.reading == {}
      ensures !dbExists ==> r == Err(DatabaseMissing) && committed == old(committed) && log == old(log)
      ensures dbExists ==> db == committed
      ensures opts.dryRun ==> committed == old(committed)
      ensures r.Err? && dbExists ==> |log| > 0 && log[|log| - 1] == Rollback
      ensures r.Ok? && dbExists ==>
        |EndEvents(r.value)| <= |log| && log[|log| - |EndEvents(r.value)|..] == EndEvents(r.value)
      ensures r.Ok? && dbExists && !opts.dryRun && (report.shouldReclaim || report.shouldCompact) ==>
        ReclaimKept(old(committed), committed.owner, deletedVolumes)
      ensures r.Ok? && dbExists && !opts.dryRun && report.shouldCompact && !stopped ==>
        CompactKept(old(committed), committed.owner, report, contents)
    {
      if !dbExists {
        return Err(DatabaseMissing);
      }
      r := RunPass(report, listingMatches, contents, stopAt);
    }

    /** Run with the database present: the pass starts from the committed
        snapshot and is closed by CloseRun. */
    method RunPass(report: Report, listingMatches: bool,
                   contents: map<string, seq<StoredBlock>>, stopAt: Option<nat>)
      returns (r: Result<bool, Failure>)
      requires Valid() && audit.reading == {}
      modifies this
      ensures Valid() && audit.reading == {} && db == committed
      ensures opts.dryRun ==> committed == old(committed)
      ensures r.Err? ==> |log| > 0 && log[|log| - 1] == Rollback
      ensures r.Ok? ==> |EndEvents(r.value)| <= |log| && log[|log| - |EndEvents(r.value)|..] == EndEvents(r.value)
      ensures r.Ok? && !opts.dryRun && (report.shouldReclaim || report.shouldCompact) ==>
        ReclaimKept(old(committed), committed.owner, deletedVolumes)
      ensures r.Ok? && !opts.dryRun && report.shouldCompact && !stopped ==>
        CompactKept(old(committed), committed.owner, report, contents)
    {
      db := committed;
      r := DoCompact(report, false, listingMatches, contents, stopAt);
      CloseRun(r);
    }

    /** The end of a run after the pass: a failed pass is rolled back,
        otherwise EndRun. */
    method CloseRun(r: Result<bool, Failure>)
      requires Valid() && (r.Ok? ==> audit.reading == {})
      modifies this`db, this`committed, this`log, this`audit
      ensures Valid() && audit.reading == {} && db == committed
      ensures r.Err? ==> committed == old(committed) && log == old(log) + [Rollback]
      ensures r.Ok? ==> committed == (if opts.dryRun then old(committed) else old(db))
                        && log == old(log) + EndEvents(r.value)
      ensures r.Err? ==> |log| > 0 && log[|log| - 1] == Rollback
      ensures r.Ok? ==> |EndEvents(r.value)| <= |log| && log[|log| - |EndEvents(r.value)|..] == EndEvents(r.value)
    {
      if r.Err? {
        RollbackTransaction();
      } else {
        EndRun(r.value);
        assert log[|old(log)|..] == EndEvents(r.value);
      }
    }

    /** After a pass that reclaimed or compacted: blocks only moved into
        new volumes, and every deleted volume was listed before the pass
        and owns no live block. */
    ghost predicate ReclaimKept(before: Db, owner: map<BlockKey, string>, deleted: seq<Transfer>) {
      MovedIntoNew(before.owner, owner, before.volumes)
      && forall t :: t in deleted ==> t in Transfers(RemoteList(before.volumes)) && !OwnsLive(owner, live, t.name)
    }

    /** After a compaction that was not stopped: every live block read from
        the compactable volumes is owned by a volume new since the pass began. */
    ghost predicate CompactKept(before: Db, owner: map<BlockKey, string>, report: Report,
                                contents: map<string, seq<StoredBlock>>) {
      forall b :: b in live && b in ReadKeys(Selected(RemoteList(before.volumes), report.compactableVolumes), contents)
        ==> b in owner && Absent(before.volumes, owner[b])
    }

    /** The events a run that did not fail ends with: the verification
        file when anything changed and it is wanted; then the commit, with
        the results and the vacuum when anything changed and they are
        asked for, or, in a dry run, the rollback. */
    function EndEvents(changed: bool): (e: seq<Event>)
      ensures |e| > 0 && (opts.dryRun ==> e[|e| - 1] == Rollback && Commit !in e)
      ensures !opts.dryRun ==> Commit in e && Rollback !in e
      ensures changed && opts.uploadVerificationFile <==> |e| > 0 && e[0] == UploadVerificationFile
    {
      (if changed && opts.uploadVerificationFile then [UploadVerificationFile] else [])
        + (if opts.dryRun then [Rollback]
           else [Commit] + (if changed then [WriteResults] + (if opts.autoVacuum then [Vacuum] else []) else []))
    }

    /** What Run does after a pass that did not fail: the verification
        file is uploaded if anything changed and it is wanted; then the
        transaction is committed, the results written and the database
        vacuumed if asked, or, in a dry run, the transaction is rolled back. */
    method EndRun(changed: bool)
      requires Valid() && audit.reading == {}
      modifies this`db, this`committed, this`log, this`audit
      ensures Valid() && audit.reading == {} && db == committed
      ensures committed == if opts.dryRun then old(committed) else old(db)
      ensures log == old(log) + EndEvents(changed)
    {
      if changed && opts.uploadVerificationFile {
        Emit(UploadVerificationFile);
      }
      CloseTransaction(changed);
    }

    /** Commits the pass (writing the results and vacuuming when anything
        changed and that is asked for), or rolls it back in a dry run. */
    method CloseTransaction(changed: bool)
      requires Valid() && audit.reading == {}
      modifies this`db, this`committed, this`log, this`audit
      ensures Valid() && audit.reading == {} && db == committed
      ensures committed == if opts.dryRun then old(committed) else old(db)
      ensures log == old(log)
        + (if opts.dryRun then [Rollback]
           else [Commit] + (if changed then [WriteResults] + (if opts.autoVacuum then [Vacuum] else []) else []))
    {
      if !opts.dryRun {
        CommitTransaction();
        if changed {
          Emit(WriteResults);
          if opts.autoVacuum {
            Emit(Vacuum);
          }
        }
      } else {
        RollbackTransaction();
      }
    }
  }
}
