/** The observable history of compaction passes: every database write,
    transaction boundary and backend call a pass makes, in order. `Replay`
    walks such a history and rejects it the moment it breaks one of the
    ordering rules the pass promises; the lemmas below restate what an
    accepted history therefore guarantees, position by position. */
module CompactAudit {
  import opened Common
  import opened CompactStore

  datatype IndexPolicy = NoIndex | Lookup | Full

  datatype Options = Options(
    volumeSize: int,
    indexPolicy: IndexPolicy,
    dryRun: bool,
    uploadVerificationFile: bool,
    autoVacuum: bool)

  datatype Event =
    | VerifyRemoteList
    | Register(name: string, vtype: VolumeType)
    | Link(indexVolume: string, blockVolume: string)
    | Deregister(name: string)
    | Move(key: BlockKey, target: string)
    | MarkDeleting(name: string)
    | WaitForEmpty
    | Commit
    | Rollback
    | Downloaded(name: string)
    | FullyRead(name: string)
    | Seal(name: string, blocks: seq<BlockKey>)
    | Put(name: string, index: Option<string>, blocklists: bool)
    | Delete(name: string, size: int)
    | WaitForComplete
    | UploadVerificationFile
    | WriteResults
    | Vacuum

  /** Size of a block volume written from `blocks`: the sum of their sizes. */
  function Filesize(blocks: seq<BlockKey>): nat {
    if blocks == [] then 0 else Filesize(blocks[..|blocks| - 1]) + blocks[|blocks| - 1].size
  }

  /** A sealed volume holds at least one block, and all its blocks but the
      last one fit in `limit`. */
  predicate SealedWithin(blocks: seq<BlockKey>, limit: int) {
    |blocks| > 0 && (|blocks| == 1 || Filesize(blocks[..|blocks| - 1]) <= limit)
  }

  /** A sealed volume exceeds the limit by at most its last block. */
  lemma SealedBound(blocks: seq<BlockKey>, limit: int)
    requires SealedWithin(blocks, limit) && limit >= 0
    ensures Filesize(blocks) <= limit + blocks[|blocks| - 1].size
  {
    if |blocks| == 1 {
      assert blocks[..0] == [];
    }
  }

  /** What the replay remembers: volumes marked Deleting in the open
      transaction, volumes whose Deleting mark was committed, and volumes
      whose blocks are being copied. */
  datatype Audit = Audit(pending: set<string>, ready: set<string>, reading: set<string>)

  const Start := Audit({}, {}, {})

  /** One event against the rules; None when the event breaks one:
      - a volume is never marked Deleting while its blocks are being copied;
      - a dry run never commits, uploads or deletes;
      - a volume is deleted only after its Deleting mark was committed;
      - a sealed volume stays within the volume size but for its last block. */
  function Step(a: Audit, e: Event, opts: Options): Option<Audit> {
    match e
    case MarkDeleting(n) =>
      if n in a.reading then None else Some(a.(pending := a.pending + {n}))
    case Commit =>
      if opts.dryRun then None else Some(a.(pending := {}, ready := a.ready + a.pending))
    case Rollback => Some(a.(pending := {}, reading := {}))
    case Delete(n, _) =>
      if opts.dryRun || n !in a.ready then None else Some(a)
    case Put(_, _, _) => if opts.dryRun then None else Some(a)
    case Seal(_, blocks) =>
      if SealedWithin(blocks, opts.volumeSize) then Some(a) else None
    case Downloaded(n) => Some(a.(reading := a.reading + {n}))
    case FullyRead(n) => Some(a.(reading := a.reading - {n}))
    case WaitForComplete => Some(a.(reading := {}))
    case _ => Some(a)
  }

  function Replay(log: seq<Event>, opts: Options): Option<Audit> {
    if log == [] then Some(Start)
    else
      match Replay(log[..|log| - 1], opts)
      case None => None
      case Some(a) => Step(a, log[|log| - 1], opts)
  }

  lemma ReplayAppend(log: seq<Event>, e: Event, opts: Options)
    ensures Replay(log + [e], opts) ==
      match Replay(log, opts)
      case None => None
      case Some(a) => Step(a, e, opts)
  {
    assert (log + [e])[..|log|] == log;
  }

  /** An accepted dry-run history holds no commit, upload or delete. */
  lemma {:induction false} DryRunWritesNothing(log: seq<Event>, opts: Options)
    requires opts.dryRun && Replay(log, opts).Some?
    ensures forall i :: 0 <= i < |log| ==> !log[i].Commit? && !log[i].Put? && !log[i].Delete?
  {
    if log != [] {
      var p := log[..|log| - 1];
      DryRunWritesNothing(p, opts);
      assert forall i :: 0 <= i < |p| ==> log[i] == p[i];
    }
  }

  /** Every sealed volume in an accepted history exceeds the volume size by
      at most its last block. */
  lemma {:induction false} SealsWithinVolumeSize(log: seq<Event>, opts: Options)
    requires Replay(log, opts).Some?
    ensures forall i :: 0 <= i < |log| && log[i].Seal? ==> SealedWithin(log[i].blocks, opts.volumeSize)
  {
    if log != [] {
      var p := log[..|log| - 1];
      SealsWithinVolumeSize(p, opts);
      assert forall i :: 0 <= i < |p| ==> log[i] == p[i];
    }
  }

  /** Position `i` is preceded by a mark of `n` as Deleting and, after it, a commit. */
  ghost predicate CommittedMarkBefore(log: seq<Event>, i: int, n: string) {
    exists j, k :: 0 <= j < k < i && k < |log| && log[j] == MarkDeleting(n) && log[k] == Commit
  }

  ghost predicate MarkBefore(log: seq<Event>, i: int, n: string) {
    exists j :: 0 <= j < i && j < |log| && log[j] == MarkDeleting(n)
  }

  /** What the replay's sets mean in terms of positions in the history. */
  lemma {:induction false} ReplayExplained(log: seq<Event>, opts: Options)
    requires Replay(log, opts).Some?
    ensures forall n :: n in Replay(log, opts).value.pending ==> MarkBefore(log, |log|, n)
    ensures forall n :: n in Replay(log, opts).value.ready ==> CommittedMarkBefore(log, |log|, n)
    ensures forall i :: 0 <= i < |log| && log[i].Delete? ==> CommittedMarkBefore(log, i, log[i].name)
  {
    if log != [] {
      var p := log[..|log| - 1];
      var e := log[|log| - 1];
      ReplayExplained(p, opts);
      var a := Replay(p, opts).value;
      assert log == p + [e];
      assert forall i :: 0 <= i < |p| ==> log[i] == p[i];
      forall n | MarkBefore(p, |p|, n) ensures MarkBefore(log, |log|, n) {
        var j :| 0 <= j < |p| && p[j] == MarkDeleting(n);
        assert log[j] == MarkDeleting(n);
      }
      forall n, i | 0 <= i <= |p| && CommittedMarkBefore(p, i, n) ensures CommittedMarkBefore(log, i, n) {
        var j, k :| 0 <= j < k < i && k < |p| && p[j] == MarkDeleting(n) && p[k] == Commit;
        assert log[j] == MarkDeleting(n) && log[k] == Commit;
      }
      forall n | n in Replay(log, opts).value.pending ensures MarkBefore(log, |log|, n) {
        if e == MarkDeleting(n) {
          assert log[|p|] == MarkDeleting(n);
        } else {
          assert MarkBefore(p, |p|, n);
        }
      }
      forall n | n in Replay(log, opts).value.ready ensures CommittedMarkBefore(log, |log|, n) {
        if n !in a.ready {
          assert e == Commit && n in a.pending;
          var j :| 0 <= j < |p| && p[j] == MarkDeleting(n);
          assert log[j] == MarkDeleting(n) && log[|p|] == Commit;
        } else {
          assert CommittedMarkBefore(p, |p|, n);
        }
      }
      forall i | 0 <= i < |log| && log[i].Delete? ensures CommittedMarkBefore(log, i, log[i].name) {
        if i < |p| {
          assert CommittedMarkBefore(p, i, p[i].name);
        } else {
          assert log[i].name in a.ready;
          assert CommittedMarkBefore(p, |p|, log[i].name);
        }
      }
    }
  }

  /** In an accepted history every physical delete of a volume comes after
      that volume was marked Deleting and a commit followed the mark. */
  lemma DeletesFollowCommittedMarks(log: seq<Event>, opts: Options, i: nat)
    requires Replay(log, opts).Some? && i < |log| && log[i].Delete?
    ensures exists j, k :: 0 <= j < k < i && log[j] == MarkDeleting(log[i].name) && log[k] == Commit
  {
    ReplayExplained(log, opts);
    assert CommittedMarkBefore(log, i, log[i].name);
  }

  /** The rows a volume list contributes to a pass's tally. */
  datatype Transfer = Transfer(name: string, size: int)

  function Transfers(vs: seq<Volume>): (r: seq<Transfer>)
    ensures |r| == |vs|
  {
    if vs == [] then [] else Transfers(vs[..|vs| - 1]) + [Transfer(vs[|vs| - 1].name, vs[|vs| - 1].size)]
  }

  /** Each volume contributes the transfer of its name and size, and
      nothing else is in the list. */
  lemma {:induction false} TransfersMember(vs: seq<Volume>)
    ensures forall v :: v in vs ==> Transfer(v.name, v.size) in Transfers(vs)
    ensures forall t :: t in Transfers(vs) ==> exists v :: v in vs && t == Transfer(v.name, v.size)
  {
    if vs != [] {
      var p := vs[..|vs| - 1];
      TransfersMember(p);
      assert forall v :: v in vs ==> v in p || v == vs[|vs| - 1];
      assert forall v :: v in p ==> v in vs;
    }
  }

  /** A sub-list of volumes gives a sub-list of transfers. */
  lemma TransfersMono(a: seq<Volume>, b: seq<Volume>)
    requires forall v :: v in a ==> v in b
    ensures forall t :: t in Transfers(a) ==> t in Transfers(b)
  {
    TransfersMember(a);
    TransfersMember(b);
  }

  function MarkEvents(vs: seq<Volume>): (r: seq<Event>)
    ensures |r| == |vs|
  {
    if vs == [] then [] else MarkEvents(vs[..|vs| - 1]) + [MarkDeleting(vs[|vs| - 1].name)]
  }

  function DeleteEvents(vs: seq<Volume>): (r: seq<Event>)
    ensures |r| == |vs|
  {
    if vs == [] then [] else DeleteEvents(vs[..|vs| - 1]) + [Delete(vs[|vs| - 1].name, vs[|vs| - 1].size)]
  }

  /** The calls DoDelete makes for the volumes `vs`: their marks, the
      wait for the backend, then (unless dry run) the commit and the deletes. */
  function DeleteLog(vs: seq<Volume>, dryRun: bool): (r: seq<Event>)
    ensures |r| == (if dryRun then |vs| + 1 else 2 * |vs| + 2)
  {
    MarkEvents(vs) + ([WaitForEmpty] + (if dryRun then [] else [Commit] + DeleteEvents(vs)))
  }

  /** How DoDelete's two halves compose into DeleteLog. */
  lemma DeleteLogSplit(log: seq<Event>, vs: seq<Volume>, dryRun: bool)
    ensures (log + MarkEvents(vs)) + ([WaitForEmpty] + (if dryRun then [] else [Commit] + DeleteEvents(vs)))
      == log + DeleteLog(vs, dryRun)
  {
  }

  /** The volume rows after each of `vs` was marked Deleting, in order. */
  function MarkAll(vols: seq<Volume>, vs: seq<Volume>): seq<Volume> {
    if vs == [] then vols
    else UpdateRemoteVolume(MarkAll(vols, vs[..|vs| - 1]), vs[|vs| - 1].name, Deleting, vs[|vs| - 1].size)
  }

  /** Marking one more volume appends one event and one row update. */
  lemma MarkSnoc(log: seq<Event>, vols: seq<Volume>, vs: seq<Volume>, v: Volume)
    ensures log + MarkEvents(vs + [v]) == (log + MarkEvents(vs)) + [MarkDeleting(v.name)]
    ensures MarkAll(vols, vs + [v]) == UpdateRemoteVolume(MarkAll(vols, vs), v.name, Deleting, v.size)
  {
    assert (vs + [v])[..|vs|] == vs;
  }

  /** Marking keeps the state of every name not among the marked volumes. */
  lemma {:induction false} MarkAllKeepsOthers(vols: seq<Volume>, vs: seq<Volume>, n: string)
    requires forall v :: v in vs ==> v.name != n
    ensures StateOf(MarkAll(vols, vs), n) == StateOf(vols, n)
  {
    if vs != [] {
      var p := vs[..|vs| - 1];
      assert forall v :: v in p ==> v in vs;
      MarkAllKeepsOthers(vols, p, n);
      StateOfUpdate(MarkAll(vols, p), vs[|vs| - 1].name, Deleting, vs[|vs| - 1].size, n);
    }
  }

  /** Reported sizes add up only the entries with a known (non-negative) size. */
  function SumNonNeg(ts: seq<Transfer>): int {
    if ts == [] then 0
    else SumNonNeg(ts[..|ts| - 1]) + (if ts[|ts| - 1].size >= 0 then ts[|ts| - 1].size else 0)
  }

  /** The sum is never negative and bounds every known size in it. */
  lemma {:induction false} SumNonNegBounds(ts: seq<Transfer>)
    ensures SumNonNeg(ts) >= 0
    ensures forall t :: t in ts && t.size >= 0 ==> t.size <= SumNonNeg(ts)
  {
    if ts != [] {
      var p := ts[..|ts| - 1];
      SumNonNegBounds(p);
      assert forall t :: t in ts ==> t in p || t == ts[|ts| - 1];
    }
  }

  /** Entries of unknown size do not change the sum. */
  lemma {:induction false} SumNonNegAppend(a: seq<Transfer>, b: seq<Transfer>)
    ensures SumNonNeg(a + b) == SumNonNeg(a) + SumNonNeg(b)
    decreases |b|
  {
    if b != [] {
      var bp := b[..|b| - 1];
      assert (a + b)[..|a + b| - 1] == a + bp;
      SumNonNegAppend(a, bp);
    } else {
      assert a + b == a;
    }
  }

  datatype CompactResults = CompactResults(
    deletedFileCount: nat,
    downloadedFileCount: nat,
    uploadedFileCount: nat,
    deletedFileSize: int,
    downloadedFileSize: int,
    uploadedFileSize: int,
    dryrun: bool)

  function Tally(uploaded: seq<Transfer>, deleted: seq<Transfer>, downloaded: seq<Transfer>, dryRun: bool): CompactResults {
    CompactResults(|deleted|, |downloaded|, |uploaded|,
      SumNonNeg(deleted), SumNonNeg(downloaded), SumNonNeg(uploaded), dryRun)
  }
}
