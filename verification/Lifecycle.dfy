/** The life of stored content, as a state machine: uploads, deduplication, deletion, sweeping
    and filtered copies (internal/web), the file locks that pin objects for a backup
    (internal/instance), offline maintenance, storage failures and crashes. Every SQL statement,
    object operation and lock operation is one step, and any thread may run between any two. */
module Lifecycle {
  import opened Prelude
  import opened Tables
  import ContentLock

  // ---- what a thread is doing ------------------------------------------------------------

  /** An upload after hashing: the content, who pays for it, and whether it is a clip. */
  datatype Up = Up(sha: Sha, size: nat, owner: Option<User>, video: bool)

  datatype Keys = Keys(original: Key, thumb: Option<Key>, preview: Option<Key>)
  {
    function All(): seq<Key> { [original] + OptionSeq(thumb) + OptionSeq(preview) }
  }

  /** Bytes to give back to an account once a deletion is through. */
  datatype Claim = Claim(owner: Option<User>, size: nat)
  const NOTHING := Claim(None, 0)

  /** The program counter of a thread with its live local variables. */
  datatype Work =
    | UpLock(up: Up)
    | UpCheck(up: Up)
    | ReuseReserve(up: Up, ext: Ext)
    | ReuseInsert(up: Up, ext: Ext, tries: nat)
    | ReuseRefund(up: Up)
    | UpProcess(up: Up)
    | UpReserve(up: Up, keys: Keys)
    | UpStat(up: Up, keys: Keys)
    | UpSaveOriginal(up: Up, keys: Keys)
    | UpProbe(up: Up, keys: Keys)
    | UpSaveThumb(up: Up, keys: Keys)
    | UpSavePreview(up: Up, keys: Keys)
    | UpEnsure(up: Up, keys: Keys)
    | UpInsert(up: Up, keys: Keys)
    | UpRefund(up: Up, keys: Keys, discard: bool)
    | Discard(sha: Sha, names: seq<Key>)
    | DelRow(id: Id, file: File, checked: bool)
    | RelLock(sha: Sha, due: Claim)
    | RelCheck(sha: Sha, due: Claim)
    | Pin(sha: Sha, names: seq<Key>, drop: bool, due: Claim)
    | Deleting(sha: Sha, names: seq<Key>, ok: bool, drop: bool, due: Claim)
    | DropBlob(sha: Sha, due: Claim)
    | CopyLock(sha: Sha, kind: CopyKind)
    | CopyRead(sha: Sha, kind: CopyKind)
    | CopySave(sha: Sha, kind: CopyKind, key: Key)
    | CopySet(sha: Sha, kind: CopyKind, key: Key)
    | Unlock(sha: Sha, due: Claim)
    | Leave(due: Claim)
    | Refund(due: Claim)

  function UpOf(wk: Work): Option<Up> {
    match wk
    case UpLock(up) => Some(up)
    case UpCheck(up) => Some(up)
    case ReuseReserve(up, _) => Some(up)
    case ReuseInsert(up, _, _) => Some(up)
    case ReuseRefund(up) => Some(up)
    case UpProcess(up) => Some(up)
    case UpReserve(up, _) => Some(up)
    case UpStat(up, _) => Some(up)
    case UpSaveOriginal(up, _) => Some(up)
    case UpProbe(up, _) => Some(up)
    case UpSaveThumb(up, _) => Some(up)
    case UpSavePreview(up, _) => Some(up)
    case UpEnsure(up, _) => Some(up)
    case UpInsert(up, _) => Some(up)
    case UpRefund(up, _, _) => Some(up)
    case _ => None
  }

  /** The content a thread works on. */
  function ShaOf(wk: Work): Sha {
    match wk
    case Discard(sha, _) => sha
    case RelLock(sha, _) => sha
    case RelCheck(sha, _) => sha
    case Pin(sha, _, _, _) => sha
    case Deleting(sha, _, _, _, _) => sha
    case DropBlob(sha, _) => sha
    case CopyLock(sha, _) => sha
    case CopyRead(sha, _) => sha
    case CopySave(sha, _, _) => sha
    case CopySet(sha, _, _) => sha
    case Unlock(sha, _) => sha
    case DelRow(_, file, _) => file.sha
    case Leave(_) => 0
    case Refund(_) => 0
    case _ => UpOf(wk).value.sha
  }

  predicate AtLock(wk: Work) { wk.UpLock? || wk.RelLock? || wk.CopyLock? }

  /** The positions between the return of acquire and the call of its release. */
  predicate Locked(wk: Work) {
    !AtLock(wk) && !wk.DelRow? && !wk.Leave? && !wk.Refund?
  }

  // ---- the world ---------------------------------------------------------------------------

  /** Servers that predate the object lock hold the compatibility slot exclusively. */
  datatype Server = Stopped | Current | Older

  datatype Backup =
    | NoBackup
    | HasLifecycle
    | HasObjects
    | HasAll(snapshot: Option<Db>)

  datatype World = World(
    db: Db,
    objects: map<Key, nat>,     // what is stored, by content hash
    locks: ContentLock.Locks,
    work: map<Tid, Work>,
    used: set<Id>,              // every id ever handed out
    server: Server,
    maintenance: bool,          // offline maintenance holds the lifecycle lock exclusively
    pins: set<Tid>,             // shared holders of the object lock
    backup: Backup,
    tag: Tag,                   // the rendition settings of the running server
    limit: nat)

  // ---- keys --------------------------------------------------------------------------------

  /** contentKeys. */
  function ContentKeys(tag: Tag, sha: Sha, ext: Ext, thumb: Option<Ext>, preview: Option<Ext>): Keys {
    Keys(Original(sha, ext),
         if thumb.Some? then Some(Key.Thumb(tag, sha, thumb.value)) else None,
         if preview.Some? then Some(Key.Preview(tag, sha, preview.value)) else None)
  }

  function ExtOf(k: Option<Key>): Option<Ext> { if k.Some? then Some(k.value.ext) else None }

  /** reusableUpload: the row's blob must name what today's settings would, or rebuilt renditions. */
  predicate Reusable(tag: Tag, file: File, blob: Blob) {
    var want := ContentKeys(tag, file.sha, file.ext, ExtOf(blob.thumb), ExtOf(blob.preview));
    if blob.original == want.original && blob.thumb.Some? && blob.thumb.value.Rebuilt? then true
    else blob.original == want.original && blob.thumb == want.thumb && blob.preview == want.preview
  }

  // ---- the steps -----------------------------------------------------------------------------

  /** A step of a thread carries the thread; `ok` is the answer of an operation that may fail, and
      `failed` says that a read failed for another reason than absence. `written` says whether a
      write took effect, which it may have done although its answer is an error; where the thread
      goes on alike after success and failure, `ok` alone says it. */
  datatype Step =
    | BeginUpload(t: Tid, up: Up)
    | BeginDelete(t: Tid, id: Id, checked: bool)
    | BeginRelease(t: Tid, sha: Sha)
    | BeginCopy(t: Tid, sha: Sha, kind: CopyKind)
    | Acquire(t: Tid, slot: nat)
    | Obtain(t: Tid)
    | GiveUp(t: Tid)
    | GiveBack(t: Tid)
    | CountOut(t: Tid)
    | Check(t: Tid, row: Option<Id>)
    | Process(t: Tid, ok: bool, ext: Ext, thumb: Option<Ext>, preview: Option<Ext>)
    | ClaimBytes(t: Tid, ok: bool, written: bool)
    | Stat(t: Tid, ok: bool)
    | Save(t: Tid, ok: bool, written: bool, content: nat)
    | Ensure(t: Tid, ok: bool, written: bool)
    | Insert(t: Tid, id: Id, ok: bool, written: bool)
    | GiveRefund(t: Tid, ok: bool)
    | DiscardRead(t: Tid, failed: bool)
    | RelRead(t: Tid, failed: bool)
    | PinObjects(t: Tid, ok: bool)
    | DeleteOne(t: Tid, ok: bool, gone: bool)
    | Unpin(t: Tid)
    | DropRow(t: Tid, ok: bool)
    | DeleteRow(t: Tid, ok: bool, written: bool)
    | ReadCopy(t: Tid, rebuild: bool, failed: bool)
    | SetCopy(t: Tid, ok: bool)
    | RemoveUser(u: User)
    | ClearCopies(sha: Sha)
    | RecomputeUsage
    | StartServer(older: bool, newTag: Tag)
    | StopServer
    | StartMaintenance
    | StopMaintenance
    | MaintSave(key: Key, content: nat)
    | MaintPublish(sha: Sha, newThumb: Option<Key>, newPreview: Option<Key>)
    | MaintDelete(key: Key)
    | BackupLifecycle
    | BackupObjects
    | BackupSlot
    | TakeSnapshot
    | CloseBackup

  predicate IsBegin(s: Step) { s.BeginUpload? || s.BeginDelete? || s.BeginRelease? || s.BeginCopy? }
  predicate IsLockStep(s: Step) { s.Acquire? || s.Obtain? || s.GiveUp? || s.GiveBack? || s.CountOut? }

  /** The steps of a thread that is already at work. */
  predicate IsThreadStep(s: Step) {
    !IsBegin(s) && !IsLockStep(s) && !IsProcessStep(s)
  }

  /** The steps taken outside any thread of the server. */
  predicate IsProcessStep(s: Step) {
    s.RemoveUser? || s.ClearCopies? || s.RecomputeUsage? || s.StartServer? || s.StopServer? ||
    s.StartMaintenance? || s.StopMaintenance? || s.MaintSave? || s.MaintPublish? || s.MaintDelete? ||
    s.BackupLifecycle? || s.BackupObjects? || s.BackupSlot? || s.TakeSnapshot? || s.CloseBackup?
  }

  function Become(w: World, t: Tid, wk: Work): World { w.(work := w.work[t := wk]) }

  function DueOf(wk: Work): Claim {
    match wk
    case RelLock(_, due) => due
    case RelCheck(_, due) => due
    case Pin(_, _, _, due) => due
    case Deleting(_, _, _, _, due) => due
    case DropBlob(_, due) => due
    case Unlock(_, due) => due
    case Leave(due) => due
    case Refund(due) => due
    case _ => NOTHING
  }

  // -- beginning

  predicate BeginEnabled(w: World, s: Step)
    requires IsBegin(s)
  {
    !w.server.Stopped? && s.t !in w.work && (s.BeginDelete? ==> s.id in w.db.files)
  }

  function BeginWork(w: World, s: Step): Work
    requires IsBegin(s) && BeginEnabled(w, s)
  {
    match s
    case BeginUpload(_, up) => UpLock(up)
    case BeginDelete(_, id, checked) => DelRow(id, w.db.files[id], checked)
    case BeginRelease(_, sha) => RelLock(sha, NOTHING)
    case BeginCopy(_, sha, kind) => CopyLock(sha, kind)
  }

  // -- the content lock

  function LockOf(w: World, s: Step): ContentLock.Step
    requires IsLockStep(s) && s.t in w.work
  {
    match s
    case Acquire(t, slot) => ContentLock.Enter(t, ShaOf(w.work[t]), slot)
    case Obtain(t) => ContentLock.Take(t)
    case GiveUp(t) => ContentLock.Cancel(t)
    case GiveBack(t) => ContentLock.Give(t)
    case CountOut(t) => ContentLock.Drop(t)
  }

  predicate LockEnabled(w: World, s: Step)
    requires IsLockStep(s)
  {
    && s.t in w.work
    && ContentLock.Enabled(w.locks, LockOf(w, s))
    && (s.Acquire? || s.Obtain? || s.GiveUp? ==> AtLock(w.work[s.t]))
    && (s.GiveBack? ==> w.work[s.t].Unlock?)
    && (s.CountOut? ==> w.work[s.t].Leave?)
  }

  /** What the thread does once the lock operation is through; None when it is finished. */
  function LockWork(wk: Work, s: Step): Option<Work>
    requires IsLockStep(s)
  {
    match s
    case Acquire(_, _) => Some(wk)
    case Obtain(_) =>
      Some(match wk
           case UpLock(up) => UpCheck(up)
           case RelLock(sha, due) => RelCheck(sha, due)
           case CopyLock(sha, kind) => CopyRead(sha, kind)
           case _ => wk)
    case GiveUp(_) => Some(Leave(DueOf(wk)))
    case GiveBack(_) => Some(Leave(DueOf(wk)))
    case CountOut(_) => if DueOf(wk).owner.Some? then Some(Refund(DueOf(wk))) else None
  }

  function WithWork(w: World, t: Tid, wk: Option<Work>): World {
    if wk.Some? then Become(w, t, wk.value) else w.(work := w.work - {t})
  }

  function LockStep(w: World, s: Step): World
    requires IsLockStep(s) && LockEnabled(w, s)
  {
    WithWork(w.(locks := ContentLock.Apply(w.locks, LockOf(w, s))), s.t, LockWork(w.work[s.t], s))
  }

  // -- the body of a thread

  function NewFile(wk: Work): File
    requires wk.ReuseInsert? || wk.UpInsert?
  {
    if wk.ReuseInsert? then File(wk.up.sha, wk.ext, wk.up.owner, wk.up.size)
    else File(wk.up.sha, wk.keys.original.ext, wk.up.owner, wk.up.size)
  }

  /** The object a Save step writes; a rendition the upload does not have is skipped. */
  function SaveKey(wk: Work): Option<Key> {
    match wk
    case UpSaveOriginal(_, keys) => Some(keys.original)
    case UpSaveThumb(_, keys) => keys.thumb
    case UpSavePreview(_, keys) => keys.preview
    case CopySave(_, _, key) => Some(key)
    case _ => None
  }

  predicate ThreadEnabled(w: World, s: Step)
    requires IsThreadStep(s)
  {
    s.t in w.work &&
    var wk := w.work[s.t];
    match s
    case Check(_, row) =>
      // any error of the lookup counts as nothing to reuse, so None is always possible
      wk.UpCheck? && (row.Some? ==> row.value in w.db.files && w.db.files[row.value].sha == wk.up.sha)
    case Process(_, _, _, _, _) => wk.UpProcess? || wk.UpProbe?
    case ClaimBytes(_, ok, written) => (wk.ReuseReserve? || wk.UpReserve?) && (ok ==> written)
    case Stat(_, _) => wk.UpStat?
    case Save(_, ok, written, content) =>
      && (wk.UpSaveOriginal? || wk.UpSaveThumb? || wk.UpSavePreview? || wk.CopySave?)
      && (ok ==> written)
      && (wk.UpSaveOriginal? ==> content == wk.up.sha)
    case Ensure(_, ok, written) => wk.UpEnsure? && (ok ==> written)
    case Insert(_, id, ok, written) =>
      (wk.ReuseInsert? || wk.UpInsert?) && (id in w.used ==> id in w.db.files) && (ok ==> written)
    case GiveRefund(_, _) => wk.ReuseRefund? || wk.UpRefund? || wk.Refund?
    case DiscardRead(_, _) => wk.Discard?
    case RelRead(_, _) => wk.RelCheck?
    case PinObjects(_, ok) =>
      wk.Pin? && (ok && w.server.Current? ==> w.backup.NoBackup? || w.backup.HasLifecycle?)
    case DeleteOne(_, ok, gone) => wk.Deleting? && wk.names != [] && (ok ==> gone)
    case Unpin(_) => wk.Deleting? && wk.names == []
    case DropRow(_, _) => wk.DropBlob?
    case DeleteRow(_, ok, written) => wk.DelRow? && (ok ==> written)
    case ReadCopy(_, _, _) => wk.CopyRead?
    case SetCopy(_, _) => wk.CopySet?
  }

  /** What a thread does next, as a function of what it was doing and what it reads. */
  ghost function NextWork(w: World, s: Step): Option<Work>
    requires IsThreadStep(s) && ThreadEnabled(w, s)
  {
    var wk := w.work[s.t];
    match s
    case Check(_, row) =>
      if row.Some? && wk.up.sha in w.db.blobs && Reusable(w.tag, w.db.files[row.value], w.db.blobs[wk.up.sha])
      then Some(ReuseReserve(wk.up.(size := w.db.files[row.value].size), w.db.files[row.value].ext))
      else Some(UpProcess(wk.up))
    case Process(_, ok, ext, thumb, preview) =>
      if wk.UpProcess? then
        if !ok then Some(Unlock(wk.up.sha, NOTHING))
        else if wk.up.video then Some(UpReserve(wk.up, ContentKeys(w.tag, wk.up.sha, ext, None, None)))
        else Some(UpReserve(wk.up, ContentKeys(w.tag, wk.up.sha, ext, thumb, preview)))
      else
        if !ok then Some(UpRefund(wk.up, wk.keys, true))
        else Some(UpSaveThumb(wk.up, ContentKeys(w.tag, wk.up.sha, wk.keys.original.ext, thumb, None)))
    case ClaimBytes(_, ok, _) =>
      if !ok || (wk.up.owner.Some? && !MayReserve(w.db, wk.up.owner.value, wk.up.size, w.limit))
      then Some(Unlock(wk.up.sha, NOTHING))
      else if wk.ReuseReserve? then Some(ReuseInsert(wk.up, wk.ext, 4))
      else Some(UpStat(wk.up, wk.keys))
    case Stat(_, ok) =>
      if !ok then Some(UpRefund(wk.up, wk.keys, false))
      else if wk.keys.original !in w.objects then Some(UpSaveOriginal(wk.up, wk.keys))
      else Some(AfterOriginal(wk.up, wk.keys))
    case Save(_, ok, _, _) =>
      if wk.UpSaveOriginal? then
        Some(if ok then AfterOriginal(wk.up, wk.keys) else UpRefund(wk.up, wk.keys, false))
      else if wk.UpSaveThumb? then
        Some(if ok || wk.keys.thumb.None? then UpSavePreview(wk.up, wk.keys) else UpRefund(wk.up, wk.keys, true))
      else if wk.UpSavePreview? then
        Some(if ok || wk.keys.preview.None? then UpEnsure(wk.up, wk.keys) else UpRefund(wk.up, wk.keys, true))
      else
        Some(if ok then CopySet(wk.sha, wk.kind, wk.key) else Unlock(wk.sha, NOTHING))
    case Ensure(_, ok, _) => Some(if ok then UpInsert(wk.up, wk.keys) else UpRefund(wk.up, wk.keys, true))
    case Insert(_, id, ok, _) =>
      var outcome := if ok then InsertOutcome(w.db, id, NewFile(wk), w.limit) else Refused;
      if outcome.Inserted? then Some(Unlock(wk.up.sha, NOTHING))
      else if wk.UpInsert? then Some(UpRefund(wk.up, wk.keys, true))
      else if outcome.Conflict? && wk.tries > 1 then Some(ReuseInsert(wk.up, wk.ext, wk.tries - 1))
      else Some(ReuseRefund(wk.up))
    case GiveRefund(_, _) =>
      if wk.Refund? then None
      else if wk.UpRefund? && wk.discard then Some(Discard(wk.up.sha, wk.keys.All()))
      else Some(Unlock(wk.up.sha, NOTHING))
    case DiscardRead(_, failed) =>
      if failed || wk.sha !in w.db.blobs then Some(Pin(wk.sha, wk.names, false, NOTHING))
      else if w.db.blobs[wk.sha].Orphaned() then Some(RelCheck(wk.sha, NOTHING))
      else Some(Unlock(wk.sha, NOTHING))
    case RelRead(_, failed) =>
      if !failed && wk.sha in w.db.blobs && w.db.blobs[wk.sha].Orphaned()
      then Some(Pin(wk.sha, w.db.blobs[wk.sha].Keys(), true, wk.due))
      else Some(Unlock(wk.sha, wk.due))
    case PinObjects(_, ok) =>
      Some(if ok then Deleting(wk.sha, wk.names, true, wk.drop, wk.due) else Unlock(wk.sha, wk.due))
    case DeleteOne(_, ok, _) => Some(Deleting(wk.sha, wk.names[1..], wk.ok && ok, wk.drop, wk.due))
    case Unpin(_) => Some(if wk.drop && wk.ok then DropBlob(wk.sha, wk.due) else Unlock(wk.sha, wk.due))
    case DropRow(_, _) => Some(Unlock(wk.sha, wk.due))
    case DeleteRow(_, ok, _) =>
      if !ok || (wk.checked && wk.id !in w.db.files) then None
      else Some(RelLock(wk.file.sha, Claim(wk.file.owner, wk.file.size)))
    case ReadCopy(_, rebuild, failed) =>
      if failed || wk.sha !in w.db.blobs then Some(Unlock(wk.sha, NOTHING))
      else if wk.kind in w.db.blobs[wk.sha].copies && (wk.kind.Clean? || !rebuild) then Some(Unlock(wk.sha, NOTHING))
      else Some(CopySave(wk.sha, wk.kind, Filtered(wk.sha, wk.kind, w.db.blobs[wk.sha].original.ext)))
    case SetCopy(_, _) => Some(Unlock(wk.sha, NOTHING))
  }

  /** A still goes on to its renditions, a clip is probed first. */
  function AfterOriginal(up: Up, keys: Keys): Work {
    if up.video then UpProbe(up, keys) else UpSaveThumb(up, keys)
  }

  function ReleaseTo(db: Db, owner: Option<User>, size: nat): Db {
    if owner.Some? then Release(db, owner.value, size) else db
  }

  /** What a thread's step does to the tables. */
  ghost function NextDb(w: World, s: Step): Db
    requires IsThreadStep(s) && ThreadEnabled(w, s)
  {
    var wk := w.work[s.t];
    match s
    case ClaimBytes(_, _, written) =>
      if written && wk.up.owner.Some? && MayReserve(w.db, wk.up.owner.value, wk.up.size, w.limit)
      then Reserve(w.db, wk.up.owner.value, wk.up.size) else w.db
    case Ensure(_, _, written) =>
      if written then EnsureBlob(w.db, wk.up.sha, wk.up.size, wk.keys.original, wk.keys.thumb, wk.keys.preview) else w.db
    case Insert(_, id, _, written) =>
      if written && InsertOutcome(w.db, id, NewFile(wk), w.limit).Inserted? then InsertFile(w.db, id, NewFile(wk)) else w.db
    case GiveRefund(_, ok) =>
      if !ok then w.db
      else if wk.Refund? then ReleaseTo(w.db, wk.due.owner, wk.due.size) else ReleaseTo(w.db, wk.up.owner, wk.up.size)
    case DropRow(_, ok) => if ok then DeleteBlobIfUnreferenced(w.db, wk.sha) else w.db
    case DeleteRow(_, _, written) => if written then DeleteFiles(w.db, {wk.id}) else w.db
    case SetCopy(_, ok) => if ok then SetCopyKey(w.db, wk.sha, wk.kind, wk.key) else w.db
    case _ => w.db
  }

  /** What it does to the object store. */
  function NextObjects(w: World, s: Step): map<Key, nat>
    requires IsThreadStep(s) && ThreadEnabled(w, s)
  {
    match s
    case Save(t, _, written, content) =>
      if written && SaveKey(w.work[t]).Some? then w.objects[SaveKey(w.work[t]).value := content] else w.objects
    case DeleteOne(t, _, gone) => if gone then w.objects - {w.work[t].names[0]} else w.objects
    case _ => w.objects
  }

  function NextPins(w: World, s: Step): set<Tid>
    requires IsThreadStep(s) && ThreadEnabled(w, s)
  {
    match s
    case PinObjects(t, ok) => if ok && w.server.Current? then w.pins + {t} else w.pins
    case Unpin(t) => w.pins - {t}
    case _ => w.pins
  }

  ghost function ThreadStep(w: World, s: Step): World
    requires IsThreadStep(s) && ThreadEnabled(w, s)
  {
    WithWork(w.(db := NextDb(w, s), objects := NextObjects(w, s), pins := NextPins(w, s),
                used := if s.Insert? then w.used + NextDb(w, s).files.Keys else w.used),
             s.t, NextWork(w, s))
  }

  // -- processes

  predicate ProcessEnabled(w: World, s: Step)
    requires IsProcessStep(s)
  {
    match s
    case RemoveUser(u) => !w.maintenance && u in w.db.used
    case ClearCopies(_) => !w.server.Stopped?
    case RecomputeUsage => !w.server.Stopped?
    case StartServer(older, _) => w.server.Stopped? && !w.maintenance && (older ==> !w.backup.HasAll?)
    case StopServer => true
    case StartMaintenance => w.server.Stopped? && w.backup.NoBackup?
    case StopMaintenance => w.maintenance
    case MaintSave(key, _) => w.maintenance && key.Rebuilt?
    case MaintPublish(sha, thumb, preview) =>
      && w.maintenance
      && sha in w.db.blobs && !w.db.blobs[sha].Orphaned()
      && (forall k :: k in OptionSet(thumb) + OptionSet(preview) ==> k.Rebuilt? && k.sha == sha && k in w.objects)
    case MaintDelete(key) => w.maintenance && forall sha :: sha in w.db.blobs ==> key !in w.db.blobs[sha].Keys()
    case BackupLifecycle => w.backup.NoBackup? && !w.maintenance
    case BackupObjects => w.backup.HasLifecycle? && w.pins == {}
    case BackupSlot => w.backup.HasObjects?
    case TakeSnapshot => w.backup.HasAll? && w.backup.snapshot.None?
    case CloseBackup => true
  }

  ghost function ProcessStep(w: World, s: Step): World
    requires IsProcessStep(s) && ProcessEnabled(w, s)
  {
    match s
    case RemoveUser(u) => w.(db := DeleteUser(w.db, u))
    case ClearCopies(sha) => w.(db := ClearCopyKeys(w.db, sha))
    case RecomputeUsage => w.(db := Recompute(w.db))
    case StartServer(older, newTag) => w.(server := if older then Older else Current, tag := newTag)
    case StopServer => w.(server := Stopped, work := map[], locks := ContentLock.EMPTY, pins := {})
    case StartMaintenance => w.(maintenance := true)
    case StopMaintenance => w.(maintenance := false)
    case MaintSave(key, content) => w.(objects := w.objects[key := content])
    case MaintPublish(sha, thumb, preview) =>
      w.(db := w.db.(blobs := w.db.blobs[sha := w.db.blobs[sha].(thumb := thumb, preview := preview)]))
    case MaintDelete(key) => w.(objects := w.objects - {key})
    case BackupLifecycle => w.(backup := HasLifecycle)
    case BackupObjects => w.(backup := HasObjects)
    case BackupSlot => w.(backup := if w.server.Older? then NoBackup else HasAll(None))
    case TakeSnapshot => w.(backup := HasAll(Some(w.db)))
    case CloseBackup => w.(backup := NoBackup)
  }

  // -- all together

  predicate Enabled(w: World, s: Step) {
    if IsBegin(s) then BeginEnabled(w, s)
    else if IsLockStep(s) then LockEnabled(w, s)
    else if IsProcessStep(s) then ProcessEnabled(w, s)
    else ThreadEnabled(w, s)
  }

  ghost function Apply(w: World, s: Step): World
    requires Enabled(w, s)
  {
    if IsBegin(s) then Become(w, s.t, BeginWork(w, s))
    else if IsLockStep(s) then LockStep(w, s)
    else if IsProcessStep(s) then ProcessStep(w, s)
    else ThreadStep(w, s)
  }

  /** The kinds of step, one at a time. */
  lemma ApplyIs(w: World, s: Step)
    requires Enabled(w, s)
    ensures IsThreadStep(s) ==> ThreadEnabled(w, s) && Apply(w, s) == ThreadStep(w, s)
    ensures IsLockStep(s) ==> LockEnabled(w, s) && Apply(w, s) == LockStep(w, s)
    ensures IsBegin(s) ==> BeginEnabled(w, s) && Apply(w, s) == Become(w, s.t, BeginWork(w, s))
    ensures IsProcessStep(s) ==> ProcessEnabled(w, s) && Apply(w, s) == ProcessStep(w, s)
    ensures IsThreadStep(s) || IsLockStep(s) || IsBegin(s) || IsProcessStep(s)
  {
    hide BeginEnabled, LockEnabled, ThreadEnabled, ProcessEnabled, BeginWork, LockStep, ThreadStep, ProcessStep;
  }

  /** What a thread's step cannot touch. */
  lemma ThreadFrame(w: World, s: Step)
    requires IsThreadStep(s) && ThreadEnabled(w, s)
    ensures s.t in w.work
    ensures var m := ThreadStep(w, s);
            && m.db == NextDb(w, s) && m.objects == NextObjects(w, s) && m.pins == NextPins(w, s)
            && m.locks == w.locks && m.server == w.server && m.maintenance == w.maintenance && m.backup == w.backup
            && m.limit == w.limit && m.tag == w.tag
            && m.used == (if s.Insert? then w.used + NextDb(w, s).files.Keys else w.used)
            && m.work == (if NextWork(w, s).Some? then w.work[s.t := NextWork(w, s).value] else w.work - {s.t})
  {
    hide NextWork, NextDb, NextObjects, NextPins;
  }

  lemma LockFrame(w: World, s: Step)
    requires IsLockStep(s) && LockEnabled(w, s)
    ensures s.t in w.work
    ensures var m, next := LockStep(w, s), LockWork(w.work[s.t], s);
            && m.db == w.db && m.objects == w.objects && m.pins == w.pins && m.used == w.used
            && m.server == w.server && m.maintenance == w.maintenance && m.backup == w.backup
            && m.limit == w.limit && m.tag == w.tag
            && m.locks == ContentLock.Apply(w.locks, LockOf(w, s))
            && m.work == (if next.Some? then w.work[s.t := next.value] else w.work - {s.t})
  {
    hide LockWork, ContentLock.Apply;
  }

  /** An installation before its first upload: accounts with nothing stored, and no object. */
  ghost predicate Initial(w: World) {
    && w.db.files == map[] && w.db.blobs == map[] && w.objects == map[]
    && (forall u :: u in w.db.used ==> w.db.used[u] == 0)
    && w.locks == ContentLock.EMPTY && w.work == map[] && w.used == {}
    && w.server.Stopped? && !w.maintenance && w.pins == {} && w.backup.NoBackup?
  }

  /** Every run: the world after a sequence of steps, None if one of them was not enabled. */
  ghost function Run(w: World, steps: seq<Step>): Option<World> {
    if steps == [] then Some(w)
    else
      match Run(w, steps[..|steps| - 1])
      case None => None
      case Some(m) => var s := steps[|steps| - 1]; if Enabled(m, s) then Some(Apply(m, s)) else None
  }
}
