/** Copying a conversation into a forked workspace (fork.rs).

The database is its tables, with the constraints its schema declares. The columns that are copied without
being looked at are one `body`. Every identifier the source draws at random comes from `uuid`, one per slot,
all distinct and new to the database; `sha` is the digest that addresses blobs, free of collisions. */
module Fork {
  import opened Text

  type Bytes = seq<int>

  datatype Message = Message(id: string, workspaceId: string, sessionId: string, body: string)

  datatype Checkpoint = Checkpoint(
    id: string, workspaceId: string, sessionId: string, messageId: string, commitHash: Option<string>,
    turnIndex: int, messageCount: int)

  /** A snapshot file: its bytes are in the blob store, or in the row itself if it has not been migrated. */
  datatype FileRow = FileRow(
    id: string, checkpointId: string, path: string, mode: nat, blob: Option<string>, content: Option<Bytes>)

  datatype Activity = Activity(id: string, checkpointId: string, body: string)

  datatype Tables = Tables(
    messages: seq<Message>, checkpoints: seq<Checkpoint>, files: seq<FileRow>, blobs: map<string, Bytes>,
    activities: seq<Activity>, sessions: map<string, string>)
  {
    /** Blob references resolve, and a blob is filed under its own digest. */
    ghost predicate Valid(sha: Bytes -> string) {
      && (forall f :: f in files && f.blob.Some? ==> f.blob.value in blobs)
      && (forall s :: s in blobs ==> sha(blobs[s]) == s)
      && DistinctIds(messages)
    }
  }

  ghost predicate DistinctIds(messages: seq<Message>) {
    forall i, j :: 0 <= i < j < |messages| ==> messages[i].id != messages[j].id
  }

  // ---------- Queries ----------

  function MessagesIn(messages: seq<Message>, ws: string): seq<Message> {
    Keep(messages, (m: Message) => m.workspaceId == ws)
  }

  /** The messages up to and including the one with the given id; none if there is no such message. */
  function UpTo(messages: seq<Message>, id: string): (r: seq<Message>)
    ensures r <= messages
    ensures r != [] ==> r[|r| - 1].id == id
    ensures (exists m :: m in messages && m.id == id) ==> r != []
  {
    if messages == [] then []
    else if messages[|messages| - 1].id == id then messages
    else UpTo(messages[..|messages| - 1], id)
  }

  function ListMessagesUpTo(db: Tables, ws: string, id: string): seq<Message> {
    UpTo(MessagesIn(db.messages, ws), id)
  }

  /** The query for checkpoints up to a turn: exactly those rows, each once, in turn order. */
  ghost predicate IsListing(db: Tables, ws: string, maxTurn: int, listed: seq<Checkpoint>) {
    && (forall c :: c in listed <==> c in db.checkpoints && c.workspaceId == ws && c.turnIndex <= maxTurn)
    && (forall i, j :: 0 <= i < j < |listed| ==>
          listed[i].turnIndex <= listed[j].turnIndex && listed[i].id != listed[j].id)
  }

  /** The elements that satisfy `p`, in order. */
  function Keep<T>(s: seq<T>, p: T -> bool): seq<T> {
    if s == [] then [] else (if p(s[0]) then [s[0]] else []) + Keep(s[1..], p)
  }

  lemma {:induction false} KeepAppend<T>(s: seq<T>, t: seq<T>, p: T -> bool)
    ensures Keep(s + t, p) == Keep(s, p) + Keep(t, p)
  {
    if s == [] {
      assert s + t == t;
    } else {
      KeepAppend(s[1..], t, p);
      var head, a, b := if p(s[0]) then [s[0]] else [], Keep(s[1..], p), Keep(t, p);
      assert (s + t)[0] == s[0];
      assert (s + t)[1..] == s[1..] + t;
      assert Keep(s + t, p) == head + (a + b);
      assert head + (a + b) == (head + a) + b;
    }
  }

  lemma {:induction false} KeepUniform<T>(s: seq<T>, p: T -> bool, b: bool)
    requires forall i :: 0 <= i < |s| ==> p(s[i]) == b
    ensures Keep(s, p) == if b then s else []
  {
    if s != [] {
      KeepUniform(s[1..], p, b);
    }
  }

  lemma {:induction false} KeptIn<T>(s: seq<T>, p: T -> bool, x: T)
    requires x in Keep(s, p)
    ensures x in s && p(x)
  {
    if x != s[0] || !p(s[0]) {
      KeptIn(s[1..], p, x);
    }
  }

  lemma {:induction false} KeepExactly<T>(s: seq<T>, p: T -> bool, x: T)
    ensures x in Keep(s, p) <==> x in s && p(x)
  {
    if s != [] {
      KeepExactly(s[1..], p, x);
      assert s == [s[0]] + s[1..];
    }
  }

  lemma {:induction false} UpToPrefix(a: seq<Message>, b: seq<Message>, id: string)
    requires a != [] && a[|a| - 1].id == id && forall m :: m in b ==> m.id != id
    ensures UpTo(a + b, id) == a
  {
    if b == [] {
      assert a + b == a;
    } else {
      assert b[|b| - 1] in b;
      assert (a + b)[..|a + b| - 1] == a + b[..|b| - 1];
      UpToPrefix(a, b[..|b| - 1], id);
    }
  }

  /** The messages that are copied: those of the source workspace, in order, up to and including the one the fork
      hangs on. */
  lemma SourceExactly(db: Tables, ws: string, k: nat)
    requires DistinctIds(db.messages) && k < |db.messages| && db.messages[k].workspaceId == ws
    ensures ListMessagesUpTo(db, ws, db.messages[k].id) == MessagesIn(db.messages[..k + 1], ws)
    ensures forall m :: m in MessagesIn(db.messages[..k + 1], ws) <==> m in db.messages[..k + 1] && m.workspaceId == ws
  {
    var mine, m := (m: Message) => m.workspaceId == ws, db.messages[k];
    var before, after := db.messages[..k], db.messages[k + 1..];
    assert db.messages == before + [m] + after && db.messages[..k + 1] == before + [m];
    KeepAppend(before + [m], after, mine);
    KeepAppend(before, [m], mine);
    KeepUniform([m], mine, true);
    forall x | x in Keep(after, mine)
      ensures x.id != m.id
    {
      KeptIn(after, mine, x);
      var i :| 0 <= i < |after| && after[i] == x;
      assert db.messages[k + 1 + i] == x;
    }
    UpToPrefix(Keep(before + [m], mine), Keep(after, mine), m.id);
    forall x
      ensures x in MessagesIn(before + [m], ws) <==> x in before + [m] && x.workspaceId == ws
    {
      KeepExactly(before + [m], mine, x);
    }
  }

  /** None are copied if the workspace has no such message. */
  lemma NoSource(db: Tables, ws: string, id: string)
    requires forall m :: m in db.messages && m.workspaceId == ws ==> m.id != id
    ensures ListMessagesUpTo(db, ws, id) == []
  {
    var r := ListMessagesUpTo(db, ws, id);
    if r != [] {
      assert r[|r| - 1] in MessagesIn(db.messages, ws);
      KeptIn(db.messages, (m: Message) => m.workspaceId == ws, r[|r| - 1]);
    }
  }

  function FilesOf(files: seq<FileRow>, checkpointId: string): seq<FileRow> {
    Keep(files, (f: FileRow) => f.checkpointId == checkpointId)
  }

  function ActivitiesOf(activities: seq<Activity>, checkpointId: string): seq<Activity> {
    Keep(activities, (a: Activity) => a.checkpointId == checkpointId)
  }

  /** A snapshot file as it is restored: path, mode and bytes. */
  function Restored(blobs: map<string, Bytes>, f: FileRow): (string, nat, Option<Bytes>) {
    (f.path, f.mode, if f.blob.Some? && f.blob.value in blobs then Some(blobs[f.blob.value]) else f.content)
  }

  function RestoredAll(blobs: map<string, Bytes>, files: seq<FileRow>): (r: seq<(string, nat, Option<Bytes>)>)
    ensures |r| == |files|
  {
    seq(|files|, i requires 0 <= i < |files| => Restored(blobs, files[i]))
  }

  /** What restoring a checkpoint writes. */
  function Snapshot(db: Tables, checkpointId: string): seq<(string, nat, Option<Bytes>)> {
    RestoredAll(db.blobs, FilesOf(db.files, checkpointId))
  }

  function Bodies(activities: seq<Activity>): (r: seq<string>)
    ensures |r| == |activities|
  {
    seq(|activities|, i requires 0 <= i < |activities| => activities[i].body)
  }

  // ---------- Fresh identifiers ----------

  datatype Slot = MessageSlot(i: nat) | CheckpointSlot(i: nat) | FileSlot(i: nat, k: nat) | ActivitySlot(i: nat, k: nat)

  /** Every drawn identifier is new to the database, and no two are the same. */
  ghost predicate Fresh(db: Tables, uuid: Slot -> string) {
    FreshForCheckpoints(db, uuid) && forall s, m :: m in db.messages ==> uuid(s) != m.id
  }

  ghost predicate FreshForCheckpoints(db: Tables, uuid: Slot -> string) {
    && (forall s, t :: uuid(s) == uuid(t) ==> s == t)
    && (forall s, c :: c in db.checkpoints ==> uuid(s) != c.id)
    && (forall s, f :: f in db.files ==> uuid(s) != f.checkpointId)
    && (forall s, a :: a in db.activities ==> uuid(s) != a.checkpointId)
  }

  ghost predicate CollisionFree(sha: Bytes -> string) {
    forall a, b :: sha(a) == sha(b) ==> a == b
  }

  // ---------- Insertions ----------

  /** A copied file refers to its bytes: by the source's reference, or by the digest of the source's bytes. */
  function Reference(f: FileRow, sha: Bytes -> string): Option<string> {
    match (f.blob, f.content)
    case (Some(s), _) => Some(s)
    case (None, Some(bytes)) => Some(sha(bytes))
    case (None, None) => None
  }

  /** Bytes that come with the row are filed, unless they are there already. */
  function Filed(blobs: map<string, Bytes>, f: FileRow, sha: Bytes -> string): map<string, Bytes> {
    if f.blob.None? && f.content.Some? && sha(f.content.value) !in blobs then
      blobs[sha(f.content.value) := f.content.value]
    else blobs
  }

  function FileCopy(id: string, checkpointId: string, f: FileRow, sha: Bytes -> string): FileRow {
    FileRow(id, checkpointId, f.path, f.mode, Reference(f, sha), None)
  }

  function InsertFile(db: Tables, id: string, checkpointId: string, f: FileRow, sha: Bytes -> string): Tables {
    db.(files := db.files + [FileCopy(id, checkpointId, f, sha)], blobs := Filed(db.blobs, f, sha))
  }

  function CopyFiles(db: Tables, files: seq<FileRow>, j: nat, uuid: Slot -> string, sha: Bytes -> string): Tables {
    if files == [] then db
    else
      var k := |files| - 1;
      InsertFile(CopyFiles(db, files[..k], j, uuid, sha), uuid(FileSlot(j, k)), uuid(CheckpointSlot(j)), files[k], sha)
  }

  function ActivityCopies(activities: seq<Activity>, j: nat, uuid: Slot -> string): (r: seq<Activity>)
    ensures |r| == |activities|
    ensures forall k :: 0 <= k < |r| ==> r[k].checkpointId == uuid(CheckpointSlot(j)) && r[k].body == activities[k].body
  {
    seq(|activities|, k requires 0 <= k < |activities| =>
      Activity(uuid(ActivitySlot(j, k)), uuid(CheckpointSlot(j)), activities[k].body))
  }

  lemma FilesOfPush(files: seq<FileRow>, f: FileRow, id: string)
    ensures FilesOf(files + [f], id) == FilesOf(files, id) + if f.checkpointId == id then [f] else []
  {
    KeepAppend(files, [f], (f: FileRow) => f.checkpointId == id);
    KeepUniform([f], (f: FileRow) => f.checkpointId == id, f.checkpointId == id);
  }

  /** `db'` has grown from `db`: old rows are all there, first and unchanged, and no blob has changed. */
  ghost predicate Extends(db: Tables, db': Tables) {
    && db.messages <= db'.messages && db.checkpoints <= db'.checkpoints
    && db.files <= db'.files && db.activities <= db'.activities
    && (forall s :: s in db.blobs ==> s in db'.blobs && db'.blobs[s] == db.blobs[s])
    && db'.sessions == db.sessions
  }

  ghost predicate Resolve(blobs: map<string, Bytes>, files: seq<FileRow>) {
    forall f :: f in files && f.blob.Some? ==> f.blob.value in blobs
  }

  /** New blobs do not change what existing rows restore. */
  lemma RestoredStable(blobs: map<string, Bytes>, blobs': map<string, Bytes>, files: seq<FileRow>)
    requires Resolve(blobs, files) && forall s :: s in blobs ==> s in blobs' && blobs'[s] == blobs[s]
    ensures RestoredAll(blobs', files) == RestoredAll(blobs, files)
  {
    forall i | 0 <= i < |files|
      ensures Restored(blobs', files[i]) == Restored(blobs, files[i])
    {
      assert files[i] in files;
    }
  }

  lemma FilesResolve(db: Tables, cp: string, sha: Bytes -> string)
    requires db.Valid(sha)
    ensures Resolve(db.blobs, FilesOf(db.files, cp))
  {
    forall f | f in FilesOf(db.files, cp)
      ensures f in db.files
    {
      KeptIn(db.files, (f: FileRow) => f.checkpointId == cp, f);
    }
  }

  lemma RestoredPush(blobs: map<string, Bytes>, files: seq<FileRow>, f: FileRow)
    ensures RestoredAll(blobs, files + [f]) == RestoredAll(blobs, files) + [Restored(blobs, f)]
  {
  }

  /** What copying files leaves as it was. */
  ghost predicate OnlyFiles(db: Tables, db': Tables, cp: string) {
    && Extends(db, db') && db'.messages == db.messages && db'.checkpoints == db.checkpoints
    && db'.activities == db.activities
    && forall id :: id != cp ==> FilesOf(db'.files, id) == FilesOf(db.files, id)
  }

  /** Copying a checkpoint's files gives the new checkpoint a snapshot that restores the same bytes. */
  lemma {:induction false} CopyFilesEffect(
    db: Tables, files: seq<FileRow>, j: nat, uuid: Slot -> string, sha: Bytes -> string)
    requires db.Valid(sha) && CollisionFree(sha) && Resolve(db.blobs, files)
    requires FilesOf(db.files, uuid(CheckpointSlot(j))) == []
    ensures var db' := CopyFiles(db, files, j, uuid, sha);
            && db'.Valid(sha) && OnlyFiles(db, db', uuid(CheckpointSlot(j)))
            && Snapshot(db', uuid(CheckpointSlot(j))) == RestoredAll(db.blobs, files)
  {
    var cp := uuid(CheckpointSlot(j));
    if files == [] {
      assert RestoredAll(db.blobs, FilesOf(db.files, cp)) == RestoredAll(db.blobs, files);
    } else {
      var k := |files| - 1;
      var rest, f := files[..k], files[k];
      CopyFilesEffect(db, rest, j, uuid, sha);
      var mid := CopyFiles(db, rest, j, uuid, sha);
      InsertFileStep(mid, uuid(FileSlot(j, k)), cp, f, sha);
      RestoredPush(db.blobs, rest, f);
      assert files == rest + [f];
    }
  }

  lemma InsertFileStep(db: Tables, id: string, cp: string, f: FileRow, sha: Bytes -> string)
    requires db.Valid(sha) && CollisionFree(sha) && (f.blob.Some? ==> f.blob.value in db.blobs)
    ensures var db' := InsertFile(db, id, cp, f, sha);
            && db'.Valid(sha) && OnlyFiles(db, db', cp)
            && Snapshot(db', cp) == Snapshot(db, cp) + [Restored(db.blobs, f)]
  {
    var db' := InsertFile(db, id, cp, f, sha);
    var row := db'.files[|db.files|];
    forall other
      ensures FilesOf(db'.files, other) == FilesOf(db.files, other) + if other == cp then [row] else []
    {
      FilesOfPush(db.files, row, other);
    }
    FilesResolve(db, cp, sha);
    RestoredStable(db.blobs, db'.blobs, FilesOf(db.files, cp));
    RestoredPush(db'.blobs, FilesOf(db.files, cp), row);
  }

  lemma ActivitiesAppended(activities: seq<Activity>, more: seq<Activity>, cp: string, id: string)
    requires forall k :: 0 <= k < |more| ==> more[k].checkpointId == cp
    ensures ActivitiesOf(activities + more, id) == ActivitiesOf(activities, id) + if id == cp then more else []
  {
    KeepAppend(activities, more, (a: Activity) => a.checkpointId == id);
    KeepUniform(more, (a: Activity) => a.checkpointId == id, id == cp);
  }

  // ---------- One checkpoint ----------

  function CheckpointCopy(
    c: Checkpoint, j: nat, ws: string, session: string, messageId: string, uuid: Slot -> string): Checkpoint
  {
    Checkpoint(uuid(CheckpointSlot(j)), ws, session, messageId, c.commitHash, c.turnIndex, c.messageCount)
  }

  /** The tables after copying checkpoint `c`, its files and its activities. */
  function WithCheckpoint(db: Tables, c: Checkpoint, copy: Checkpoint, activities: seq<Activity>, j: nat,
                          uuid: Slot -> string, sha: Bytes -> string): Tables {
    var db1 := db.(checkpoints := db.checkpoints + [copy]);
    var db2 := CopyFiles(db1, FilesOf(db1.files, c.id), j, uuid, sha);
    db2.(activities := db2.activities + ActivityCopies(activities, j, uuid))
  }

  /** Checkpoint `id` has the same snapshot and the same activities in both. */
  ghost predicate SameCheckpoint(db: Tables, db': Tables, id: string) {
    Snapshot(db', id) == Snapshot(db, id) && ActivitiesOf(db'.activities, id) == ActivitiesOf(db.activities, id)
  }

  /** Checkpoint `id'` of `db'` is a copy of checkpoint `id` of `db`. */
  ghost predicate CopiedCheckpoint(db: Tables, id: string, db': Tables, id': string) {
    && Snapshot(db', id') == Snapshot(db, id)
    && Bodies(ActivitiesOf(db'.activities, id')) == Bodies(ActivitiesOf(db.activities, id))
  }

  lemma WithCheckpointEffect(
    db: Tables, c: Checkpoint, copy: Checkpoint, j: nat, uuid: Slot -> string, sha: Bytes -> string)
    requires db.Valid(sha) && CollisionFree(sha)
    requires FilesOf(db.files, uuid(CheckpointSlot(j))) == []
    requires ActivitiesOf(db.activities, uuid(CheckpointSlot(j))) == []
    ensures var db' := WithCheckpoint(db, c, copy, ActivitiesOf(db.activities, c.id), j, uuid, sha);
            && db'.Valid(sha) && Extends(db, db')
            && db'.messages == db.messages && db'.checkpoints == db.checkpoints + [copy]
            && CopiedCheckpoint(db, c.id, db', uuid(CheckpointSlot(j)))
            && forall id :: id != uuid(CheckpointSlot(j)) ==> SameCheckpoint(db, db', id)
  {
    var copied := uuid(CheckpointSlot(j));
    var db1 := db.(checkpoints := db.checkpoints + [copy]);
    FilesResolve(db, c.id, sha);
    CopyFilesEffect(db1, FilesOf(db.files, c.id), j, uuid, sha);
    var db2 := CopyFiles(db1, FilesOf(db.files, c.id), j, uuid, sha);
    var more := ActivityCopies(ActivitiesOf(db.activities, c.id), j, uuid);
    forall id
      ensures ActivitiesOf(db2.activities + more, id)
           == ActivitiesOf(db.activities, id) + if id == copied then more else []
    {
      ActivitiesAppended(db.activities, more, copied, id);
    }
    forall id | id != copied
      ensures Snapshot(db2, id) == Snapshot(db, id)
    {
      FilesResolve(db, id, sha);
      RestoredStable(db.blobs, db2.blobs, FilesOf(db.files, id));
    }
    assert Bodies(more) == Bodies(ActivitiesOf(db.activities, c.id));
  }

  // ---------- The whole history ----------

  datatype CopyResult = Copied | InconsistentHistory

  function MessageCopies(source: seq<Message>, ws: string, session: string, uuid: Slot -> string): (r: seq<Message>)
    ensures |r| == |source|
  {
    seq(|source|, i requires 0 <= i < |source| => Message(uuid(MessageSlot(i)), ws, session, source[i].body))
  }

  /** The new id of each copied message. */
  ghost predicate MapsIds(ids: map<string, string>, source: seq<Message>, n: nat, uuid: Slot -> string)
    requires n <= |source|
  {
    && (forall i :: 0 <= i < n ==> source[i].id in ids && ids[source[i].id] == uuid(MessageSlot(i)))
    && (forall id :: id in ids ==> exists i :: 0 <= i < n && source[i].id == id)
  }

  function CheckpointCopies(listed: seq<Checkpoint>, n: nat, ids: map<string, string>, ws: string, session: string,
                            uuid: Slot -> string): (r: seq<Checkpoint>)
    requires n <= |listed| && forall j :: 0 <= j < n ==> listed[j].messageId in ids
    ensures |r| == n
  {
    seq(n, j requires 0 <= j < n => CheckpointCopy(listed[j], j, ws, session, ids[listed[j].messageId], uuid))
  }

  /** The copy of checkpoints `0..n` so far: each new one restores and shows what its source does, and all
      other checkpoints are as before. */
  ghost predicate CheckpointsCopied(db: Tables, db': Tables, listed: seq<Checkpoint>, n: nat, uuid: Slot -> string)
    requires n <= |listed|
  {
    && (forall j :: 0 <= j < n ==> CopiedCheckpoint(db, listed[j].id, db', uuid(CheckpointSlot(j))))
    && (forall id :: (forall j :: 0 <= j < n ==> id != uuid(CheckpointSlot(j))) ==> SameCheckpoint(db, db', id))
  }

  lemma FreshHasNoRows(db: Tables, uuid: Slot -> string, s: Slot)
    requires FreshForCheckpoints(db, uuid)
    ensures FilesOf(db.files, uuid(s)) == [] && ActivitiesOf(db.activities, uuid(s)) == []
  {
    assert forall i :: 0 <= i < |db.files| ==> db.files[i] in db.files;
    assert forall i :: 0 <= i < |db.activities| ==> db.activities[i] in db.activities;
    KeepUniform(db.files, (f: FileRow) => f.checkpointId == uuid(s), false);
    KeepUniform(db.activities, (a: Activity) => a.checkpointId == uuid(s), false);
  }

  /** Before checkpoint `n` is copied its source is as it was, and nothing bears its new id. */
  lemma BeforeCopy(db: Tables, mid: Tables, listed: seq<Checkpoint>, n: nat, uuid: Slot -> string)
    requires n < |listed| && listed[n] in db.checkpoints && FreshForCheckpoints(db, uuid)
    requires CheckpointsCopied(db, mid, listed, n, uuid)
    ensures SameCheckpoint(db, mid, listed[n].id)
    ensures FilesOf(mid.files, uuid(CheckpointSlot(n))) == []
    ensures ActivitiesOf(mid.activities, uuid(CheckpointSlot(n))) == []
  {
    var cp := uuid(CheckpointSlot(n));
    assert forall j :: 0 <= j < n ==> cp != uuid(CheckpointSlot(j));
    assert SameCheckpoint(db, mid, cp);
    FreshHasNoRows(db, uuid, CheckpointSlot(n));
    assert |FilesOf(mid.files, cp)| == |Snapshot(mid, cp)| == |Snapshot(db, cp)| == 0;
  }

  lemma AfterCopy(db: Tables, mid: Tables, db': Tables, listed: seq<Checkpoint>, n: nat, uuid: Slot -> string)
    requires n < |listed| && FreshForCheckpoints(db, uuid) && CheckpointsCopied(db, mid, listed, n, uuid)
    requires SameCheckpoint(db, mid, listed[n].id)
    requires CopiedCheckpoint(mid, listed[n].id, db', uuid(CheckpointSlot(n)))
    requires forall id :: id != uuid(CheckpointSlot(n)) ==> SameCheckpoint(mid, db', id)
    ensures CheckpointsCopied(db, db', listed, n + 1, uuid)
  {
    forall j | 0 <= j < n + 1
      ensures CopiedCheckpoint(db, listed[j].id, db', uuid(CheckpointSlot(j)))
    {
      if j < n {
        assert uuid(CheckpointSlot(j)) != uuid(CheckpointSlot(n));
        assert SameCheckpoint(mid, db', uuid(CheckpointSlot(j)));
      }
    }
    forall id | forall j :: 0 <= j < n + 1 ==> id != uuid(CheckpointSlot(j))
      ensures SameCheckpoint(db, db', id)
    {
      assert SameCheckpoint(mid, db', id);
      assert SameCheckpoint(db, mid, id);
    }
  }

  /** Copying one more checkpoint. */
  lemma OneMoreCheckpoint(db: Tables, mid: Tables, listed: seq<Checkpoint>, n: nat, copy: Checkpoint,
                          uuid: Slot -> string, sha: Bytes -> string)
    requires n < |listed| && listed[n] in db.checkpoints
    requires FreshForCheckpoints(db, uuid) && CollisionFree(sha) && mid.Valid(sha)
    requires CheckpointsCopied(db, mid, listed, n, uuid)
    ensures var db' := WithCheckpoint(mid, listed[n], copy, ActivitiesOf(db.activities, listed[n].id), n, uuid, sha);
            && CheckpointsCopied(db, db', listed, n + 1, uuid)
            && db'.Valid(sha) && Extends(mid, db')
            && db'.messages == mid.messages && db'.checkpoints == mid.checkpoints + [copy]
  {
    BeforeCopy(db, mid, listed, n, uuid);
    WithCheckpointEffect(mid, listed[n], copy, n, uuid, sha);
    var db' := WithCheckpoint(mid, listed[n], copy, ActivitiesOf(db.activities, listed[n].id), n, uuid, sha);
    AfterCopy(db, mid, db', listed, n, uuid);
  }

  /** Where the copy stands after `n` checkpoints. */
  ghost predicate CopiedSoFar(db: Tables, mid: Tables, listed: seq<Checkpoint>, n: nat, ids: map<string, string>,
                              ws: string, session: string, uuid: Slot -> string, sha: Bytes -> string)
    requires n <= |listed| && forall j :: 0 <= j < n ==> listed[j].messageId in ids
  {
    && mid.Valid(sha) && Extends(db, mid) && mid.messages == db.messages
    && mid.checkpoints == db.checkpoints + CheckpointCopies(listed, n, ids, ws, session, uuid)
    && CheckpointsCopied(db, mid, listed, n, uuid)
  }

  lemma StepCopied(db: Tables, mid: Tables, listed: seq<Checkpoint>, n: nat, ids: map<string, string>,
                   ws: string, session: string, uuid: Slot -> string, sha: Bytes -> string)
    requires n < |listed| && listed[n] in db.checkpoints && forall j :: 0 <= j <= n ==> listed[j].messageId in ids
    requires FreshForCheckpoints(db, uuid) && CollisionFree(sha)
    requires CopiedSoFar(db, mid, listed, n, ids, ws, session, uuid, sha)
    ensures var copy := CheckpointCopy(listed[n], n, ws, session, ids[listed[n].messageId], uuid);
            var db' := WithCheckpoint(mid, listed[n], copy, ActivitiesOf(db.activities, listed[n].id), n, uuid, sha);
            CopiedSoFar(db, db', listed, n + 1, ids, ws, session, uuid, sha)
  {
    var copy := CheckpointCopy(listed[n], n, ws, session, ids[listed[n].messageId], uuid);
    OneMoreCheckpoint(db, mid, listed, n, copy, uuid, sha);
    var activities := ActivitiesOf(db.activities, listed[n].id);
  }

  class Database {
    var rows: Tables

    /** Copy the messages, and remember their new ids. */
    method CopyMessages(source: seq<Message>, ws: string, session: string, uuid: Slot -> string)
      returns (ids: map<string, string>)
      requires DistinctIds(source)
      modifies this
      ensures rows == old(rows).(messages := old(rows).messages + MessageCopies(source, ws, session, uuid))
      ensures MapsIds(ids, source, |source|, uuid)
    {
      ids := map[];
      ghost var copies := MessageCopies(source, ws, session, uuid);
      assert old(rows).messages + copies[..0] == old(rows).messages;
      for i := 0 to |source|
        invariant rows == old(rows).(messages := old(rows).messages + copies[..i])
        invariant MapsIds(ids, source, i, uuid)
      {
        var newId := uuid(MessageSlot(i));
        ids := ids[source[i].id := newId];
        rows := rows.(messages := rows.messages + [Message(newId, ws, session, source[i].body)]);
        assert copies[..i + 1] == copies[..i] + [copies[i]];
        assert old(rows).messages + copies[..i] + [copies[i]] == old(rows).messages + copies[..i + 1];
      }
      assert copies[..|source|] == copies;
    }
  
    /** Copy the checkpoints in order, stopping at the first one whose message was not copied; `n` are copied. */
    method CopyCheckpoints(listed: seq<Checkpoint>, ids: map<string, string>, ws: string, session: string,
                           uuid: Slot -> string, sha: Bytes -> string) returns (r: CopyResult, ghost n: nat)
      requires rows.Valid(sha) && FreshForCheckpoints(rows, uuid) && CollisionFree(sha)
      requires forall j :: 0 <= j < |listed| ==> listed[j] in rows.checkpoints
      modifies this
      ensures n <= |listed| && (r == Copied <==> n == |listed|)
      ensures forall j :: 0 <= j < n ==> listed[j].messageId in ids
      ensures n < |listed| ==> listed[n].messageId !in ids
      ensures CopiedSoFar(old(rows), rows, listed, n, ids, ws, session, uuid, sha)
    {
      ghost var db := rows;
      var sourceActivities := rows.activities;
      for j := 0 to |listed|
        invariant forall k :: 0 <= k < j ==> listed[k].messageId in ids
        invariant CopiedSoFar(db, rows, listed, j, ids, ws, session, uuid, sha)
      {
        var c := listed[j];
        if c.messageId !in ids {
          return InconsistentHistory, j;
        }
        var copy := CheckpointCopy(c, j, ws, session, ids[c.messageId], uuid);
        StepCopied(db, rows, listed, j, ids, ws, session, uuid, sha);
        rows := WithCheckpoint(rows, c, copy, ActivitiesOf(sourceActivities, c.id), j, uuid, sha);
      }
      return Copied, |listed|;
    }

    /** The fork is an isomorphic copy of the conversation up to a checkpoint. The id map is injective, the copied
        messages are the source's in order and content, each copied checkpoint hangs on the image of its message
        and restores the same files; and rows that were there stay. A copy that fails has copied all messages,
        and the checkpoints before the first that hangs on no copied message. */
    method CopyHistory(sourceWs: string, newWs: string, fork: Checkpoint, listed: seq<Checkpoint>,
                       uuid: Slot -> string, sha: Bytes -> string)
      returns (r: CopyResult, ghost ids: map<string, string>, ghost n: nat)
      requires rows.Valid(sha) && Fresh(rows, uuid) && CollisionFree(sha)
      requires IsListing(rows, sourceWs, fork.turnIndex, listed)
      modifies this
      ensures rows.Valid(sha) && Extends(old(rows), rows)
      ensures newWs !in old(rows).sessions ==> rows == old(rows) && r == InconsistentHistory
      ensures r == Copied <==>
                && newWs in old(rows).sessions
                && forall c :: c in listed ==> Anchored(c, ListMessagesUpTo(old(rows), sourceWs, fork.messageId))
      ensures newWs in old(rows).sessions ==>
                var source := ListMessagesUpTo(old(rows), sourceWs, fork.messageId);
                && CopiedUntil(listed, source, n) && (r == Copied <==> n == |listed|)
                && Forked(old(rows), rows, source, listed, n, newWs, old(rows).sessions[newWs], ids, uuid)
    {
      var source := ListMessagesUpTo(rows, sourceWs, fork.messageId);
      ids, n := map[], 0;
      if newWs !in rows.sessions {
        return InconsistentHistory, ids, n;
      }
      MessagesInDistinct(rows.messages, sourceWs);
      r, ids, n := CopyInto(source, newWs, rows.sessions[newWs], listed, uuid, sha);
    }

    /** Copy messages, then checkpoints, into a session. */
    method CopyInto(source: seq<Message>, ws: string, session: string, listed: seq<Checkpoint>,
                    uuid: Slot -> string, sha: Bytes -> string)
      returns (r: CopyResult, ghost ids: map<string, string>, ghost n: nat)
      requires rows.Valid(sha) && Fresh(rows, uuid) && CollisionFree(sha) && DistinctIds(source)
      requires forall j :: 0 <= j < |listed| ==> listed[j] in rows.checkpoints
      modifies this
      ensures rows.Valid(sha) && Extends(old(rows), rows)
      ensures CopiedUntil(listed, source, n) && (r == Copied <==> n == |listed|)
      ensures Forked(old(rows), rows, source, listed, n, ws, session, ids, uuid)
    {
      ghost var db := rows;
      var newIds := CopyMessages(source, ws, session, uuid);
      ghost var mid := rows;
      MessagesOnly(db, mid, source, ws, session, uuid, sha);
      r, n := CopyCheckpoints(listed, newIds, ws, session, uuid, sha);
      ids := newIds;
      ForkedFromParts(db, mid, rows, source, listed, n, ws, session, ids, uuid);
    }
  }

  /** The first `n` checkpoints hang on copied messages, and the next, if there is one, does not. */
  ghost predicate CopiedUntil(listed: seq<Checkpoint>, source: seq<Message>, n: nat) {
    && n <= |listed| && (forall j :: 0 <= j < n ==> Anchored(listed[j], source))
    && (n < |listed| ==> !Anchored(listed[n], source))
  }

  /** Copied messages and then copied checkpoints make a fork. */
  lemma ForkedFromParts(db: Tables, mid: Tables, db': Tables, source: seq<Message>, listed: seq<Checkpoint>, n: nat,
                        ws: string, session: string, ids: map<string, string>, uuid: Slot -> string)
    requires MapsIds(ids, source, |source|, uuid) && FreshForCheckpoints(db, uuid)
    requires mid == db.(messages := db.messages + MessageCopies(source, ws, session, uuid))
    requires n <= |listed| && db'.messages == mid.messages && forall j :: 0 <= j < n ==> listed[j].messageId in ids
    requires db'.checkpoints == mid.checkpoints + CheckpointCopies(listed, n, ids, ws, session, uuid)
    requires CheckpointsCopied(mid, db', listed, n, uuid)
    ensures Forked(db, db', source, listed, n, ws, session, ids, uuid)
  {
    SameTables(db, mid, db', listed, n, uuid);
  }

  /** The copy of `source` and the first `n` of `listed` in workspace `ws`, with `ids` from old message ids to new. */
  ghost predicate Forked(db: Tables, db': Tables, source: seq<Message>, listed: seq<Checkpoint>, n: nat, ws: string,
                         session: string, ids: map<string, string>, uuid: Slot -> string) {
    && MapsIds(ids, source, |source|, uuid)
    && (forall a, b :: a in ids && b in ids && ids[a] == ids[b] ==> a == b)
    && db'.messages == db.messages + MessageCopies(source, ws, session, uuid)
    && n <= |listed| && (forall j :: 0 <= j < n ==> listed[j].messageId in ids)
    && db'.checkpoints == db.checkpoints + CheckpointCopies(listed, n, ids, ws, session, uuid)
    && CheckpointsCopied(db, db', listed, n, uuid)
  }

  /** What a reader of the fork sees. After any messages of its own, the new workspace has the source's in order,
      each under its new id; other workspaces have what they had. */
  lemma ForkReadsLikeSource(db: Tables, db': Tables, source: seq<Message>, listed: seq<Checkpoint>, n: nat, ws: string,
                            session: string, ids: map<string, string>, uuid: Slot -> string)
    requires Forked(db, db', source, listed, n, ws, session, ids, uuid)
    ensures forall w :: w != ws ==> MessagesIn(db'.messages, w) == MessagesIn(db.messages, w)
    ensures var before, after := MessagesIn(db.messages, ws), MessagesIn(db'.messages, ws);
            && |after| == |before| + |source| && before <= after
            && forall i :: 0 <= i < |source| ==>
                 && after[|before| + i].body == source[i].body && after[|before| + i].sessionId == session
                 && source[i].id in ids && after[|before| + i].id == ids[source[i].id]
  {
    var copies := MessageCopies(source, ws, session, uuid);
    forall w
      ensures MessagesIn(db'.messages, w) == MessagesIn(db.messages, w) + if w == ws then copies else []
    {
      var mine := (m: Message) => m.workspaceId == w;
      KeepAppend(db.messages, copies, mine);
      KeepUniform(copies, mine, w == ws);
    }
  }

  /** Each new checkpoint is at its source's turn, hangs on the image of its message, and restores and shows the
      same. */
  lemma ForkedCheckpoint(db: Tables, db': Tables, source: seq<Message>, listed: seq<Checkpoint>, n: nat, ws: string,
                         session: string, ids: map<string, string>, uuid: Slot -> string, j: nat)
    requires Forked(db, db', source, listed, n, ws, session, ids, uuid) && j < n
    ensures |db'.checkpoints| == |db.checkpoints| + n
    ensures var c, c' := listed[j], db'.checkpoints[|db.checkpoints| + j];
            && c.messageId in ids && c'.messageId == ids[c.messageId]
            && c'.workspaceId == ws && c'.sessionId == session
            && c'.turnIndex == c.turnIndex && c'.messageCount == c.messageCount && c'.commitHash == c.commitHash
            && Snapshot(db', c'.id) == Snapshot(db, c.id)
            && Bodies(ActivitiesOf(db'.activities, c'.id)) == Bodies(ActivitiesOf(db.activities, c.id))
  {
    assert CopiedCheckpoint(db, listed[j].id, db', uuid(CheckpointSlot(j)));
  }

  /** Copying messages disturbs nothing that copying checkpoints needs. */
  lemma MessagesOnly(db: Tables, mid: Tables, source: seq<Message>, ws: string, session: string,
                     uuid: Slot -> string, sha: Bytes -> string)
    requires db.Valid(sha) && Fresh(db, uuid)
    requires mid == db.(messages := db.messages + MessageCopies(source, ws, session, uuid))
    ensures mid.Valid(sha) && FreshForCheckpoints(mid, uuid) && Extends(db, mid)
  {
  }

  /** The checkpoint's message is among those copied. */
  ghost predicate Anchored(c: Checkpoint, source: seq<Message>) {
    exists i :: 0 <= i < |source| && source[i].id == c.messageId
  }

  /** Snapshots and activities do not depend on the messages. */
  lemma SameTables(db: Tables, mid: Tables, db': Tables, listed: seq<Checkpoint>, n: nat, uuid: Slot -> string)
    requires mid == db.(messages := mid.messages) && n <= |listed|
    ensures CheckpointsCopied(mid, db', listed, n, uuid) ==> CheckpointsCopied(db, db', listed, n, uuid)
  {
    assert forall id :: SameCheckpoint(mid, db', id) ==> SameCheckpoint(db, db', id);
    assert forall id, id' :: CopiedCheckpoint(mid, id, db', id') ==> CopiedCheckpoint(db, id, db', id');
  }

  lemma {:induction false} MessagesInDistinct(messages: seq<Message>, ws: string)
    requires DistinctIds(messages)
    ensures DistinctIds(MessagesIn(messages, ws))
  {
    var mine := (m: Message) => m.workspaceId == ws;
    if messages != [] {
      MessagesInDistinct(messages[1..], ws);
      var rest := Keep(messages[1..], mine);
      forall i | 0 <= i < |rest|
        ensures rest[i].id != messages[0].id
      {
        KeptIn(messages[1..], mine, rest[i]);
      }
    }
  }

}
