/** The changeset transaction: preflight, two backups, temporary files, approval gate,
    renames, and the reverse-order undo when any step fails. */
module ChangeManager {
  import opened Wrappers
  import opened Ordering
  import opened Strings
  import opened Stamps
  import opened ChangeTypes
  import opened BackupVault
  import opened RemoteFiles
  import opened ChangeJournal
  import opened ChangeSpec
  import opened RollbackSpec
  import opened Approvals
  import opened PathRules
  import TextEdits

  /** How an apply ends. `Raised`: the failure handler's own bookkeeping raised,
    because an event or a journal write was lost.
      `Stopped`: the process died at a boundary of the rename loop. */
  datatype Outcome =
    | AppliedAll(files: seq<string>)
    | RolledBackAll(files: seq<string>)
    | FailedApply
    | Raised(lostEvent: bool)
    | Stopped

  datatype Move = Moved | MovedUnannounced | MoveMissed | MoveRefused

  datatype RenameEnd = AllRenamed | RenameStopped | RenameFailed

  /** The remote side and the journal at one moment. */
  datatype World = World(files: Files, ops: seq<RemoteOp>, book: Book, missed: nat, refused: nat)

  class Manager {
    const env: Env
    /** Whether events are never lost, compose files pass their check and the process does not die. */
    const reliable: bool
    const remote: RemoteStore
    const journal: Journal
    const vault: Vault
    const approvals: ApprovalStore

    constructor (env: Env, remote: RemoteStore, journal: Journal, vault: Vault, approvals: ApprovalStore,
                 reliable: bool)
      ensures this.env == env && this.remote == remote && this.journal == journal
      ensures this.vault == vault && this.approvals == approvals && this.reliable == reliable
    {
      this.env, this.remote, this.journal, this.vault, this.approvals := env, remote, journal, vault, approvals;
      this.reliable := reliable;
    }

    // -------------------------------------------------------------- when nothing fails

    /** Nothing the manager works with ever fails. */
    ghost predicate Flawless() {
      reliable && remote.reliable && journal.reliable && vault.reliable
    }

    /** The vault can seal every file, and open it again. */
    ghost predicate VaultFits(files: seq<FileRequest>) {
      Sound(vault.crypto) && forall i | 0 <= i < |files| :: |env.blobAad(files[i].path)| < LENGTH_LIMIT
    }

    /** The gate asks for nothing, or the approval is there and nobody else is about to spend it. */
    ghost predicate CanPay(req: Request, approvalId: Option<string>, now: Instant, rows: Table) {
      ProtectedPaths(req.files, ApplyRoots(env)) == [] ||
      (approvals.quiet && approvalId.Some? &&
       Spendable(rows, approvalId.value, GateSpending(req, approvalId.value, now).intentSha, now))
    }

    /** The request fits the files found, and its ids are free. */
    ghost predicate Beginnable(req: Request, start: Files, book: Book) {
      && Planned(req, start, Wanted(req, start))
      && CanCreate(book, req.changesetId, NewRows(req.files, NewFiles(req.files, start)))
    }

    /** No path is named twice, no temporary file is in the way, and the gate can be passed. */
    ghost predicate Stageable(req: Request, approvalId: Option<string>, now: Instant, n: Names, files: Files,
                              rows: Table) {
      DistinctPaths(req.files) && TempsFree(req.files, 0, n, files) && CanPay(req, approvalId, now, rows)
    }

    /** Everything the apply demands of the request and of what it finds. */
    ghost predicate Doable(req: Request, approvalId: Option<string>, now: Instant, n: Names, start: Files, book: Book,
                           rows: Table) {
      && Beginnable(req, start, book) && VaultFits(req.files)
      && Stageable(req, approvalId, now, n, start, rows)
    }

    // -------------------------------------------------------------- journal and events

    /** Append and publish a runtime event. */
    method Emit() returns (ok: bool)
      ensures reliable ==> ok
    {
      if !reliable { if * { return false; } }
      ok := true;
    }

    /** `_transition`: write the status, then announce it. */
    method MoveTo(id: string, to: Status) returns (m: Move)
      requires id in journal.book
      modifies journal
      ensures m.Moved? || m.MovedUnannounced? ==>
              journal.book == old(journal.book)[id := old(journal.book)[id].(status := to)]
      ensures m.MoveMissed? || m.MoveRefused? ==> journal.book == old(journal.book)
      ensures m.MoveRefused? <==> !TransitionAllowed(old(journal.book)[id].status, to)
      ensures journal.missed == if m.MoveMissed? then old(journal.missed) + 1 else old(journal.missed)
      ensures journal.refused == if m.MoveRefused? then old(journal.refused) + 1 else old(journal.refused)
      ensures Flawless() && TransitionAllowed(old(journal.book)[id].status, to) ==> m.Moved?
    {
      var w := journal.Transition(id, to);
      if w.Refused? { return MoveRefused; }
      if w.Missed? { return MoveMissed; }
      var ok := Emit();
      m := if ok then Moved else MovedUnannounced;
    }

    // -------------------------------------------------------------- steps 1 to 4

    /** One request: what it found, or None when it must be refused. */
    method PreflightOne(f: FileRequest) returns (r: Option<Option<Bytes>>)
      ensures r.Some? ==> Matches(env, f, remote.files)
      ensures r.Some? ==> r.value == if f.path in remote.files then Some(remote.files[f.path]) else None
      ensures Flawless() && Matches(env, f, remote.files) ==> r.Some?
    {
      var stat := remote.Lstat(f.path);
      if stat.Unreadable? { return None; }
      if f.Creates() {
        if stat.Present? { return None; }
        return Some(None);
      }
      if stat.Absent? { return None; }
      var content := remote.Read(f.path);
      if content.None? || Some(env.sha256(content.value)) != f.Expected() { return None; }
      r := Some(content);
    }

    method Preflight(files: seq<FileRequest>) returns (ok: bool, originals: map<string, Bytes>, newFiles: set<string>)
      ensures ok ==> PreflightHolds(env, files, remote.files)
      ensures ok ==> originals == Originals(files, remote.files) && newFiles == NewFiles(files, remote.files)
      ensures Flawless() && PreflightHolds(env, files, remote.files) ==> ok
    {
      originals, newFiles := map[], {};
      for i := 0 to |files|
        invariant PreflightHolds(env, files[..i], remote.files)
        invariant originals == Originals(files[..i], remote.files) && newFiles == NewFiles(files[..i], remote.files)
      {
        PrefixStep(files, i);
        OriginalsStep(files, i, remote.files);
        var found := PreflightOne(files[i]);
        if found.None? {
          if PreflightHolds(env, files, remote.files) { PreflightAt(env, files, remote.files, i); }
          return false, originals, newFiles;
        }
        originals := originals[files[i].path := if found.value.Some? then found.value.value else []];
        newFiles := newFiles + if found.value.Some? then {} else {files[i].path};
      }
      assert files[..|files|] == files;
      ok := true;
    }

    method NewContent(f: FileRequest, original: Bytes) returns (r: Option<Bytes>)
      ensures r == NewBytes(env, f, original)
      ensures forall b :: r == Some(b) <==> AsksFor(env, f, original, b)
    {
      forall b ensures NewBytes(env, f, original) == Some(b) <==> AsksFor(env, f, original, b) {
        NewBytesMeans(env, f, original, b);
      }
      if f.FileWrite? { return Some(f.content); }
      var text := env.decode(original);
      if text.None? { return None; }
      var edited := TextEdits.ApplyEdits(text.value, f.replacements);
      if edited.Err? { return None; }
      r := Some(env.encode(edited.value));
    }

    method ComputeNew(files: seq<FileRequest>, originals: map<string, Bytes>) returns (r: Option<map<string, Bytes>>)
      requires PathSet(files) == originals.Keys
      ensures r == Plan(env, files, originals)
      ensures r.Some? <==> forall i | 0 <= i < |files| && files[i].path in originals ::
                AsksForSome(env, files[i], originals[files[i].path])
      ensures r.Some? ==> r.value.Keys == PathSet(files) && forall i | 0 <= i < |files| && LastForItsPath(files, i) ::
                files[i].path in originals && files[i].path in r.value &&
                AsksFor(env, files[i], originals[files[i].path], r.value[files[i].path])
    {
      PlanExistsExactly(env, files, originals);
      if Plan(env, files, originals).Some? {
        forall i | 0 <= i < |files| && LastForItsPath(files, i)
          ensures files[i].path in originals && files[i].path in Plan(env, files, originals).value
          ensures AsksFor(env, files[i], originals[files[i].path], Plan(env, files, originals).value[files[i].path])
        {
          PlanMeans(env, files, originals, i);
        }
      }
      var contents: map<string, Bytes> := map[];
      for i := 0 to |files|
        invariant PathSet(files[..i]) <= originals.Keys
        invariant Plan(env, files[..i], originals) == Some(contents)
      {
        PrefixStep(files, i);
        PathSetHas(files, i);
        var own := NewContent(files[i], originals[files[i].path]);
        if own.None? { PlanPrefixFails(env, files, originals, i + 1); return None; }
        contents := contents[files[i].path := own.value];
      }
      assert files[..|files|] == files;
      r := Some(contents);
    }

    method ValidateAll(files: seq<FileRequest>, contents: map<string, Bytes>) returns (r: Option<map<string, string>>)
      requires PathSet(files) == contents.Keys
      ensures r == Validations(env, files, contents)
    {
      var results: map<string, string> := map[];
      for i := 0 to |files|
        invariant PathSet(files[..i]) <= contents.Keys
        invariant Validations(env, files[..i], contents) == Some(results)
      {
        PrefixStep(files, i);
        PathSetHas(files, i);
        var v := Validation(env, files[i].path, contents[files[i].path]);
        if v.None? { ValidationsPrefixFails(env, files, contents, i + 1); return None; }
        results := results[files[i].path := v.value];
      }
      assert files[..|files|] == files;
      r := Some(results);
    }

    function NewRow(f: FileRequest, newFiles: set<string>): FileChange {
      FileChange(f.operationId, f.path, f.path in newFiles, None, "", None, false, None, None)
    }

    // -------------------------------------------------------------- step 5

    /** The blob of `p` opens to the original bytes. */
    ghost predicate LocalCopy(blobs: map<string, Bytes>, p: string, start: Files) {
      p in start ==>
        env.blobName(p) in blobs &&
        Open(vault.crypto, blobs[env.blobName(p)], vault.crypto.sha256(start[p])) == Some(start[p])
    }

    ghost predicate LocalCopies(blobs: map<string, Bytes>, files: seq<FileRequest>, start: Files) {
      forall j | 0 <= j < |files| :: LocalCopy(blobs, files[j].path, start)
    }

    /** The first `k` rows name the blobs their originals were stored under. */
    ghost predicate BlobsNamed(rows: seq<FileChange>, k: nat) {
      k <= |rows| && forall i | 0 <= i < k :: rows[i].localBackup == Some(env.blobName(rows[i].path))
    }

    lemma {:induction false} BlobNamedStep(rows: seq<FileChange>, files: seq<FileRequest>, k: nat, start: Files)
      requires k < |files| && RowsFor(rows, files, start) && BlobsNamed(rows, k)
      ensures BlobsNamed(PatchRow(rows, files[k].operationId,
                                  NO_UPDATE.(localBackup := Some(env.blobName(files[k].path)))), k + 1)
    {
      assert rows[k].id == files[k].operationId && rows[k].path == files[k].path;
      assert forall i | 0 <= i < k :: rows[i].id != rows[k].id;
    }

    /** Blob names are a truncated hash of the path; distinct paths must not share one. */
    ghost predicate BlobNamesDistinct(files: seq<FileRequest>) {
      forall i, j | 0 <= i < |files| && 0 <= j < |files| && files[i].path != files[j].path ::
        env.blobName(files[i].path) != env.blobName(files[j].path)
    }

    /** One journal column of one row; the rows stay those of the request. */
    method Record(id: string, rowId: string, u: FileUpdate, ghost files: seq<FileRequest>, ghost start: Files)
        returns (ok: bool)
      requires id in journal.book && RowsFor(journal.book[id].files, files, start) && u.applied.None?
      modifies journal
      ensures id in journal.book && OthersKept(old(journal.book), journal.book, id)
      ensures journal.book[id] == old(journal.book)[id].(files := journal.book[id].files)
      ensures journal.book[id].files == if ok then PatchRow(old(journal.book)[id].files, rowId, u)
              else old(journal.book)[id].files
      ensures RowsFor(journal.book[id].files, files, start)
      ensures AppliedPaths(journal.book[id].files) == AppliedPaths(old(journal.book)[id].files)
      ensures journal.missed >= old(journal.missed) && (ok ==> journal.missed == old(journal.missed))
      ensures journal.refused == old(journal.refused)
      ensures Flawless() && HasRow(old(journal.book)[id].files, rowId) ==> ok
    {
      PatchKeepsRows(journal.book[id].files, files, start, rowId, u);
      PatchKeepsApplied(journal.book[id].files, rowId, u);
      ok := journal.UpdateRow(id, rowId, u);
    }

    /** Store one original and read it back unless it is the marker of an absent file. */
    method StoreVerified(p: string, original: Bytes, absent: bool) returns (ref: Option<Reference>)
      modifies vault
      ensures ref.Some? && !absent ==>
                && env.blobName(p) in vault.blobs
                && Open(vault.crypto, vault.blobs[env.blobName(p)], vault.crypto.sha256(original)) == Some(original)
      ensures ref.Some? ==> ref.value.name == env.blobName(p)
      ensures ref.Some? ==> forall m | m in old(vault.blobs) && m != env.blobName(p) ::
                m in vault.blobs && vault.blobs[m] == old(vault.blobs)[m]
      ensures Flawless() && Sound(vault.crypto) && |env.blobAad(p)| < LENGTH_LIMIT ==> ref.Some?
    {
      ref := vault.Store(env.blobName(p), env.blobAad(p), original);
      if ref.Some? && !absent {
        var loaded := vault.Load(ref.value);
        if loaded != Some(original) { return None; }
      }
    }

    method BackupLocally(id: string, files: seq<FileRequest>, i: nat, original: Bytes, absent: bool, ghost start: Files)
      returns (ok: bool)
      requires i < |files|
      requires absent <==> files[i].path !in start
      requires !absent ==> original == start[files[i].path]
      requires id in journal.book && RowsFor(journal.book[id].files, files, start)
      modifies vault, journal
      ensures id in journal.book && OthersKept(old(journal.book), journal.book, id)
      ensures journal.book[id] == old(journal.book)[id].(files := journal.book[id].files)
      ensures RowsFor(journal.book[id].files, files, start)
      ensures AppliedPaths(journal.book[id].files) == AppliedPaths(old(journal.book)[id].files)
      ensures ok && BlobNamesDistinct(files) && LocalCopies(old(vault.blobs), files[..i], start) ==>
              LocalCopies(vault.blobs, files[..i + 1], start)
      ensures ok && BlobsNamed(old(journal.book)[id].files, i) ==> BlobsNamed(journal.book[id].files, i + 1)
      ensures journal.missed >= old(journal.missed) && (ok ==> journal.missed == old(journal.missed))
      ensures journal.refused == old(journal.refused)
      ensures Flawless() && VaultFits(files) ==> ok
    {
      assert journal.book[id].files[i].id == files[i].operationId;
      var ref := StoreVerified(files[i].path, original, absent);
      if ref.None? { return false; }
      if BlobNamesDistinct(files) && LocalCopies(old(vault.blobs), files[..i], start) {
        var prefix := files[..i + 1];
        forall j | 0 <= j < |prefix| ensures LocalCopy(vault.blobs, prefix[j].path, start) {
          if j < i { assert LocalCopy(old(vault.blobs), files[..i][j].path, start); }
        }
      }
      if BlobsNamed(journal.book[id].files, i) { BlobNamedStep(journal.book[id].files, files, i, start); }
      ok := Record(id, files[i].operationId, NO_UPDATE.(localBackup := Some(ref.value.name)), files, start);
    }

    method LocalBackups(id: string, files: seq<FileRequest>, originals: map<string, Bytes>, newFiles: set<string>,
                        ghost start: Files)
      returns (ok: bool)
      requires originals == Originals(files, start) && newFiles == NewFiles(files, start)
      requires id in journal.book && RowsFor(journal.book[id].files, files, start) &&
               AppliedPaths(journal.book[id].files) == {}
      modifies vault, journal
      ensures id in journal.book && OthersKept(old(journal.book), journal.book, id)
      ensures journal.book[id].status == old(journal.book)[id].status
      ensures RowsFor(journal.book[id].files, files, start) && AppliedPaths(journal.book[id].files) == {}
      ensures ok && BlobNamesDistinct(files) ==> LocalCopies(vault.blobs, files, start)
      ensures ok ==> BlobsNamed(journal.book[id].files, |files|)
      ensures journal.missed >= old(journal.missed) && (ok ==> journal.missed == old(journal.missed))
      ensures journal.refused == old(journal.refused)
      ensures Flawless() && VaultFits(files) ==> ok
    {
      for i := 0 to |files|
        invariant id in journal.book && OthersKept(old(journal.book), journal.book, id)
        invariant journal.book[id].status == old(journal.book)[id].status
        invariant RowsFor(journal.book[id].files, files, start) && AppliedPaths(journal.book[id].files) == {}
        invariant BlobNamesDistinct(files) ==> LocalCopies(vault.blobs, files[..i], start)
        invariant BlobsNamed(journal.book[id].files, i)
        invariant journal.missed == old(journal.missed) && journal.refused == old(journal.refused)
      {
        ok := LocalBackupTurn(id, files, i, originals, newFiles, start, old(journal.book));
        if !ok { return; }
      }
      assert files[..|files|] == files;
      ok := true;
    }

    /** One turn of the loop; `first` is the journal at its start. */
    method LocalBackupTurn(id: string, files: seq<FileRequest>, i: nat, originals: map<string, Bytes>,
                           newFiles: set<string>,
                           ghost start: Files, ghost first: Book)
      returns (ok: bool)
      requires i < |files| && originals == Originals(files, start) && newFiles == NewFiles(files, start)
      requires id in journal.book && RowsFor(journal.book[id].files, files, start) &&
               AppliedPaths(journal.book[id].files) == {}
      requires OthersKept(first, journal.book, id)
      modifies vault, journal
      ensures id in journal.book && OthersKept(first, journal.book, id)
      ensures journal.book[id].status == old(journal.book)[id].status
      ensures RowsFor(journal.book[id].files, files, start) && AppliedPaths(journal.book[id].files) == {}
      ensures ok && BlobNamesDistinct(files) && LocalCopies(old(vault.blobs), files[..i], start) ==>
              LocalCopies(vault.blobs, files[..i + 1], start)
      ensures ok && BlobsNamed(old(journal.book)[id].files, i) ==> BlobsNamed(journal.book[id].files, i + 1)
      ensures journal.missed >= old(journal.missed) && (ok ==> journal.missed == old(journal.missed))
      ensures journal.refused == old(journal.refused)
      ensures Flawless() && VaultFits(files) ==> ok
    {
      PathSetHas(files, i);
      OriginalsAt(files, start, files[i].path);
      ok := BackupLocally(id, files, i, originals[files[i].path], files[i].path in newFiles, start);
    }

    // -------------------------------------------------------------- step 6

    /** Copy one target aside and read the copy back. Nothing is assumed about what the
        target holds by now, so a success shows that it still held the preflight bytes. */
    method BackupRemotely(id: string, files: seq<FileRequest>, i: nat, original: Bytes, n: Names, ghost start: Files,
                          ghost done: set<string>)
      returns (ok: bool)
      requires i < |files| && Separate(PathSet(files), n) && files[i].path in PathSet(files) && done <= PathSet(files)
      requires files[i].path in start && original == start[files[i].path]
      requires BackedUp(remote.files, start, done, n)
      requires id in journal.book && RowsFor(journal.book[id].files, files, start)
      modifies remote, journal
      ensures id in journal.book && OthersKept(old(journal.book), journal.book, id)
      ensures journal.book[id] == old(journal.book)[id].(files := journal.book[id].files)
      ensures RowsFor(journal.book[id].files, files, start)
      ensures AppliedPaths(journal.book[id].files) == AppliedPaths(old(journal.book)[id].files)
      ensures ok ==> journal.book[id].files == NamedRow(old(journal.book)[id].files, files[i], n)
      ensures ok ==> files[i].path in old(remote.files) && old(remote.files)[files[i].path] == original
      ensures ok ==> BackedUp(remote.files, start, done + {files[i].path}, n)
      ensures ok ==> remote.ops == old(remote.ops) + [Copied(files[i].path, n.backup[files[i].path], original)]
      ensures RemoteMoved(old(remote.files), old(remote.ops), n.backup.Values)
      ensures journal.missed >= old(journal.missed) && (ok ==> journal.missed == old(journal.missed))
      ensures journal.refused == old(journal.refused)
      ensures Flawless() && files[i].path in old(remote.files) && old(remote.files)[files[i].path] == original ==> ok
    {
      var p := files[i].path;
      assert journal.book[id].files[i].id == files[i].operationId;
      ghost var before := remote.files;
      ok := remote.Copy(p, n.backup[p]);
      if !ok { return; }
      assert n.backup[p] in n.backup.Values;
      var copy := remote.Read(n.backup[p]);
      if copy != Some(original) { return false; }
      CopyStep(before, remote.files, start, PathSet(files), n, done, p);
      ok := Record(id, files[i].operationId, NO_UPDATE.(remoteBackup := Some(n.backup[p])), files, start);
    }

    /** The rows are the request's and nothing is journalled applied yet. */
    ghost predicate JournalFresh(id: string, files: seq<FileRequest>, start: Files)
      reads journal
    {
      id in journal.book && RowsFor(journal.book[id].files, files, start) && AppliedPaths(journal.book[id].files) == {}
    }

    /** The first `i` files were unchanged since preflight, and are backed up and journalled so. */
    ghost predicate BackedUpTo(id: string, files: seq<FileRequest>, i: nat, n: Names, start: Files, before: Files,
                               log: seq<RemoteOp>)
      requires i <= |files|
      reads remote, journal
    {
      && JournalFresh(id, files, start)
      && RowsNamed(journal.book[id].files, i, start, n)
      && Unmoved(before, start, PathSet(files[..i]))
      && BackedUp(remote.files, start, PathSet(files[..i]), n)
      && CopiesTaken(remote.ops, |log|, |remote.ops|, start, PathSet(files[..i]), n)
    }

    method BackupStep(id: string, files: seq<FileRequest>, i: nat, original: Bytes, absent: bool, n: Names,
                      ghost start: Files, ghost before: Files, ghost log: seq<RemoteOp>)
      returns (ok: bool)
      requires i < |files| && Separate(PathSet(files), n) && PathSet(files[..i]) <= PathSet(files)
      requires absent <==> files[i].path !in start
      requires !absent ==> original == start[files[i].path]
      requires BackedUpTo(id, files, i, n, start, before, log)
      requires RemoteMoved(before, log, n.backup.Values)
      modifies remote, journal
      ensures JournalFresh(id, files, start) && OthersKept(old(journal.book), journal.book, id)
      ensures journal.book[id].status == old(journal.book)[id].status
      ensures ok ==> BackedUpTo(id, files, i + 1, n, start, before, log)
      ensures RemoteMoved(before, log, n.backup.Values)
      ensures journal.missed >= old(journal.missed) && (ok ==> journal.missed == old(journal.missed))
      ensures journal.refused == old(journal.refused)
      ensures Flawless() && Unmoved(before, start, {files[i].path}) ==> ok
    {
      PrefixStep(files, i);
      PathSetHas(files, i);
      ghost var rows, now, ops := journal.book[id].files, remote.files, remote.ops;
      ok := true;
      if !absent {
        SameOutsideBackups(now, before, PathSet(files), n, files[i].path);
        ok := BackupRemotely(id, files, i, original, n, start, PathSet(files[..i]));
        ElsewhereTransitively(before, now, remote.files, n.backup.Values);
        GrewTransitively(log, ops, remote.ops, n.backup.Values);
        if !ok { return; }
        CopiesGrow(ops, remote.ops, |log|, start, PathSet(files[..i]), n, files[i].path);
      }
      RowsNamedStep(rows, journal.book[id].files, files, i, start, n);
    }

    /** Every file that existed at preflight gets a verified copy, or the step fails: a
        target rewritten by anyone since preflight makes it fail. */
    method RemoteBackups(id: string, files: seq<FileRequest>, originals: map<string, Bytes>, newFiles: set<string>,
                         n: Names, ghost start: Files)
      returns (ok: bool)
      requires Separate(PathSet(files), n)
      requires originals == Originals(files, start) && newFiles == NewFiles(files, start)
      requires JournalFresh(id, files, start)
      modifies remote, journal
      ensures JournalFresh(id, files, start) && OthersKept(old(journal.book), journal.book, id)
      ensures journal.book[id].status == old(journal.book)[id].status
      ensures ok ==> RowsNameBackups(journal.book[id].files, start, n)
      ensures ok ==> Unmoved(old(remote.files), start, PathSet(files))
      ensures ok ==> BackedUp(remote.files, start, PathSet(files), n)
      ensures ok ==> CopiesTaken(remote.ops, |old(remote.ops)|, |remote.ops|, start, PathSet(files), n)
      ensures RemoteMoved(old(remote.files), old(remote.ops), n.backup.Values)
      ensures journal.missed >= old(journal.missed) && (ok ==> journal.missed == old(journal.missed))
      ensures journal.refused == old(journal.refused)
      ensures Flawless() && Unmoved(old(remote.files), start, PathSet(files)) ==> ok
    {
      ghost var before, log := remote.files, remote.ops;
      for i := 0 to |files|
        invariant BackedUpTo(id, files, i, n, start, before, log)
        invariant OthersKept(old(journal.book), journal.book, id)
        invariant journal.book[id].status == old(journal.book)[id].status
        invariant RemoteMoved(before, log, n.backup.Values)
        invariant journal.missed == old(journal.missed) && journal.refused == old(journal.refused)
      {
        PathSetHas(files, i);
        PathSetMonotone(files, i);
        OriginalsAt(files, start, files[i].path);
        ok := BackupStep(id, files, i, originals[files[i].path], files[i].path in newFiles, n, start, before, log);
        if !ok { return; }
      }
      assert files[..|files|] == files;
      assert journal.book[id].files[..|files|] == journal.book[id].files;
      ok := true;
    }

    // -------------------------------------------------------------- steps 7 to 9

    /** Targets untouched, everything backed up, and the first `i` temporary files written. */
    ghost predicate RemoteStagedTo(files: seq<FileRequest>, i: nat, n: Names, start: Files, plan: Files,
                                   log: seq<RemoteOp>)
      requires i <= |files|
      reads remote
    {
      && TargetsAs(remote.files, start, plan, PathSet(files), {}) && BackedUp(remote.files, start, PathSet(files), n)
      && Staged(remote.files, plan, PathSet(files[..i]), n) && DistinctPaths(files[..i])
      && AllStaged(remote.ops, |log|, plan, PathSet(files[..i]), n)
    }

    ghost predicate RemoteMoved(before: Files, log: seq<RemoteOp>, names: set<string>)
      reads remote
    {
      Elsewhere(remote.files, before, names) && GrewWithin(log, remote.ops, names)
    }

    method WriteTemp(files: seq<FileRequest>, i: nat, content: Bytes, n: Names,
                     ghost start: Files, ghost plan: Files, ghost before: Files, ghost log: seq<RemoteOp>)
      returns (ok: bool)
      requires i < |files| && Separate(PathSet(files), n) && PathSet(files[..i]) <= PathSet(files) &&
               files[i].path in PathSet(files)
      requires files[i].path in plan && plan[files[i].path] == content
      requires RemoteStagedTo(files, i, n, start, plan, log) && RemoteMoved(before, log, n.temp.Values)
      modifies remote
      ensures RemoteStagedTo(files, if ok then i + 1 else i, n, start, plan, log) &&
              RemoteMoved(before, log, n.temp.Values)
      ensures remote.files == if ok then old(remote.files)[n.temp[files[i].path] := content] else old(remote.files)
      ensures Flawless() && n.temp[files[i].path] !in old(remote.files) ==> ok
    {
      var p := files[i].path;
      ghost var now, ops := remote.files, remote.ops;
      OneOpGrew(ops, Wrote(n.temp[p], content), {n.temp[p]});
      assert n.temp[p] in n.temp.Values;
      ok := remote.WriteExclusive(n.temp[p], content);
      if !ok { return; }
      PrefixStep(files, i);
      StageStep(now, remote.files, start, plan, PathSet(files), n, PathSet(files[..i]), p);
      DistinctStep(files, i);
      StagedGrows(ops, remote.ops, |log|, plan, PathSet(files[..i]), n, p);
      MovedFurther(before, now, log, ops, {n.temp[p]}, n.temp.Values);
    }

    ghost predicate JournalReady(id: string, files: seq<FileRequest>, n: Names, start: Files)
      reads journal
    {
      JournalFresh(id, files, start) && RowsNameBackups(journal.book[id].files, start, n)
    }

    method StageOne(id: string, files: seq<FileRequest>, i: nat, contents: map<string, Bytes>, n: Names,
                    ghost start: Files, ghost before: Files, ghost log: seq<RemoteOp>)
      returns (ok: bool, wrote: bool)
      requires i < |files| && Separate(PathSet(files), n) && contents.Keys == PathSet(files)
      requires JournalReady(id, files, n, start)
      requires RemoteStagedTo(files, i, n, start, contents, log) && RemoteMoved(before, log, n.temp.Values)
      modifies remote, journal
      ensures JournalReady(id, files, n, start) && OthersKept(old(journal.book), journal.book, id)
      ensures journal.book[id].status == old(journal.book)[id].status
      ensures RemoteStagedTo(files, if wrote then i + 1 else i, n, start, contents, log) &&
              RemoteMoved(before, log, n.temp.Values)
      ensures ok ==> wrote
      ensures journal.missed >= old(journal.missed) && (ok ==> journal.missed == old(journal.missed))
      ensures journal.refused == old(journal.refused)
      ensures files[i].path in contents && files[i].path in n.temp
      ensures remote.files ==
              if wrote then old(remote.files)[n.temp[files[i].path] := contents[files[i].path]] else old(remote.files)
      ensures Flawless() && n.temp[files[i].path] !in old(remote.files) ==> ok
    {
      PathSetHas(files, i);
      assert journal.book[id].files[i].id == files[i].operationId;
      PathSetMonotone(files, i);
      wrote := WriteTemp(files, i, contents[files[i].path], n, start, contents, before, log);
      if !wrote { return false, false; }
      var u := NO_UPDATE.(tempPath := Some(n.temp[files[i].path]));
      PatchKeepsNames(journal.book[id].files, start, n, files[i].operationId, u);
      ok := Record(id, files[i].operationId, u, files, start);
    }

    /** One turn of the loop. */
    method StageTurn(id: string, files: seq<FileRequest>, i: nat, contents: map<string, Bytes>, n: Names,
                     written: set<string>, ghost start: Files, ghost before: Files, ghost log: seq<RemoteOp>)
      returns (ok: bool, next: nat, more: set<string>)
      requires i < |files| && Separate(PathSet(files), n) && contents.Keys == PathSet(files) &&
               written <= PathSet(files)
      requires JournalReady(id, files, n, start)
      requires RemoteStagedTo(files, i, n, start, contents, log) && RemoteMoved(before, log, n.temp.Values)
      modifies remote, journal
      ensures JournalReady(id, files, n, start) && OthersKept(old(journal.book), journal.book, id)
      ensures journal.book[id].status == old(journal.book)[id].status
      ensures journal.missed >= old(journal.missed) && (ok ==> journal.missed == old(journal.missed))
      ensures journal.refused == old(journal.refused)
      ensures next <= |files| && (ok ==> next == i + 1) && more <= PathSet(files)
      ensures RemoteStagedTo(files, next, n, start, contents, log) && RemoteMoved(before, log, n.temp.Values)
      ensures DistinctPaths(files) && TempsFree(files, i, n, old(remote.files)) ==>
                TempsFree(files, next, n, remote.files) && (Flawless() ==> ok)
    {
      PathSetHas(files, i);
      var wrote: bool;
      ok, wrote := StageOne(id, files, i, contents, n, start, before, log);
      next := if wrote then i + 1 else i;
      more := if wrote then written + {files[i].path} else written;
      if wrote && DistinctPaths(files) && TempsFree(files, i, n, old(remote.files)) {
        TempsFreeStep(files, i, n, old(remote.files), contents[files[i].path]);
      }
    }

    /** Write every temporary file, never over an existing one. A path named twice fails
        here, because its second temporary file is already there. */
    method WriteTemps(id: string, files: seq<FileRequest>, contents: map<string, Bytes>, n: Names, ghost start: Files)
      returns (ok: bool, written: set<string>)
      requires Separate(PathSet(files), n) && contents.Keys == PathSet(files)
      requires JournalReady(id, files, n, start)
      requires TargetsAs(remote.files, start, contents, PathSet(files), {}) &&
               BackedUp(remote.files, start, PathSet(files), n)
      modifies remote, journal
      ensures JournalReady(id, files, n, start) && OthersKept(old(journal.book), journal.book, id)
      ensures journal.book[id].status == old(journal.book)[id].status
      ensures journal.missed >= old(journal.missed) && (ok ==> journal.missed == old(journal.missed))
      ensures journal.refused == old(journal.refused)
      ensures written <= PathSet(files)
      ensures TargetsAs(remote.files, start, contents, PathSet(files), {})
      ensures ok ==> RemoteStagedTo(files, |files|, n, start, contents, old(remote.ops))
      ensures RemoteMoved(old(remote.files), old(remote.ops), n.temp.Values)
      ensures Flawless() && DistinctPaths(files) && TempsFree(files, 0, n, old(remote.files)) ==> ok
    {
      var done: nat;
      ok, done, written := StageLoop(id, files, contents, n, start);
    }

    method StageLoop(id: string, files: seq<FileRequest>, contents: map<string, Bytes>, n: Names, ghost start: Files)
      returns (ok: bool, i: nat, written: set<string>)
      requires Separate(PathSet(files), n) && contents.Keys == PathSet(files)
      requires JournalReady(id, files, n, start)
      requires RemoteStagedTo(files, 0, n, start, contents, remote.ops)
      modifies remote, journal
      ensures JournalReady(id, files, n, start) && OthersKept(old(journal.book), journal.book, id)
      ensures journal.book[id].status == old(journal.book)[id].status
      ensures journal.missed >= old(journal.missed) && (ok ==> journal.missed == old(journal.missed))
      ensures journal.refused == old(journal.refused)
      ensures i <= |files| && (ok ==> i == |files|) && written <= PathSet(files)
      ensures RemoteStagedTo(files, i, n, start, contents, old(remote.ops))
      ensures RemoteMoved(old(remote.files), old(remote.ops), n.temp.Values)
      ensures Flawless() && DistinctPaths(files) && TempsFree(files, 0, n, old(remote.files)) ==> ok
    {
      written := {};
      ghost var before, log := remote.files, remote.ops;
      ghost var free := DistinctPaths(files) && TempsFree(files, 0, n, before);
      i, ok := 0, true;
      while ok && i < |files|
        invariant i <= |files| && JournalReady(id, files, n, start)
        invariant RemoteStagedTo(files, i, n, start, contents, log)
        invariant OthersKept(old(journal.book), journal.book, id) &&
                  journal.book[id].status == old(journal.book)[id].status
        invariant written <= PathSet(files)
        invariant free ==> TempsFree(files, i, n, remote.files) && (Flawless() ==> ok)
        invariant RemoteMoved(before, log, n.temp.Values)
        invariant journal.missed >= old(journal.missed) && (ok ==> journal.missed == old(journal.missed))
        invariant journal.refused == old(journal.refused)
        decreases ok, |files| - i
      {
        ok, i, written := StageTurn(id, files, i, contents, n, written, start, before, log);
      }
    }

    /** `docker compose config -q` on the staged compose files of a host scope. */
    method ComposeAccepts(files: seq<FileRequest>) returns (ok: bool)
      ensures reliable ==> ok
    {
      for i := 0 to |files| {
        if IsComposeName(Lower(Name(files[i].path))) && env.hostScope && !reliable {
          if * { return false; }
        }
      }
      ok := true;
    }

    /** What this request must have spent before it may rename anything. */
    function GateSpending(req: Request, approvalId: string, now: Instant): Spending {
      Spending(approvalId,
               env.intentSha(ProtectedPathsIntent(req.changesetId, req.targetId, req.service,
                                                  ProtectedPaths(req.files, ApplyRoots(env)))),
               now)
    }

    /** This call's own consumption is the last entry added to the log. */
    ghost predicate GatePassed(req: Request, approvalId: Option<string>, now: Instant, before: seq<Spending>,
                               after: seq<Spending>) {
      if ProtectedPaths(req.files, ApplyRoots(env)) == [] then after == before
      else
        approvalId.Some? && SpentLast(before, after, GateSpending(req, approvalId.value, now))
    }

    method Gate(req: Request, approvalId: Option<string>, now: Instant) returns (ok: bool)
      requires approvals.Valid()
      modifies approvals
      ensures approvals.Valid() && old(approvals.spent) <= approvals.spent
      ensures ok ==> GatePassed(req, approvalId, now, old(approvals.spent), approvals.spent)
      ensures ProtectedPaths(req.files, ApplyRoots(env)) == [] ==> approvals.spent == old(approvals.spent)
      ensures CanPay(req, approvalId, now, old(approvals.rows)) ==> ok
    {
      var guarded := ProtectedPaths(req.files, ApplyRoots(env));
      if guarded == [] { return true; }
      if approvalId.None? { return false; }
      var r := approvals.Consume(approvalId.value, GateSpending(req, approvalId.value, now).intentSha, now);
      ok := r.Ok?;
    }

    /** The recheck before the first rename compares cached bytes, so it cannot fail. */
    method Recheck(files: seq<FileRequest>, originals: map<string, Bytes>, ghost start: Files) returns (ok: bool)
      requires originals == Originals(files, start)
      ensures PreflightHolds(env, files, start) ==> ok
    {
      for i := 0 to |files|
      {
        PathSetHas(files, i);
        var expected := files[i].Expected();
        if expected.Some? && env.sha256(originals[files[i].path]) != expected.value {
          if PreflightHolds(env, files, start) {
            PreflightAt(env, files, start, i);
            OriginalsAt(files, start, files[i].path);
          }
          return false;
        }
      }
      ok := true;
    }

    // -------------------------------------------------------------- step 10

    /** Exactly the targets in `done` have been renamed into place. */
    ghost predicate RemoteRenamed(files: seq<FileRequest>, done: set<string>, n: Names, start: Files, plan: Files)
      reads remote
    {
      && TargetsAs(remote.files, start, plan, PathSet(files), done)
      && Staged(remote.files, plan, PathSet(files) - done, n)
      && BackedUp(remote.files, start, PathSet(files), n)
    }

    ghost predicate JournalRows(id: string, files: seq<FileRequest>, n: Names, start: Files)
      reads journal
    {
      id in journal.book && RowsFor(journal.book[id].files, files, start) &&
      RowsNameBackups(journal.book[id].files, start, n)
    }

    /** The journal says exactly what has been renamed, and its status says whether anything has. */
    ghost predicate JournalExact(id: string, done: set<string>)
      requires id in journal.book
      reads journal
    {
      AppliedPaths(journal.book[id].files) == done && journal.book[id].status == if done == {} then RemotelyBackedUp
      else Applied
    }

    /** Never more than what has been renamed is journalled; if anything else is off, a
        journal write was lost. */
    ghost predicate JournalBehind(id: string, done: set<string>, missed: nat)
      requires id in journal.book
      reads journal
    {
      && AppliedPaths(journal.book[id].files) <= done
      && (journal.book[id].status == Applied || journal.book[id].status == RemotelyBackedUp)
      && (journal.missed == missed ==> JournalExact(id, done))
    }

    method MarkApplied(id: string, files: seq<FileRequest>, i: nat, first: bool, validation: string, n: Names,
                       ghost done: set<string>, ghost start: Files)
      returns (ok: bool)
      requires i < |files| && DistinctPaths(files) && files[i].path !in done
      requires JournalRows(id, files, n, start) && JournalExact(id, done) && (first <==> done == {})
      modifies journal
      ensures OthersKept(old(journal.book), journal.book, id) && JournalRows(id, files, n, start)
      ensures ok ==> JournalExact(id, done + {files[i].path})
      ensures JournalBehind(id, done + {files[i].path}, old(journal.missed))
      ensures old(journal.missed) <= journal.missed <= old(journal.missed) + 1
      ensures ok ==> journal.missed == old(journal.missed)
      ensures journal.refused == old(journal.refused)
      ensures Flawless() ==> ok
    {
      var rowId := files[i].operationId;
      var u := NO_UPDATE.(applied := Some(true), validation := Some(validation));
      ghost var rows := journal.book[id].files;
      assert rows[i].id == rowId && rows[i].path == files[i].path;
      assert forall j, k | 0 <= j < k < |rows| :: rows[j].path != rows[k].path;
      PatchKeepsRows(rows, files, start, rowId, u);
      PatchKeepsNames(rows, start, n, rowId, u);
      PatchSetsApplied(rows, i, u);
      ok := journal.UpdateRow(id, rowId, u);
      if ok && first {
        var m := MoveTo(id, Applied);
        ok := m.Moved?;
      }
    }

    method RenameTemp(files: seq<FileRequest>, p: string, n: Names, ghost done: set<string>, ghost start: Files,
                      ghost plan: Files)
      returns (renamed: bool)
      requires Separate(PathSet(files), n) && p in PathSet(files) && p !in done
      requires RemoteRenamed(files, done, n, start, plan)
      modifies remote
      ensures RemoteRenamed(files, if renamed then done + {p} else done, n, start, plan)
      ensures RemoteMoved(old(remote.files), old(remote.ops), {p, n.temp[p]})
      ensures remote.ops == if renamed then old(remote.ops) + [Renamed(n.temp[p], p)] else old(remote.ops)
      ensures Flawless() ==> renamed
    {
      ghost var now := remote.files;
      OneOpGrew(remote.ops, Renamed(n.temp[p], p), {p, n.temp[p]});
      renamed := remote.Rename(n.temp[p], p);
      if renamed { RenameStep(now, remote.files, start, plan, PathSet(files), n, done, p); }
    }

    method RenameOne(id: string, files: seq<FileRequest>, i: nat, first: bool, validation: string, n: Names,
                     ghost done: set<string>, ghost start: Files, ghost plan: Files)
      returns (ok: bool, renamed: bool)
      requires i < |files| && DistinctPaths(files) && Separate(PathSet(files), n)
      requires files[i].path in PathSet(files) && files[i].path !in done
      requires RemoteRenamed(files, done, n, start, plan)
      requires JournalRows(id, files, n, start) && JournalExact(id, done) && (first <==> done == {})
      modifies remote, journal
      ensures JournalRows(id, files, n, start)
      ensures RenameProgress(id, PathSet(files), if ok then AllRenamed else RenameFailed, renamed, old(Now()), Now())
      ensures ok ==> renamed && JournalExact(id, done + {files[i].path})
      ensures RemoteRenamed(files, if renamed then done + {files[i].path} else done, n, start, plan)
      ensures JournalBehind(id, if renamed then done + {files[i].path} else done, old(journal.missed))
      ensures RemoteMoved(old(remote.files), old(remote.ops), {files[i].path, n.temp[files[i].path]})
      ensures Flawless() ==> ok
    {
      ghost var begun := Now();
      renamed := RenameTemp(files, files[i].path, n, done, start, plan);
      ok := false;
      if renamed { ok := MarkApplied(id, files, i, first, validation, n, done, start); }
      OneRename(id, PathSet(files), files[i].path, n.temp[files[i].path], renamed, ok, begun, Now());
    }

    lemma {:induction false} OneRename(id: string, ps: set<string>, p: string, temp: string, renamed: bool, ok: bool,
                                       first: World, now: World)
      requires p in ps && OthersKept(first.book, now.book, id)
      requires now.ops == if renamed then first.ops + [Renamed(temp, p)] else first.ops
      requires first.missed <= now.missed <= first.missed + 1 && now.refused == first.refused
      requires ok ==> now.missed == first.missed
      ensures RenameProgress(id, ps, if ok then AllRenamed else RenameFailed, renamed, first, now)
    {}

    /** `_file_req_by_path`. */
    method FindRequest(files: seq<FileRequest>, p: string) returns (i: nat)
      requires p in PathSet(files)
      ensures i < |files| && files[i].path == p
    {
      i := 0;
      ghost var k := PathSetFrom(files, p);
      while files[i].path != p
        invariant i <= k < |files| && files[k].path == p
        decreases k - i
      {
        i := i + 1;
      }
    }

    /** The rename loop has renamed exactly the files `applied`, a prefix of the path order. */
    ghost predicate RenamedSoFar(id: string, files: seq<FileRequest>, applied: seq<string>, n: Names, start: Files,
                                 plan: Files,
                                 before: Files, log: seq<RemoteOp>)
      requires Separate(PathSet(files), n)
      reads remote, journal
    {
      && |applied| <= |PathOrder(files)| && applied == PathOrder(files)[..|applied|]
      && JournalRows(id, files, n, start)
      && RemoteRenamed(files, Elements(applied), n, start, plan)
      && RemoteMoved(before, log, Footprint(PathSet(files), n))
    }

    /** The log grew by renames of targets only, and by none exactly when nothing was renamed. */
    ghost predicate RenameLog(before: seq<RemoteOp>, after: seq<RemoteOp>, ps: set<string>, any: bool) {
      && before <= after && (any <==> |before| < |after|)
      && forall k | |before| <= k < |after| :: after[k].Renamed? && after[k].target in ps
    }

    lemma {:induction false} RenamesTouch(log: seq<RemoteOp>, mid: seq<RemoteOp>, ops: seq<RemoteOp>, ps: set<string>,
                                          any: bool, n: Names)
      requires Separate(ps, n) && GrewWithin(log, mid, Aside(n)) && RenameLog(mid, ops, ps, any)
      ensures TargetTouched(ops, |log|, ps) <==> any
    {
      if any { assert ops[|mid|].target in Touched(ops[|mid|]); }
      AsideMisses(log, mid, ps, n);
    }

    /** Renames from `first` to `now`, which ended in `e`: only a rename that fails has lost a write, and only one. */
    ghost predicate RenameProgress(id: string, ps: set<string>, e: RenameEnd, any: bool, first: World, now: World) {
      && OthersKept(first.book, now.book, id) && RenameLog(first.ops, now.ops, ps, any)
      && first.missed <= now.missed <= first.missed + 1 && now.refused == first.refused
      && (!e.RenameFailed? ==> now.missed == first.missed)
    }

    lemma {:induction false} ProgressGrows(id: string, ps: set<string>, e: RenameEnd, earlier: bool, later: bool,
                                           first: World, mid: World, now: World)
      requires RenameProgress(id, ps, AllRenamed, earlier, first, mid) && RenameProgress(id, ps, e, later, mid, now)
      ensures RenameProgress(id, ps, e, earlier || later, first, now)
    {
    }

    lemma {:induction false} NoProgress(id: string, ps: set<string>, e: RenameEnd, w: World)
      ensures RenameProgress(id, ps, e, false, w, w)
    {}

    /** One turn of the rename loop. The process may die at its beginning: `RenameStopped`. */
    method RenameNext(id: string, files: seq<FileRequest>, done: seq<string>, validations: map<string, string>,
                      n: Names,
                      ghost start: Files, ghost plan: Files, ghost before: Files, ghost log: seq<RemoteOp>)
      returns (e: RenameEnd, applied: seq<string>)
      requires DistinctPaths(files) && Separate(PathSet(files), n) && validations.Keys == PathSet(files)
      requires |done| < |PathOrder(files)| && RenamedSoFar(id, files, done, n, start, plan, before, log)
      requires JournalExact(id, Elements(done))
      modifies remote, journal
      ensures |done| <= |applied| && RenameProgress(id, PathSet(files), e, |applied| > |done|, old(Now()), Now())
      ensures RenamedSoFar(id, files, applied, n, start, plan, before, log)
      ensures e.AllRenamed? ==> |applied| == |done| + 1
      ensures !e.RenameFailed? ==> JournalExact(id, Elements(applied))
      ensures JournalBehind(id, Elements(applied), old(journal.missed))
      ensures Flawless() ==> e.AllRenamed?
    {
      NoProgress(id, PathSet(files), RenameStopped, Now());
      if !reliable { if * { return RenameStopped, done; } }
      e, applied := RenameOnward(id, files, done, validations, n, start, plan, before, log);
    }

    method RenameOnward(id: string, files: seq<FileRequest>, done: seq<string>, validations: map<string, string>,
                        n: Names,
                        ghost start: Files, ghost plan: Files, ghost before: Files, ghost log: seq<RemoteOp>)
      returns (e: RenameEnd, applied: seq<string>)
      requires DistinctPaths(files) && Separate(PathSet(files), n) && validations.Keys == PathSet(files)
      requires |done| < |PathOrder(files)| && RenamedSoFar(id, files, done, n, start, plan, before, log)
      requires JournalExact(id, Elements(done))
      modifies remote, journal
      ensures |done| <= |applied| && RenameProgress(id, PathSet(files), e, |applied| > |done|, old(Now()), Now())
      ensures RenamedSoFar(id, files, applied, n, start, plan, before, log)
      ensures e.AllRenamed? ==> |applied| == |done| + 1
      ensures !e.RenameFailed? ==> JournalExact(id, Elements(applied))
      ensures JournalBehind(id, Elements(applied), old(journal.missed))
      ensures Flawless() ==> e.AllRenamed?
    {
      var p := PathOrder(files)[|done|];
      NextInOrder(files, done, p);
      var ok, renamed := RenamePath(id, files, p, |done| == 0, validations[p], n, Elements(done), start, plan, before,
                                    log);
      applied := if renamed then done + [p] else done;
      e := if ok then AllRenamed else RenameFailed;
    }

    /** The renames of the paths in `done`, as sets. */
    method RenamePath(id: string, files: seq<FileRequest>, p: string, first: bool, validation: string, n: Names,
                      ghost done: set<string>, ghost start: Files, ghost plan: Files, ghost before: Files,
                      ghost log: seq<RemoteOp>)
      returns (ok: bool, renamed: bool)
      requires DistinctPaths(files) && Separate(PathSet(files), n) && p in PathSet(files) && p !in done
      requires RemoteRenamed(files, done, n, start, plan) && RemoteMoved(before, log, Footprint(PathSet(files), n))
      requires JournalRows(id, files, n, start) && JournalExact(id, done) && (first <==> done == {})
      modifies remote, journal
      ensures JournalRows(id, files, n, start)
      ensures RenameProgress(id, PathSet(files), if ok then AllRenamed else RenameFailed, renamed, old(Now()), Now())
      ensures ok ==> renamed && JournalExact(id, done + {p})
      ensures RemoteRenamed(files, if renamed then done + {p} else done, n, start, plan)
      ensures RemoteMoved(before, log, Footprint(PathSet(files), n))
      ensures JournalBehind(id, if renamed then done + {p} else done, old(journal.missed))
      ensures Flawless() ==> ok
    {
      var i := FindRequest(files, p);
      ghost var now, ops := remote.files, remote.ops;
      ok, renamed := RenameOne(id, files, i, first, validation, n, done, start, plan);
      FootprintHas(PathSet(files), n, p);
      MovedFurther(before, now, log, ops, {p, n.temp[p]}, Footprint(PathSet(files), n));
    }

    lemma {:induction false} NextInOrder(files: seq<FileRequest>, done: seq<string>, p: string)
      requires DistinctPaths(files) && |done| < |PathOrder(files)| && done == PathOrder(files)[..|done|]
      requires p == PathOrder(files)[|done|]
      ensures p in PathSet(files) && p !in Elements(done) && Elements(done + [p]) == Elements(done) + {p}
      ensures done + [p] == PathOrder(files)[..|done| + 1] && (|done| == 0 <==> Elements(done) == {})
    {
      PathOrderAt(files, |done|, p);
      ElementsSnoc(done, p);
      NoElements(done);
    }

    /** One turn of the loop, told from its beginning `first`. */
    method RenameTurn(id: string, files: seq<FileRequest>, done: seq<string>, validations: map<string, string>,
                      n: Names, ghost start: Files, ghost plan: Files, ghost before: Files, ghost log: seq<RemoteOp>,
                      ghost first: World)
      returns (e: RenameEnd, applied: seq<string>)
      requires DistinctPaths(files) && Separate(PathSet(files), n) && validations.Keys == PathSet(files)
      requires |done| < |PathOrder(files)| && RenamedSoFar(id, files, done, n, start, plan, before, log)
      requires JournalExact(id, Elements(done))
      requires RenameProgress(id, PathSet(files), AllRenamed, |done| > 0, first, Now())
      modifies remote, journal
      ensures RenameProgress(id, PathSet(files), e, |applied| > 0, first, Now())
      ensures RenamedSoFar(id, files, applied, n, start, plan, before, log)
      ensures e.AllRenamed? ==> |applied| == |done| + 1
      ensures !e.RenameFailed? ==> JournalExact(id, Elements(applied))
      ensures JournalBehind(id, Elements(applied), first.missed)
      ensures Flawless() ==> e.AllRenamed?
    {
      ghost var earlier := Now();
      e, applied := RenameNext(id, files, done, validations, n, start, plan, before, log);
      ProgressGrows(id, PathSet(files), e, |done| > 0, |applied| > |done|, first, earlier, Now());
    }

    /** The rename loop. */
    method RenameAll(id: string, files: seq<FileRequest>, validations: map<string, string>, n: Names,
                     ghost start: Files, ghost plan: Files, ghost before: Files, ghost log: seq<RemoteOp>)
      returns (e: RenameEnd, applied: seq<string>)
      requires DistinctPaths(files) && Separate(PathSet(files), n) && validations.Keys == PathSet(files)
      requires RenamedSoFar(id, files, [], n, start, plan, before, log) && JournalExact(id, {})
      modifies remote, journal
      ensures RenameProgress(id, PathSet(files), e, |applied| > 0, old(Now()), Now())
      ensures RenamedSoFar(id, files, applied, n, start, plan, before, log)
      ensures e.AllRenamed? ==> |applied| == |PathOrder(files)|
      ensures !e.RenameFailed? ==> JournalExact(id, Elements(applied))
      ensures JournalBehind(id, Elements(applied), old(journal.missed))
      ensures Flawless() ==> e.AllRenamed?
    {
      e, applied := AllRenamed, [];
      ghost var first := Now();
      NoProgress(id, PathSet(files), AllRenamed, first);
      NoElements(applied);
      while e.AllRenamed? && |applied| < |PathOrder(files)|
        invariant RenameProgress(id, PathSet(files), e, |applied| > 0, first, Now())
        invariant RenamedSoFar(id, files, applied, n, start, plan, before, log)
        invariant Flawless() ==> e.AllRenamed?
        invariant JournalBehind(id, Elements(applied), first.missed)
        invariant !e.RenameFailed? ==> JournalExact(id, Elements(applied))
        decreases e.AllRenamed?, |PathOrder(files)| - |applied|
      {
        e, applied := RenameTurn(id, files, applied, validations, n, start, plan, before, log, first);
      }
      if e.AllRenamed? { e := LastBoundary(); }
    }

    /** After the last rename only the final event is left, or the process dies before it. */
    method LastBoundary() returns (e: RenameEnd)
      ensures reliable ==> e.AllRenamed?
    {
      if !reliable { if * { return RenameStopped; } }
      var ok := Emit();
      e := if ok then AllRenamed else RenameFailed;
    }

    lemma {:induction false} MovedFurther(before: Files, now: Files, log: seq<RemoteOp>, ops: seq<RemoteOp>,
                                          small: set<string>, big: set<string>)
      requires RemoteMoved(now, ops, small) && small <= big
      requires Elsewhere(now, before, big) && GrewWithin(log, ops, big)
      ensures RemoteMoved(before, log, big)
    {
      ElsewhereWider(remote.files, now, small, big);
      ElsewhereTransitively(before, now, remote.files, big);
      GrewWider(ops, remote.ops, small, big);
      GrewTransitively(log, ops, remote.ops, big);
    }

    // -------------------------------------------------------------- step 11

    ghost predicate JournalHas(id: string, files: seq<FileRequest>, n: Names, start: Files, named: bool)
      reads journal
    {
      id in journal.book && RowsFor(journal.book[id].files, files, start) &&
      (named ==> RowsNameBackups(journal.book[id].files, start, n))
    }

    /** Exactly the targets in `left` still hold new bytes, and those can still be undone. */
    ghost predicate Undoable(files: seq<FileRequest>, left: set<string>, n: Names, start: Files, plan: Files)
      reads remote
    {
      left <= PathSet(files) && TargetsAs(remote.files, start, plan, PathSet(files), left) &&
      BackedUp(remote.files, start, left, n)
    }

    /** Restore one file from its backup, or remove it when it was new. */
    method RestoreFile(files: seq<FileRequest>, p: string, absent: bool, n: Names, ghost left: set<string>,
                       ghost start: Files, ghost plan: Files)
      returns (ok: bool)
      requires Separate(PathSet(files), n) && p in left && (absent <==> p !in start)
      requires Undoable(files, left, n, start, plan)
      modifies remote
      ensures Undoable(files, if ok then left - {p} else left, n, start, plan)
      ensures RemoteMoved(old(remote.files), old(remote.ops), {p, n.backup[p]})
    {
      ghost var now := remote.files;
      OneOpGrew(remote.ops, Renamed(n.backup[p], p), {p, n.backup[p]});
      OneOpGrew(remote.ops, Removed(p), {p, n.backup[p]});
      if absent {
        ok := remote.Remove(p);
      } else {
        ok := remote.Rename(n.backup[p], p);
      }
      if ok { UndoStep(now, remote.files, start, plan, PathSet(files), n, left, p); }
    }

    method MarkRestored(id: string, files: seq<FileRequest>, i: nat, absent: bool, n: Names, ghost start: Files,
                        ghost named: bool)
      returns (ok: bool)
      requires i < |files| && DistinctPaths(files) && JournalHas(id, files, n, start, named)
      modifies journal
      ensures JournalHas(id, files, n, start, named) && OthersKept(old(journal.book), journal.book, id)
      ensures journal.book[id].status == old(journal.book)[id].status
      ensures AppliedPaths(journal.book[id].files) ==
              if ok then AppliedPaths(old(journal.book)[id].files) - {files[i].path}
                  else AppliedPaths(old(journal.book)[id].files)
      ensures journal.missed == (if ok then old(journal.missed) else old(journal.missed) + 1) &&
              journal.refused == old(journal.refused)
    {
      var rowId := files[i].operationId;
      var u := NO_UPDATE.(applied := Some(false), rollback := Some(if absent then "removed" else "restored"));
      ghost var rows := journal.book[id].files;
      assert rows[i].id == rowId && rows[i].path == files[i].path;
      assert forall j, k | 0 <= j < k < |rows| :: rows[j].path != rows[k].path;
      PatchKeepsRows(rows, files, start, rowId, u);
      if named { PatchKeepsNames(rows, start, n, rowId, u); }
      PatchSetsApplied(rows, i, u);
      ok := journal.UpdateRow(id, rowId, u);
    }

    method UndoOne(id: string, files: seq<FileRequest>, p: string, absent: bool, n: Names,
                   ghost left: set<string>, ghost start: Files, ghost plan: Files, ghost named: bool)
      returns (ok: bool, ghost rest: set<string>)
      requires Separate(PathSet(files), n) && DistinctPaths(files) && p in left && (absent <==> p !in start)
      requires Undoable(files, left, n, start, plan) && JournalHas(id, files, n, start, named)
      modifies remote, journal
      ensures Undoable(files, rest, n, start, plan) && (rest == left || rest == left - {p})
      ensures RemoteMoved(old(remote.files), old(remote.ops), {p, n.backup[p]})
      ensures JournalHas(id, files, n, start, named) && OthersKept(old(journal.book), journal.book, id)
      ensures journal.book[id].status == old(journal.book)[id].status
      ensures AppliedPaths(journal.book[id].files) ==
              if ok then AppliedPaths(old(journal.book)[id].files) - {p} else AppliedPaths(old(journal.book)[id].files)
      ensures ok ==> rest == left - {p} && journal.missed == old(journal.missed)
      ensures journal.missed >= old(journal.missed) && journal.refused == old(journal.refused)
      ensures journal.missed == old(journal.missed) && !ok ==> rest == left
    {
      ok := RestoreFile(files, p, absent, n, left, start, plan);
      rest := if ok then left - {p} else left;
      if !ok { return; }
      var i := FindRequest(files, p);
      ok := MarkRestored(id, files, i, absent, n, start, named);
    }

    /** Exactly the targets in `rest` hold their new bytes, with the originals in their backups. */
    ghost predicate LeftRenamed(end: Files, start: Files, plan: Files, ps: set<string>, n: Names, rest: set<string>) {
      TargetsAs(end, start, plan, ps, rest) && BackedUp(end, start, rest, n)
    }

    /** The stores an undo works on. */
    ghost function Now(): World
      reads remote, journal
    {
      World(remote.files, remote.ops, journal.book, journal.missed, journal.refused)
    }

    /** What the undo loop knows when the paths in `todo` are still to come. The `failed` paths are among those it has
        passed, a lost write is one of the failures, and without one they are exactly the passed paths that still
        hold new bytes. `none`: nothing has failed. */
    ghost predicate UndoneFrom(all: set<string>, todo: set<string>, rest: set<string>, failed: set<string>, none: bool,
                               journalled: set<string>, lost: bool)
    {
      && todo <= rest <= all && journalled <= all && failed !! todo
      && (none ==> !lost && journalled <= todo) && (!lost ==> rest == todo + failed)
    }

    /** The undo since `first` has the paths in `todo` still to come: `rest` still holds new bytes, only rows of this
        changeset changed, and without a lost write they mark exactly what is left. */
    ghost predicate Undoing(id: string, files: seq<FileRequest>, all: set<string>, todo: set<string>, n: Names,
                            failed: set<string>, none: bool, rest: set<string>, start: Files, plan: Files, named: bool,
                            names: set<string>, first: World, now: World)
    {
      && rest <= PathSet(files) && LeftRenamed(now.files, start, plan, PathSet(files), n, rest)
      && Elsewhere(now.files, first.files, names) && GrewWithin(first.ops, now.ops, names)
      && id in first.book && id in now.book && OthersKept(first.book, now.book, id)
      && RowsFor(now.book[id].files, files, start) && (named ==> RowsNameBackups(now.book[id].files, start, n))
      && now.book[id].status == first.book[id].status
      && now.missed >= first.missed && now.refused == first.refused
      && UndoneFrom(all, todo, rest, failed, none, AppliedPaths(now.book[id].files), now.missed > first.missed)
      && (now.missed == first.missed && AppliedPaths(first.book[id].files) == all ==>
            AppliedPaths(now.book[id].files) == rest)
    }

    lemma {:induction false} MovedNowhere(names: set<string>)
      ensures RemoteMoved(remote.files, remote.ops, names)
    {}

    /** Step 11: restore the renamed files in reverse order, whatever fails on the way. */
    method UndoAll(id: string, files: seq<FileRequest>, applied: seq<string>, newFiles: set<string>, n: Names,
                   ghost start: Files, ghost plan: Files, ghost named: bool)
      returns (failures: seq<string>, ghost rest: set<string>)
      requires Separate(PathSet(files), n) && newFiles == NewFiles(files, start)
      requires DistinctPaths(files)
      requires |applied| <= |PathOrder(files)| && applied == PathOrder(files)[..|applied|]
      requires Undoable(files, Elements(applied), n, start, plan)
      requires JournalHas(id, files, n, start, named) && AppliedPaths(journal.book[id].files) <= Elements(applied)
      modifies remote, journal
      ensures rest <= Elements(applied) && Undoable(files, rest, n, start, plan)
      ensures RemoteMoved(old(remote.files), old(remote.ops), Footprint(PathSet(files), n))
      ensures JournalHas(id, files, n, start, named) && OthersKept(old(journal.book), journal.book, id)
      ensures journal.book[id].status == old(journal.book)[id].status
      ensures failures == [] <==> rest == {} && journal.missed == old(journal.missed)
      ensures journal.missed == old(journal.missed) ==> rest == Elements(failures)
      ensures failures == [] ==> AppliedPaths(journal.book[id].files) == {}
      ensures journal.missed == old(journal.missed) &&
              AppliedPaths(old(journal.book)[id].files) == Elements(applied) ==>
                AppliedPaths(journal.book[id].files) == rest
      ensures journal.missed >= old(journal.missed) && journal.refused == old(journal.refused)
    {
      UndoBegins(id, files, Elements(applied), n, start, plan, named);
      failures, rest := UndoLoop(id, files, applied, newFiles, n, start, plan, named);
      UndoEnds(Elements(applied), rest, failures, AppliedPaths(journal.book[id].files),
               journal.missed > old(journal.missed));
    }

    lemma {:induction false} UndoBegins(id: string, files: seq<FileRequest>, all: set<string>, n: Names, start: Files,
                                        plan: Files, named: bool)
      requires Separate(PathSet(files), n) && Undoable(files, all, n, start, plan)
      requires JournalHas(id, files, n, start, named) && AppliedPaths(journal.book[id].files) <= all
      ensures Undoing(id, files, all, all, n, {}, true, all, start, plan, named, Footprint(PathSet(files), n), Now(),
                      Now())
    {
      MovedNowhere(Footprint(PathSet(files), n));
    }

    lemma {:induction false} UndoEnds(all: set<string>, rest: set<string>, failures: seq<string>,
                                      journalled: set<string>, lost: bool)
      requires UndoneFrom(all, {}, rest, Elements(failures), failures == [], journalled, lost)
      ensures rest <= all && (!lost ==> rest == Elements(failures))
      ensures failures == [] <==> rest == {} && !lost
      ensures failures == [] ==> journalled == {}
    {
      NoElements(failures);
    }

    method UndoLoop(id: string, files: seq<FileRequest>, applied: seq<string>, newFiles: set<string>, n: Names,
                    ghost start: Files, ghost plan: Files, ghost named: bool)
      returns (failures: seq<string>, ghost rest: set<string>)
      requires Separate(PathSet(files), n) && newFiles == NewFiles(files, start) && DistinctPaths(files)
      requires |applied| <= |PathOrder(files)| && applied == PathOrder(files)[..|applied|]
      requires Undoing(id, files, Elements(applied), Elements(applied), n, {}, true, Elements(applied), start, plan,
                       named, Footprint(PathSet(files), n), Now(), Now())
      modifies remote, journal
      ensures Undoing(id, files, Elements(applied), {}, n, Elements(failures), failures == [], rest, start, plan, named,
                      Footprint(PathSet(files), n), old(Now()), Now())
    {
      failures, rest := [], Elements(applied);
      ghost var first, names, all, todo := Now(), Footprint(PathSet(files), n), Elements(applied), Elements(applied);
      ghost var failed: set<string> := {};
      var k: nat := |applied|;
      assert applied[..k] == applied;
      while k > 0
        invariant k <= |applied| && todo == Elements(applied[..k]) && failed == Elements(failures)
        invariant Undoing(id, files, all, todo, n, failed, failures == [], rest, start, plan, named, names, first,
                          Now())
      {
        failures, failed, rest, k,
            todo := UndoTurn(id, files, applied, k, newFiles, n, failures, failed, rest, todo, start,
                                                    plan, named, first);
      }
      assert applied[..0] == [];
    }

    lemma {:induction false} UndoneOneMore(all: set<string>, todo: set<string>, p: string, left: set<string>,
                                           rest: set<string>, failed: set<string>, none: bool, earlier: set<string>,
                                           journalled: set<string>, before: bool, lost: bool, ok: bool)
      requires p in todo && UndoneFrom(all, todo, left, failed, none, earlier, before) && (before ==> lost)
      requires (rest == left || rest == left - {p}) && (ok ==> rest == left - {p} && before == lost)
      requires !ok && !lost ==> rest == left
      requires journalled == if ok then earlier - {p} else earlier
      ensures UndoneFrom(all, todo - {p}, rest, if ok then failed else failed + {p}, none && ok, journalled, lost)
    {}

    /** One turn of the loop. */
    method UndoTurn(id: string, files: seq<FileRequest>, applied: seq<string>, k: nat, newFiles: set<string>, n: Names,
                    failures: seq<string>, ghost failed: set<string>, ghost left: set<string>, ghost todo: set<string>,
                    ghost start: Files, ghost plan: Files, ghost named: bool, ghost first: World)
      returns (more: seq<string>, ghost failed': set<string>, ghost rest: set<string>, next: nat,
               ghost todo': set<string>)
      requires Separate(PathSet(files), n) && newFiles == NewFiles(files, start) && DistinctPaths(files)
      requires |applied| <= |PathOrder(files)| && applied == PathOrder(files)[..|applied|] && 0 < k <= |applied|
      requires todo == Elements(applied[..k]) && failed == Elements(failures)
      requires Undoing(id, files, Elements(applied), todo, n, failed, failures == [], left, start, plan, named,
                       Footprint(PathSet(files), n), first, Now())
      modifies remote, journal
      ensures next == k - 1 && todo' == Elements(applied[..next]) && failed' == Elements(more)
      ensures Undoing(id, files, Elements(applied), todo', n, failed', more == [], rest, start, plan, named,
                      Footprint(PathSet(files), n), first, Now())
    {
      ghost var all, p := Elements(applied), applied[k - 1];
      NextToUndo(files, applied, k, failures);
      next, todo' := k - 1, todo - {p};
      var ok: bool;
      ok, rest := UndoPath(id, files, applied[k - 1], all, todo, newFiles, n, failed, failures == [], left, start, plan,
                           named, first);
      more := if ok then failures else failures + [applied[k - 1]];
      failed' := if ok then failed else failed + {p};
    }

    lemma {:induction false} NextToUndo(files: seq<FileRequest>, applied: seq<string>, k: nat, failures: seq<string>)
      requires DistinctPaths(files) && |applied| <= |PathOrder(files)| && applied == PathOrder(files)[..|applied|]
      requires 0 < k <= |applied|
      ensures applied[k - 1] in PathSet(files) && applied[k - 1] in Elements(applied[..k])
      ensures Elements(applied[..k - 1]) == Elements(applied[..k]) - {applied[k - 1]}
      ensures Elements(failures + [applied[k - 1]]) == Elements(failures) + {applied[k - 1]}
    {
      UndoPosition(files, applied, k - 1);
      ElementsSnoc(failures, applied[k - 1]);
    }

    /** One path undone, or failed. */
    method UndoPath(id: string, files: seq<FileRequest>, p: string, ghost all: set<string>, ghost todo: set<string>,
                    newFiles: set<string>, n: Names, ghost failed: set<string>, ghost none: bool,
                    ghost left: set<string>, ghost start: Files, ghost plan: Files, ghost named: bool,
                    ghost first: World)
      returns (ok: bool, ghost rest: set<string>)
      requires Separate(PathSet(files), n) && newFiles == NewFiles(files, start) && DistinctPaths(files)
      requires p in PathSet(files) && p in todo
      requires Undoing(id, files, all, todo, n, failed, none, left, start, plan, named, Footprint(PathSet(files), n),
                       first, Now())
      modifies remote, journal
      ensures Undoing(id, files, all, todo - {p}, n, if ok then failed else failed + {p}, none && ok, rest, start, plan,
                      named, Footprint(PathSet(files), n), first, Now())
    {
      ghost var journalled, lost := AppliedPaths(journal.book[id].files), journal.missed > first.missed;
      ok, rest := UndoAt(id, files, p, all, todo, newFiles, n, failed, none, left, start, plan, named, first);
      UndoneOneMore(all, todo, p, left, rest, failed, none, journalled, AppliedPaths(journal.book[id].files), lost,
                    journal.missed > first.missed, ok);
    }

    /** The same, from what the loop knows. */
    method UndoAt(id: string, files: seq<FileRequest>, p: string, ghost all: set<string>, ghost todo: set<string>,
                  newFiles: set<string>, n: Names, ghost failed: set<string>, ghost none: bool, ghost left: set<string>,
                  ghost start: Files, ghost plan: Files, ghost named: bool, ghost first: World)
      returns (ok: bool, ghost rest: set<string>)
      requires Separate(PathSet(files), n) && newFiles == NewFiles(files, start) && DistinctPaths(files)
      requires p in PathSet(files) && p in todo
      requires Undoing(id, files, all, todo, n, failed, none, left, start, plan, named, Footprint(PathSet(files), n),
                       first, Now())
      modifies remote, journal
      ensures Undoable(files, rest, n, start, plan) && (rest == left || rest == left - {p})
      ensures RemoteMoved(first.files, first.ops, Footprint(PathSet(files), n))
      ensures JournalHas(id, files, n, start, named) && OthersKept(first.book, journal.book, id)
      ensures journal.book[id].status == old(journal.book)[id].status
      ensures AppliedPaths(journal.book[id].files) ==
              if ok then AppliedPaths(old(journal.book)[id].files) - {p} else AppliedPaths(old(journal.book)[id].files)
      ensures ok ==> rest == left - {p} && journal.missed == old(journal.missed)
      ensures journal.missed >= old(journal.missed) && journal.refused == old(journal.refused)
      ensures journal.missed == old(journal.missed) && !ok ==> rest == left
    {
      OriginalsAt(files, start, p);
      ghost var now, ops := remote.files, remote.ops;
      ok, rest := UndoOne(id, files, p, p in newFiles, n, left, start, plan, named);
      FootprintHas(PathSet(files), n, p);
      MovedFurther(first.files, now, first.ops, ops, {p, n.backup[p]}, Footprint(PathSet(files), n));
    }

    /** Best-effort removal of temporary files that were written but not renamed. */
    method CleanTemps(files: seq<FileRequest>, applied: seq<string>, written: set<string>, n: Names)
      requires Separate(PathSet(files), n)
      modifies remote
      ensures RemoteMoved(old(remote.files), old(remote.ops), n.temp.Values)
    {
      ghost var before, log := remote.files, remote.ops;
      for i := 0 to |files|
        invariant RemoteMoved(before, log, n.temp.Values)
      {
        PathSetHas(files, i);
        if files[i].path !in applied && files[i].path in written {
          ghost var now, ops := remote.files, remote.ops;
          var _ := remote.Remove(n.temp[files[i].path]);
          assert n.temp[files[i].path] in n.temp.Values;
          MovedFurther(before, now, log, ops, {n.temp[files[i].path]}, n.temp.Values);
        }
      }
    }

    predicate Active(s: Status) {
      s in {Draft, Preflighted, LocallyBackedUp, RemotelyBackedUp, Applied}
    }

    /** The final bookkeeping of a failed apply. */
    method Conclude(id: string, applied: seq<string>, failures: seq<string>) returns (outcome: Outcome)
      requires id in journal.book && Active(journal.book[id].status)
      modifies journal
      ensures OthersKept(old(journal.book), journal.book, id) && id in journal.book
      ensures journal.book[id] == old(journal.book)[id].(status := journal.book[id].status)
      ensures outcome == RolledBackAll(applied) || outcome == FailedApply || outcome.Raised?
      ensures outcome.RolledBackAll? ==> applied != [] && failures == [] && journal.book[id].status == RolledBack
      ensures outcome.FailedApply? ==> (applied == [] || failures != []) && journal.book[id].status == Failed
      ensures outcome.Raised? ==>
              outcome.lostEvent || journal.missed > old(journal.missed) || journal.refused > old(journal.refused)
      ensures journal.missed >= old(journal.missed) && journal.refused >= old(journal.refused)
      ensures journal.refused > old(journal.refused) <==>
              applied != [] && failures == [] && old(journal.book)[id].status != Applied
      ensures journal.refused > old(journal.refused) ==>
                outcome == Raised(false) && journal.book == old(journal.book) && journal.missed == old(journal.missed)
      ensures journal.book[id].status in {old(journal.book)[id].status, RolledBack, Failed}
      ensures journal.missed == old(journal.missed) && journal.refused == old(journal.refused) ==>
                journal.book[id].status in {RolledBack, Failed}
    {
      if applied != [] && failures == [] {
        var m := MoveTo(id, RolledBack);
        if !m.Moved? { return Raised(m.MovedUnannounced?); }
        var ok := Emit();
        if !ok { return Raised(true); }
        return RolledBackAll(applied);
      }
      var m := MoveTo(id, Failed);
      outcome := if m.Moved? then FailedApply else Raised(m.MovedUnannounced?);
    }

    /** What the handler did about a failure after the renames `applied`. Without a lost write, Failed means that some
        target still holds new bytes; and its last status write is refused exactly when it put every target back
        without losing a write and the status never got to Applied. */
    ghost predicate Handled(id: string, applied: seq<string>, outcome: Outcome, rest: set<string>, first: World,
                            now: World)
    {
      && first.ops <= now.ops && first.missed <= now.missed && first.refused <= now.refused
      && id in first.book && id in now.book && now.book[id].status in {first.book[id].status, RolledBack, Failed}
      && (outcome.FailedApply? && applied != [] && now.missed == first.missed ==> rest != {})
      && (now.missed == first.missed && now.refused == first.refused ==> now.book[id].status in {RolledBack, Failed})
      && (now.refused > first.refused <==>
          applied != [] && rest == {} && now.missed == first.missed && first.book[id].status != Applied)
      && (now.refused > first.refused ==>
            outcome == Raised(false) && AppliedPaths(now.book[id].files) == {} &&
            now.book[id].status == first.book[id].status)
    }

    method HandleFailure(req: Request, applied: seq<string>, created: bool, written: set<string>, newFiles: set<string>,
                         n: Names,
                         ghost start: Files, ghost plan: Files, ghost named: bool)
      returns (outcome: Outcome, ghost rest: set<string>)
      requires Separate(PathSet(req.files), n)
      requires applied != [] ==> created && DistinctPaths(req.files) && newFiles == NewFiles(req.files, start)
      requires |applied| <= |PathOrder(req.files)| && applied == PathOrder(req.files)[..|applied|]
      requires Undoable(req.files, Elements(applied), n, start, plan)
      requires created ==>
                 && JournalHas(req.changesetId, req.files, n, start, named)
                 && Active(journal.book[req.changesetId].status)
                 && AppliedPaths(journal.book[req.changesetId].files) <= Elements(applied)
      modifies remote, journal
      ensures rest <= Elements(applied) && Undoable(req.files, rest, n, start, plan)
      ensures RemoteMoved(old(remote.files), old(remote.ops), Footprint(PathSet(req.files), n))
      ensures applied == [] ==> RemoteMoved(old(remote.files), old(remote.ops), n.temp.Values)
      ensures !created ==> journal.book == old(journal.book) && outcome == FailedApply
      ensures !created ==> journal.missed == old(journal.missed) && journal.refused == old(journal.refused)
      ensures created ==>
              JournalHas(req.changesetId, req.files, n, start, named) &&
              OthersKept(old(journal.book), journal.book, req.changesetId)
      ensures outcome == RolledBackAll(applied) || outcome == FailedApply || outcome.Raised?
      ensures outcome.RolledBackAll? ==>
                && applied != [] && rest == {} && AppliedPaths(journal.book[req.changesetId].files) == {}
                && journal.book[req.changesetId].status == RolledBack
      ensures outcome.FailedApply? && created ==> journal.book[req.changesetId].status == Failed
      ensures created && journal.missed == old(journal.missed) &&
              AppliedPaths(old(journal.book)[req.changesetId].files) == Elements(applied) ==>
                AppliedPaths(journal.book[req.changesetId].files) == rest
      ensures outcome.Raised? ==>
              outcome.lostEvent || journal.missed > old(journal.missed) || journal.refused > old(journal.refused)
      ensures created ==> Handled(req.changesetId, applied, outcome, rest, old(Now()), Now())
    {
      var failures: seq<string>;
      failures, rest := UndoAndClean(req, applied, created, written, newFiles, n, start, plan, named);
      if !created { return FailedApply, rest; }
      outcome := Conclude(req.changesetId, applied, failures);
    }

    /** The undo, then the temporary files. */
    method UndoAndClean(req: Request, applied: seq<string>, ghost created: bool, written: set<string>,
                        newFiles: set<string>, n: Names, ghost start: Files, ghost plan: Files, ghost named: bool)
      returns (failures: seq<string>, ghost rest: set<string>)
      requires Separate(PathSet(req.files), n)
      requires applied != [] ==> created && DistinctPaths(req.files) && newFiles == NewFiles(req.files, start)
      requires |applied| <= |PathOrder(req.files)| && applied == PathOrder(req.files)[..|applied|]
      requires Undoable(req.files, Elements(applied), n, start, plan)
      requires created ==>
                 && JournalHas(req.changesetId, req.files, n, start, named)
                 && AppliedPaths(journal.book[req.changesetId].files) <= Elements(applied)
      modifies remote, journal
      ensures rest <= Elements(applied) && Undoable(req.files, rest, n, start, plan)
      ensures RemoteMoved(old(remote.files), old(remote.ops), Footprint(PathSet(req.files), n))
      ensures applied == [] ==> RemoteMoved(old(remote.files), old(remote.ops), n.temp.Values)
      ensures applied == [] ==> journal.book == old(journal.book) && journal.missed == old(journal.missed)
      ensures created ==>
                && JournalHas(req.changesetId, req.files, n, start, named)
                && OthersKept(old(journal.book), journal.book, req.changesetId)
                && journal.book[req.changesetId].status == old(journal.book)[req.changesetId].status
                && (failures == [] ==> AppliedPaths(journal.book[req.changesetId].files) == {})
      ensures failures == [] <==> rest == {} && journal.missed == old(journal.missed)
      ensures created && journal.missed == old(journal.missed) &&
              AppliedPaths(old(journal.book)[req.changesetId].files) == Elements(applied) ==>
                AppliedPaths(journal.book[req.changesetId].files) == rest
      ensures journal.missed >= old(journal.missed) && journal.refused == old(journal.refused)
    {
      failures, rest := [], Elements(applied);
      ghost var before, log := remote.files, remote.ops;
      if applied != [] {
        failures, rest := UndoAll(req.changesetId, req.files, applied, newFiles, n, start, plan, named);
      }
      ghost var now, ops := remote.files, remote.ops;
      CleanTemps(req.files, applied, written, n);
      AsideStep(now, remote.files, start, plan, PathSet(req.files), n, rest, n.temp.Values);
      MovedFurther(before, now, log, ops, n.temp.Values, Footprint(PathSet(req.files), n));
    }

    // -------------------------------------------------------------- the phases

    function NewRows(files: seq<FileRequest>, newFiles: set<string>): seq<FileChange> {
      seq(|files|, i requires 0 <= i < |files| => NewRow(files[i], newFiles))
    }

    lemma {:induction false} NewRowsAreFresh(files: seq<FileRequest>, start: Files)
      requires DistinctIds(NewRows(files, NewFiles(files, start)))
      ensures RowsFor(NewRows(files, NewFiles(files, start)), files, start)
      ensures AppliedPaths(NewRows(files, NewFiles(files, start))) == {}
    {
      forall i | 0 <= i < |files| ensures files[i].path in NewFiles(files, start) <==> files[i].path !in start {
        PathSetHas(files, i);
        OriginalsAt(files, start, files[i].path);
      }
    }

    /** The request has its own entry, new to the journal and filed under its target and its service. */
    ghost predicate Entered(before: Book, after: Book, req: Request) {
      && req.changesetId !in before && req.changesetId in after && OthersKept(before, after, req.changesetId)
      && after[req.changesetId].targetId == req.targetId && after[req.changesetId].service == req.service
    }

    lemma {:induction false} StaysEntered(before: Book, mid: Book, after: Book, req: Request)
      requires Entered(before, mid, req) && OthersKept(mid, after, req.changesetId)
      ensures Entered(before, after, req)
    {}

    /** Steps 1 to 4, which only read. */
    method Examine(req: Request)
      returns (ok: bool, originals: map<string, Bytes>, newFiles: set<string>, contents: map<string, Bytes>,
               validations: map<string, string>)
      ensures ok ==>
                && PreflightHolds(env, req.files, remote.files)
                && originals == Originals(req.files, remote.files) && newFiles == NewFiles(req.files, remote.files)
                && Plan(env, req.files, originals) == Some(contents)
                && Validations(env, req.files, contents) == Some(validations)
      ensures Flawless() && Planned(req, remote.files, Wanted(req, remote.files)) ==> ok
    {
      contents, validations := map[], map[];
      ok, originals, newFiles := Preflight(req.files);
      if !ok { return; }
      ok := false;
      var computed := ComputeNew(req.files, originals);
      if computed.None? { return; }
      contents := computed.value;
      var checked := ValidateAll(req.files, contents);
      if checked.None? { return; }
      validations := checked.value;
      ok := true;
    }

    /** The DRAFT journal entry, and the first status after it. */
    method Enter(req: Request, newFiles: set<string>) returns (ok: bool, created: bool)
      requires newFiles == NewFiles(req.files, remote.files)
      modifies journal
      ensures !created ==> journal.book == old(journal.book) && !ok
      ensures created ==>
                && Entered(old(journal.book), journal.book, req)
                && JournalFresh(req.changesetId, req.files, remote.files)
                && journal.book[req.changesetId].status in {Draft, Preflighted}
      ensures ok ==> created && journal.book[req.changesetId].status == Preflighted
      ensures journal.missed >= old(journal.missed) && (ok ==> journal.missed == old(journal.missed))
      ensures journal.refused == old(journal.refused)
      ensures Flawless() && CanCreate(old(journal.book), req.changesetId, NewRows(req.files, newFiles)) ==> ok
    {
      ok := false;
      created := journal.Create(req.changesetId, req.targetId, req.service, NewRows(req.files, newFiles));
      if !created { return; }
      NewRowsAreFresh(req.files, remote.files);
      var announced := Emit();
      if !announced { return; }
      var m := MoveTo(req.changesetId, Preflighted);
      ok := m.Moved?;
    }

    /** Steps 1 to 4 and the DRAFT journal entry. */
    method Begin(req: Request)
      returns (ok: bool, created: bool, originals: map<string, Bytes>, newFiles: set<string>,
               contents: map<string, Bytes>, validations: map<string, string>)
      modifies journal
      ensures !created ==> journal.book == old(journal.book) && !ok
      ensures created ==>
                && Entered(old(journal.book), journal.book, req)
                && JournalFresh(req.changesetId, req.files, remote.files)
                && journal.book[req.changesetId].status in {Draft, Preflighted}
      ensures ok ==>
                && created && journal.book[req.changesetId].status == Preflighted
                && PreflightHolds(env, req.files, remote.files)
                && originals == Originals(req.files, remote.files) && newFiles == NewFiles(req.files, remote.files)
                && Plan(env, req.files, originals) == Some(contents)
                && Validations(env, req.files, contents) == Some(validations)
      ensures journal.missed >= old(journal.missed) && (ok ==> journal.missed == old(journal.missed))
      ensures journal.refused == old(journal.refused)
      ensures Flawless() && Beginnable(req, remote.files, old(journal.book)) ==> ok
    {
      created := false;
      ok, originals, newFiles, contents, validations := Examine(req);
      if ok { ok, created := Enter(req, newFiles); }
    }

    /** Steps 5 and 6: both backups of every file. */
    method Secure(req: Request, originals: map<string, Bytes>, newFiles: set<string>, n: Names, ghost start: Files)
        returns (ok: bool)
      requires Separate(PathSet(req.files), n)
      requires originals == Originals(req.files, start) && newFiles == NewFiles(req.files, start)
      requires JournalFresh(req.changesetId, req.files, start) && journal.book[req.changesetId].status == Preflighted
      modifies remote, journal, vault
      ensures JournalFresh(req.changesetId, req.files, start) &&
              OthersKept(old(journal.book), journal.book, req.changesetId)
      ensures Active(journal.book[req.changesetId].status)
      ensures ok ==>
                && journal.book[req.changesetId].status == RemotelyBackedUp
                && JournalReady(req.changesetId, req.files, n, start)
                && Unmoved(old(remote.files), start, PathSet(req.files))
                && BackedUp(remote.files, start, PathSet(req.files), n)
                && CopiesTaken(remote.ops, |old(remote.ops)|, |remote.ops|, start, PathSet(req.files), n)
                && (BlobNamesDistinct(req.files) ==> LocalCopies(vault.blobs, req.files, start))
      ensures RemoteMoved(old(remote.files), old(remote.ops), n.backup.Values)
      ensures journal.missed >= old(journal.missed) && (ok ==> journal.missed == old(journal.missed))
      ensures journal.refused == old(journal.refused)
      ensures Flawless() && VaultFits(req.files) && Unmoved(old(remote.files), start, PathSet(req.files)) ==> ok
    {
      StoresDiffer();
      ok := SecureLocally(req.changesetId, req.files, originals, newFiles, start);
      if !ok { return; }
      ok := SecureRemotely(req.changesetId, req.files, originals, newFiles, n, start);
    }

    method SecureLocally(id: string, files: seq<FileRequest>, originals: map<string, Bytes>, newFiles: set<string>,
                         ghost start: Files)
      returns (ok: bool)
      requires originals == Originals(files, start) && newFiles == NewFiles(files, start)
      requires JournalFresh(id, files, start) && journal.book[id].status == Preflighted
      modifies journal, vault
      ensures JournalFresh(id, files, start) && OthersKept(old(journal.book), journal.book, id)
      ensures Active(journal.book[id].status)
      ensures ok ==>
              journal.book[id].status == LocallyBackedUp &&
              (BlobNamesDistinct(files) ==> LocalCopies(vault.blobs, files, start))
      ensures journal.missed >= old(journal.missed) && (ok ==> journal.missed == old(journal.missed))
      ensures journal.refused == old(journal.refused)
      ensures Flawless() && VaultFits(files) ==> ok
    {
      StoresDiffer();
      ok := LocalBackups(id, files, originals, newFiles, start);
      if !ok { return; }
      var m := MoveTo(id, LocallyBackedUp);
      ok := m.Moved?;
    }

    method SecureRemotely(id: string, files: seq<FileRequest>, originals: map<string, Bytes>, newFiles: set<string>,
                          n: Names, ghost start: Files)
      returns (ok: bool)
      requires Separate(PathSet(files), n)
      requires originals == Originals(files, start) && newFiles == NewFiles(files, start)
      requires JournalFresh(id, files, start) && journal.book[id].status == LocallyBackedUp
      modifies remote, journal
      ensures JournalFresh(id, files, start) && OthersKept(old(journal.book), journal.book, id)
      ensures Active(journal.book[id].status)
      ensures ok ==>
                && journal.book[id].status == RemotelyBackedUp && JournalReady(id, files, n, start)
                && Unmoved(old(remote.files), start, PathSet(files))
                && BackedUp(remote.files, start, PathSet(files), n)
                && CopiesTaken(remote.ops, |old(remote.ops)|, |remote.ops|, start, PathSet(files), n)
      ensures RemoteMoved(old(remote.files), old(remote.ops), n.backup.Values)
      ensures journal.missed >= old(journal.missed) && (ok ==> journal.missed == old(journal.missed))
      ensures journal.refused == old(journal.refused)
      ensures Flawless() && Unmoved(old(remote.files), start, PathSet(files)) ==> ok
    {
      StoresDiffer();
      ok := RemoteBackups(id, files, originals, newFiles, n, start);
      if !ok { return; }
      var m := MoveTo(id, RemotelyBackedUp);
      ok := m.Moved?;
    }

    /** Steps 7 to 9: temporary files, compose check, approval gate, recheck. */
    method Stage(req: Request, approvalId: Option<string>, now: Instant, originals: map<string, Bytes>,
                 contents: map<string, Bytes>, n: Names,
                 ghost start: Files)
      returns (ok: bool, written: set<string>)
      requires Separate(PathSet(req.files), n) && approvals.Valid()
      requires originals == Originals(req.files, start) && contents.Keys == PathSet(req.files) &&
               PreflightHolds(env, req.files, start)
      requires JournalReady(req.changesetId, req.files, n, start) &&
               journal.book[req.changesetId].status == RemotelyBackedUp
      requires TargetsAs(remote.files, start, contents, PathSet(req.files), {}) &&
               BackedUp(remote.files, start, PathSet(req.files), n)
      modifies remote, journal, approvals
      ensures approvals.Valid()
      ensures JournalFresh(req.changesetId, req.files, start) &&
              OthersKept(old(journal.book), journal.book, req.changesetId)
      ensures journal.book[req.changesetId].status == RemotelyBackedUp
      ensures ok ==> RenamesMayBegin(req, n, start, contents)
      ensures ok ==> GatePassed(req, approvalId, now, old(approvals.spent), approvals.spent)
      ensures old(approvals.spent) <= approvals.spent
      ensures approvals.spent != old(approvals.spent) ==>
              AllStaged(remote.ops, |old(remote.ops)|, contents, PathSet(req.files), n)
      ensures RemoteMoved(old(remote.files), old(remote.ops), n.temp.Values)
      ensures journal.missed >= old(journal.missed) && (ok ==> journal.missed == old(journal.missed))
      ensures journal.refused == old(journal.refused)
      ensures Flawless() && Stageable(req, approvalId, now, n, old(remote.files), old(approvals.rows)) ==> ok
    {
      StoresDiffer();
      ok, written := WriteTemps(req.changesetId, req.files, contents, n, start);
      if !ok { return; }
      assert req.files[..|req.files|] == req.files;
      ok := PassGate(req, approvalId, now, originals, start);
    }

    /** Compose check, approval gate and recheck. */
    method PassGate(req: Request, approvalId: Option<string>, now: Instant, originals: map<string, Bytes>,
                    ghost start: Files) returns (ok: bool)
      requires approvals.Valid() && originals == Originals(req.files, start) && PreflightHolds(env, req.files, start)
      modifies approvals
      ensures approvals.Valid() && old(approvals.spent) <= approvals.spent
      ensures ok ==> GatePassed(req, approvalId, now, old(approvals.spent), approvals.spent)
      ensures Flawless() && CanPay(req, approvalId, now, old(approvals.rows)) ==> ok
    {
      ok := ComposeAccepts(req.files);
      if !ok { return; }
      ok := Gate(req, approvalId, now);
      if !ok { return; }
      ok := Recheck(req.files, originals, start);
    }

    /** The request can be met: every file is as expected and the new contents are known. */
    ghost predicate Planned(req: Request, start: Files, plan: Files) {
      && PreflightHolds(env, req.files, start)
      && Plan(env, req.files, Originals(req.files, start)) == Some(plan) && Validations(env, req.files, plan).Some?
    }

    /** What holds when the rename loop may begin. */
    ghost predicate RenamesMayBegin(req: Request, n: Names, start: Files, plan: Files)
      reads remote, journal
    {
      && DistinctPaths(req.files) && RemoteRenamed(req.files, {}, n, start, plan)
      && JournalRows(req.changesetId, req.files, n, start) && JournalExact(req.changesetId, {})
    }

    /** An approval can only have been spent once every temporary file was in place. */
    ghost predicate SpentOnlyWhenStaged(req: Request, n: Names, start: Files, log: seq<RemoteOp>, ops: seq<RemoteOp>,
                                        spentBefore: seq<Spending>, spent: seq<Spending>)
    {
      spentBefore <= spent &&
      (spent != spentBefore ==>
         var plan := Plan(env, req.files, Originals(req.files, start));
         plan.Some? && AllStaged(ops, |log|, plan.value, PathSet(req.files), n))
    }

    /** No two of the four stores are one object. */
    lemma {:induction false} StoresDiffer()
      ensures vault as object !in {remote as object, journal, approvals}
      ensures approvals as object !in {remote as object, journal}
    {}

    /** What holds once every file is backed up twice. */
    ghost predicate Secured(req: Request, n: Names, start: Files, plan: Files, log: seq<RemoteOp>)
      reads remote, journal, vault
    {
      && Planned(req, start, plan)
      && TargetsAs(remote.files, start, plan, PathSet(req.files), {})
      && BackedUp(remote.files, start, PathSet(req.files), n)
      && JournalReady(req.changesetId, req.files, n, start) && journal.book[req.changesetId].status == RemotelyBackedUp
      && (BlobNamesDistinct(req.files) ==> LocalCopies(vault.blobs, req.files, start))
      && RemoteMoved(start, log, Aside(n)) && CopiesTaken(remote.ops, |log|, |remote.ops|, start, PathSet(req.files), n)
    }

    /** Steps 1 to 6. */
    method BeginAndSecure(req: Request, n: Names)
      returns (ok: bool, created: bool, originals: map<string, Bytes>, newFiles: set<string>,
               contents: map<string, Bytes>, validations: map<string, string>)
      requires Separate(PathSet(req.files), n)
      modifies remote, journal, vault
      ensures !created ==> journal.book == old(journal.book) && !ok
      ensures created ==>
                && Entered(old(journal.book), journal.book, req)
                && JournalFresh(req.changesetId, req.files, old(remote.files))
                && Active(journal.book[req.changesetId].status)
      ensures RemoteMoved(old(remote.files), old(remote.ops), Aside(n))
      ensures ok ==>
                && created && validations.Keys == PathSet(req.files)
                && originals == Originals(req.files, old(remote.files))
                && newFiles == NewFiles(req.files, old(remote.files))
                && Secured(req, n, old(remote.files), contents, old(remote.ops))
      ensures journal.missed >= old(journal.missed) && (ok ==> journal.missed == old(journal.missed))
      ensures journal.refused == old(journal.refused)
      ensures TempsFree(req.files, 0, n, old(remote.files)) ==> TempsFree(req.files, 0, n, remote.files)
      ensures Flawless() && VaultFits(req.files) && Beginnable(req, old(remote.files), old(journal.book)) ==> ok
    {
      ghost var start, log, before := remote.files, remote.ops, journal.book;
      ok, created, originals, newFiles, contents, validations := Begin(req);
      if ok {
        ghost var book := journal.book;
        ok := Secure(req, originals, newFiles, n, start);
        StaysEntered(before, book, journal.book, req);
        MovedFurther(start, start, log, log, n.backup.Values, Aside(n));
        AsideLeavesTargets(remote.files, start, contents, PathSet(req.files), n);
        if TempsFree(req.files, 0, n, start) { TempsStayFree(req.files, n, start, remote.files); }
      }
    }

    /** Steps 7 to 9, after which the rename loop may begin. */
    method MakeReady(req: Request, approvalId: Option<string>, now: Instant, originals: map<string, Bytes>,
                     contents: map<string, Bytes>, n: Names,
                     ghost start: Files, ghost log: seq<RemoteOp>)
      returns (ok: bool, written: set<string>)
      requires Separate(PathSet(req.files), n) && approvals.Valid()
      requires originals == Originals(req.files, start) && Secured(req, n, start, contents, log)
      modifies remote, journal, approvals
      ensures approvals.Valid() &&
              SpentOnlyWhenStaged(req, n, start, log, remote.ops, old(approvals.spent), approvals.spent)
      ensures JournalFresh(req.changesetId, req.files, start) &&
              OthersKept(old(journal.book), journal.book, req.changesetId)
      ensures Active(journal.book[req.changesetId].status)
      ensures RemoteMoved(start, log, Aside(n))
      ensures ok ==> RenamesMayBegin(req, n, start, contents)
      ensures ok ==> CopiesTaken(remote.ops, |log|, |remote.ops|, start, PathSet(req.files), n)
      ensures ok ==> GatePassed(req, approvalId, now, old(approvals.spent), approvals.spent)
      ensures journal.missed >= old(journal.missed) && (ok ==> journal.missed == old(journal.missed))
      ensures journal.refused == old(journal.refused)
      ensures Flawless() && Stageable(req, approvalId, now, n, old(remote.files), old(approvals.rows)) ==> ok
    {
      ghost var before, ops, ps := remote.files, remote.ops, PathSet(req.files);
      StoresDiffer();
      ok, written := Stage(req, approvalId, now, originals, contents, n, start);
      MovedFurther(start, before, log, ops, n.temp.Values, Aside(n));
      StagedSpending(req, n, start, contents, log, ops, remote.ops, old(approvals.spent), approvals.spent);
      CopiesLast(ops, remote.ops, |log|, start, ps, n);
    }

    /** An approval spent after all temporary files were written in this step was spent after they were written at all.
        */
    lemma {:induction false} StagedSpending(req: Request, n: Names, start: Files, contents: map<string, Bytes>,
                                            log: seq<RemoteOp>, mid: seq<RemoteOp>, ops: seq<RemoteOp>,
                                 spentBefore: seq<Spending>, spent: seq<Spending>)
      requires Planned(req, start, contents) && |log| <= |mid| && spentBefore <= spent
      requires spent != spentBefore ==> AllStaged(ops, |mid|, contents, PathSet(req.files), n)
      ensures SpentOnlyWhenStaged(req, n, start, log, ops, spentBefore, spent)
    {
      if spent != spentBefore { StagedFromEarlier(ops, |log|, |mid|, contents, PathSet(req.files), n); }
    }

    /** Everything before the first rename. */
    method Prologue(req: Request, approvalId: Option<string>, now: Instant, n: Names)
      returns (ok: bool, created: bool, written: set<string>, newFiles: set<string>, contents: map<string, Bytes>,
               validations: map<string, string>)
      requires Separate(PathSet(req.files), n) && approvals.Valid()
      modifies remote, journal, vault, approvals
      ensures approvals.Valid() &&
              SpentOnlyWhenStaged(req, n, old(remote.files), old(remote.ops), remote.ops, old(approvals.spent),
                                  approvals.spent)
      ensures !created ==> journal.book == old(journal.book) && !ok
      ensures created ==>
                && Entered(old(journal.book), journal.book, req)
                && JournalFresh(req.changesetId, req.files, old(remote.files))
                && Active(journal.book[req.changesetId].status)
      ensures RemoteMoved(old(remote.files), old(remote.ops), Aside(n))
      ensures ok ==>
              created && newFiles == NewFiles(req.files, old(remote.files)) && validations.Keys == PathSet(req.files)
      ensures ok ==> Planned(req, old(remote.files), contents)
      ensures ok ==> RenamesMayBegin(req, n, old(remote.files), contents)
      ensures ok && BlobNamesDistinct(req.files) ==> LocalCopies(vault.blobs, req.files, old(remote.files))
      ensures ok ==> CopiesTaken(remote.ops, |old(remote.ops)|, |remote.ops|, old(remote.files), PathSet(req.files), n)
      ensures ok ==> GatePassed(req, approvalId, now, old(approvals.spent), approvals.spent)
      ensures journal.missed >= old(journal.missed) && (ok ==> journal.missed == old(journal.missed))
      ensures journal.refused == old(journal.refused)
      ensures Flawless() && Doable(req, approvalId, now, n, old(remote.files), old(journal.book),
                                   old(approvals.rows)) ==>
                ok
    {
      ghost var start, log, before := remote.files, remote.ops, journal.book;
      var originals: map<string, Bytes>;
      written := {};
      StoresDiffer();
      ok, created, originals, newFiles, contents, validations := BeginAndSecure(req, n);
      ghost var blobs, spent, book := vault.blobs, approvals.spent, journal.book;
      assert spent == old(approvals.spent);
      if ok {
        ok, written := MakeReady(req, approvalId, now, originals, contents, n, start, log);
        StaysEntered(before, book, journal.book, req);
        assert vault.blobs == blobs;
        assert ok ==> GatePassed(req, approvalId, now, spent, approvals.spent);
      }
    }

    // -------------------------------------------------------------- the whole apply

    /** The new contents the request asks for, if it can be met at all. */
    ghost function Wanted(req: Request, start: Files): Files {
      var plan := Plan(env, req.files, Originals(req.files, start));
      if plan.Some? then plan.value else map[]
    }

    /** What an apply that began at `start` leaves on the remote side, and in which order it got there. */
    ghost predicate RemotePromise(req: Request, n: Names, outcome: Outcome, start: Files, log: seq<RemoteOp>,
                                  end: Files, ops: seq<RemoteOp>)
      requires Separate(PathSet(req.files), n)
    {
      var ps, plan := PathSet(req.files), Wanted(req, start);
      && Elsewhere(end, start, Footprint(ps, n)) && GrewWithin(log, ops, Footprint(ps, n))
      && (forall p | p in ps :: Recoverable(end, start, plan, n, p))
      && BackupsFirst(ops, |log|, start, ps, n)
      && (outcome.AppliedAll? ==>
            && outcome.files == PathOrder(req.files) && DistinctPaths(req.files) && Planned(req, start, plan)
            && forall p | p in ps :: NewAt(end, plan, p))
      && (outcome.RolledBackAll? ==> forall p | p in ps :: SameAt(end, start, p))
    }

    /** The journal's rows are accurate, and its status says whether anything was renamed. */
    ghost predicate EntryExact(entry: ChangeSet, n: Names, start: Files, plan: Files, end: Files) {
      && JournalAccurate(entry.files, end, start, plan, n)
      && entry.status == if AppliedPaths(entry.files) == {} then RemotelyBackedUp else Applied
    }

    /** What the journal says when an apply is over, provided none of its own writes was
        lost in the failure handler (`kept`). */
    ghost predicate JournalPromise(req: Request, n: Names, outcome: Outcome, kept: bool, start: Files, end: Files,
                                   before: Book, after: Book) {
      var id, ps, plan := req.changesetId, PathSet(req.files), Wanted(req, start);
      && OthersKept(before, after, id)
      && (after == before ==> outcome.FailedApply? && forall p | p in ps :: SameAt(end, start, p))
      && (after != before ==>
            && Entered(before, after, req) && RowsFor(after[id].files, req.files, start)
            && (outcome.AppliedAll? ==> after[id].status == Applied && AppliedPaths(after[id].files) == ps)
            && (outcome.AppliedAll? || outcome.Stopped? ==>
                DistinctPaths(req.files) && EntryExact(after[id], n, start, plan, end))
            && (outcome.RolledBackAll? ==> after[id].status == RolledBack && AppliedPaths(after[id].files) == {})
            && (outcome.FailedApply? ==> after[id].status == Failed)
            && (kept ==> JournalAccurate(after[id].files, end, start, plan, n)))
    }

    /** Which approval was spent, and what a touched target shows. */
    ghost predicate ApprovalPromise(req: Request, approvalId: Option<string>, now: Instant, n: Names, start: Files,
                                    log: seq<RemoteOp>, ops: seq<RemoteOp>,
                                    blobs: map<string, Bytes>, spentBefore: seq<Spending>, spent: seq<Spending>)
    {
      && SpentOnlyWhenStaged(req, n, start, log, ops, spentBefore, spent)
      && (TargetTouched(ops, |log|, PathSet(req.files)) ==>
            && GatePassed(req, approvalId, now, spentBefore, spent)
            && (BlobNamesDistinct(req.files) ==> LocalCopies(blobs, req.files, start)))
    }

    /** An apply that fails before its first rename leaves every target as it was. */
    lemma {:induction false} NothingRenamed(req: Request, n: Names, outcome: Outcome, start: Files, log: seq<RemoteOp>,
                                            end: Files, ops: seq<RemoteOp>)
      requires Separate(PathSet(req.files), n) && !outcome.AppliedAll?
      requires Elsewhere(end, start, Aside(n)) && GrewWithin(log, ops, Aside(n))
      ensures RemotePromise(req, n, outcome, start, log, end, ops) && !TargetTouched(ops, |log|, PathSet(req.files))
      ensures TargetsAs(end, start, Wanted(req, start), PathSet(req.files), {})
    {
      var names := Footprint(PathSet(req.files), n);
      AsideMisses(log, ops, PathSet(req.files), n);
      AsideLeavesTargets(end, start, Wanted(req, start), PathSet(req.files), n);
      ElsewhereWider(end, start, Aside(n), names);
      GrewWider(log, ops, Aside(n), names);
    }

    /** The journal of this changeset while its apply is running; `before` is the book the apply found. */
    ghost predicate InProgress(req: Request, created: bool, n: Names, start: Files, named: bool, before: Book)
      reads journal
    {
      if created then
        && Entered(before, journal.book, req)
        && JournalHas(req.changesetId, req.files, n, start, named) && Active(journal.book[req.changesetId].status)
      else journal.book == before
    }

    /** The failure path before the first rename. */
    method Abandon(req: Request, created: bool, written: set<string>, newFiles: set<string>, n: Names,
                   ghost start: Files, ghost log: seq<RemoteOp>, ghost before: Book)
      returns (outcome: Outcome)
      requires Separate(PathSet(req.files), n) && RemoteMoved(start, log, Aside(n))
      requires InProgress(req, created, n, start, false, before)
      requires created ==> AppliedPaths(journal.book[req.changesetId].files) == {}
      modifies remote, journal
      ensures RemotePromise(req, n, outcome, start, log, remote.files, remote.ops)
      ensures !TargetTouched(remote.ops, |log|, PathSet(req.files)) && old(remote.ops) <= remote.ops
      ensures JournalPromise(req, n, outcome, journal.missed == old(journal.missed), start, remote.files, before,
                             journal.book)
      ensures outcome.FailedApply? || outcome.Raised?
      ensures outcome.Raised? ==> outcome.lostEvent || journal.missed > old(journal.missed)
      ensures journal.missed >= old(journal.missed) && journal.refused == old(journal.refused)
    {
      ghost var now, ops, plan, ps := remote.files, remote.ops, Wanted(req, start), PathSet(req.files);
      ghost var book := journal.book;
      AsideLeavesTargets(now, start, plan, ps, n);
      ghost var rest: set<string>;
      outcome, rest := HandleFailure(req, [], created, written, newFiles, n, start, plan, false);
      MovedFurther(start, now, log, ops, n.temp.Values, Aside(n));
      NothingRenamed(req, n, outcome, start, log, remote.files, remote.ops);
      if created { StaysEntered(before, book, journal.book, req); }
      UntouchedKeepsPromise(req, n, outcome, journal.missed == old(journal.missed), start, remote.files, before,
                            journal.book);
    }

    /** With every target as it was, the journal has no entry, or one that shows nothing renamed. */
    lemma {:induction false} UntouchedKeepsPromise(req: Request, n: Names, outcome: Outcome, kept: bool, start: Files,
                                                   end: Files, before: Book, after: Book)
      requires TargetsAs(end, start, Wanted(req, start), PathSet(req.files), {})
      requires outcome.FailedApply? || outcome.Raised?
      requires if after == before then outcome.FailedApply?
               else Entered(before, after, req) && RowsFor(after[req.changesetId].files, req.files, start) &&
                    (outcome.FailedApply? ==> after[req.changesetId].status == Failed) &&
                    (kept ==> AppliedPaths(after[req.changesetId].files) == {})
      ensures JournalPromise(req, n, outcome, kept, start, end, before, after)
    {
      if after != before && kept {
        AccurateRows(after[req.changesetId].files, req.files, end, start, Wanted(req, start), n);
      }
    }

    /** Once the backups are taken, any later state the undo can work with keeps the promise. */
    lemma {:induction false} UndoableKeepsPromise(req: Request, n: Names, outcome: Outcome, start: Files, plan: Files,
                                                  left: set<string>,
                                 log: seq<RemoteOp>, mid: seq<RemoteOp>, end: Files, ops: seq<RemoteOp>)
      requires Separate(PathSet(req.files), n) && Planned(req, start, plan) && DistinctPaths(req.files)
      requires Elsewhere(end, start, Footprint(PathSet(req.files), n)) &&
               GrewWithin(log, ops, Footprint(PathSet(req.files), n))
      requires GrewWithin(log, mid, Aside(n)) && mid <= ops &&
               CopiesTaken(mid, |log|, |mid|, start, PathSet(req.files), n)
      requires TargetsAs(end, start, plan, PathSet(req.files), left) && BackedUp(end, start, left, n)
      requires outcome.AppliedAll? ==> outcome.files == PathOrder(req.files) && left == PathSet(req.files)
      requires outcome.RolledBackAll? ==> left == {}
      ensures RemotePromise(req, n, outcome, start, log, end, ops)
    {
      CopiesCameFirst(log, mid, ops, start, PathSet(req.files), n);
      UndoableIsRecoverable(end, start, plan, PathSet(req.files), n, left);
    }

    /** A transaction between its first possible rename and its end. `mid` is the operation log when the renames began.
        */
    ghost predicate Renaming(req: Request, applied: seq<string>, n: Names, start: Files, plan: Files,
                             log: seq<RemoteOp>, mid: seq<RemoteOp>, before: Book)
      requires Separate(PathSet(req.files), n)
      reads remote, journal
    {
      && Planned(req, start, plan) && DistinctPaths(req.files)
      && RenamedSoFar(req.changesetId, req.files, applied, n, start, plan, start, log)
      && GrewWithin(log, mid, Aside(n)) && mid <= remote.ops
      && CopiesTaken(mid, |log|, |mid|, start, PathSet(req.files), n)
      && Entered(before, journal.book, req)
    }

    /** A loop that ran to its end, or a process that died at a boundary, needs no undo to keep the promises. */
    lemma {:induction false} BoundaryKeepsPromises(req: Request, applied: seq<string>, n: Names, outcome: Outcome,
                                                   kept: bool,
                                  start: Files, plan: Files, log: seq<RemoteOp>, mid: seq<RemoteOp>, before: Book)
      requires Separate(PathSet(req.files), n) && req.files != []
      requires Renaming(req, applied, n, start, plan, log, mid, before) &&
               JournalExact(req.changesetId, Elements(applied))
      requires outcome == Stopped || (outcome == AppliedAll(applied) && |applied| == |PathOrder(req.files)|)
      ensures RemotePromise(req, n, outcome, start, log, remote.files, remote.ops)
      ensures JournalPromise(req, n, outcome, kept, start, remote.files, before, journal.book)
    {
      var ps := PathSet(req.files);
      PathOrderExact(req.files);
      if outcome.AppliedAll? {
        WholePrefix(applied, PathOrder(req.files));
        PathSetHas(req.files, 0);
      }
      PrefixInside(req.files, applied);
      UndoableKeepsPromise(req, n, outcome, start, plan, Elements(applied), log, mid, remote.files, remote.ops);
      AccurateRows(journal.book[req.changesetId].files, req.files, remote.files, start, plan, n);
    }

    ghost predicate BackAt(end: Files, start: Files, ps: set<string>) {
      forall p | p in ps :: SameAt(end, start, p)
    }

    /** The undo put every file back and the journal says so, but its status write was refused, because the
        journal write after the first rename had been lost: the exception escapes. */
    ghost predicate RestoredButRefused(req: Request, outcome: Outcome, start: Files, end: Files, book: Book) {
      && outcome == Raised(false)
      && BackAt(end, start, PathSet(req.files))
      && req.changesetId in book && book[req.changesetId].status == RemotelyBackedUp
      && AppliedPaths(book[req.changesetId].files) == {}
    }

    /** The failure path once renames may have begun. */
    method UndoRenames(req: Request, applied: seq<string>, written: set<string>, newFiles: set<string>, n: Names,
                       ghost start: Files, ghost plan: Files, ghost log: seq<RemoteOp>, ghost mid: seq<RemoteOp>,
                       ghost before: Book, ghost missed: nat)
      returns (outcome: Outcome, ghost rest: set<string>)
      requires Separate(PathSet(req.files), n) && newFiles == NewFiles(req.files, start)
      requires Renaming(req, applied, n, start, plan, log, mid, before)
      requires JournalBehind(req.changesetId, Elements(applied), missed) && journal.missed >= missed
      modifies remote, journal
      ensures RemotePromise(req, n, outcome, start, log, remote.files, remote.ops) && mid <= remote.ops
      ensures JournalPromise(req, n, outcome, journal.missed == missed, start, remote.files, before, journal.book)
      ensures outcome.RolledBackAll? || outcome.FailedApply? || outcome.Raised?
      ensures outcome.Raised? ==> outcome.lostEvent || journal.missed > missed
      ensures journal.missed == missed ==> journal.refused == old(journal.refused)
      ensures rest <= Elements(applied) && LeftRenamed(remote.files, start, plan, PathSet(req.files), n, rest)
      ensures Handled(req.changesetId, applied, outcome, rest, old(Now()), Now())
      ensures applied == [] ==> GrewWithin(old(remote.ops), remote.ops, n.temp.Values)
      ensures journal.refused > old(journal.refused) ==>
              RestoredButRefused(req, outcome, start, remote.files, journal.book)
      ensures journal.missed >= missed
    {
      ghost var now, ops, ps, book := remote.files, remote.ops, PathSet(req.files), journal.book;
      PrefixInside(req.files, applied);
      NoElements(applied);
      outcome, rest := HandleFailure(req, applied, true, written, newFiles, n, start, plan, true);
      MovedFurther(start, now, log, ops, Footprint(ps, n), Footprint(ps, n));
      StaysEntered(before, book, journal.book, req);
      FailureKeepsPromises(req, n, outcome, journal.missed == missed, rest, start, plan, log, mid, remote.files,
                           remote.ops, before, journal.book);
      NothingLeft(remote.files, start, plan, ps, rest);
    }

    lemma {:induction false} NothingLeft(end: Files, start: Files, plan: Files, ps: set<string>, rest: set<string>)
      requires TargetsAs(end, start, plan, ps, rest)
      ensures rest == {} ==> BackAt(end, start, ps)
    {}

    /** What the failure handler leaves is what the promises say. */
    lemma {:induction false} FailureKeepsPromises(req: Request, n: Names, outcome: Outcome, kept: bool,
                                                  rest: set<string>, start: Files, plan: Files,
                                 log: seq<RemoteOp>, mid: seq<RemoteOp>, end: Files, ops: seq<RemoteOp>, before: Book,
                                 after: Book)
      requires Separate(PathSet(req.files), n) && Planned(req, start, plan) && DistinctPaths(req.files)
      requires Elsewhere(end, start, Footprint(PathSet(req.files), n)) &&
               GrewWithin(log, ops, Footprint(PathSet(req.files), n))
      requires GrewWithin(log, mid, Aside(n)) && mid <= ops &&
               CopiesTaken(mid, |log|, |mid|, start, PathSet(req.files), n)
      requires TargetsAs(end, start, plan, PathSet(req.files), rest) && BackedUp(end, start, rest, n)
      requires Entered(before, after, req)
      requires RowsFor(after[req.changesetId].files, req.files, start) &&
               RowsNameBackups(after[req.changesetId].files, start, n)
      requires outcome.RolledBackAll? || outcome.FailedApply? || outcome.Raised?
      requires outcome.RolledBackAll? ==>
               rest == {} && after[req.changesetId].status == RolledBack &&
               AppliedPaths(after[req.changesetId].files) == {}
      requires outcome.FailedApply? ==> after[req.changesetId].status == Failed
      requires kept ==> AppliedPaths(after[req.changesetId].files) == rest
      ensures RemotePromise(req, n, outcome, start, log, end, ops)
      ensures JournalPromise(req, n, outcome, kept, start, end, before, after)
    {
      UndoableKeepsPromise(req, n, outcome, start, plan, rest, log, mid, end, ops);
      if kept { AccurateRows(after[req.changesetId].files, req.files, end, start, plan, n); }
    }

    lemma {:induction false} RenamingBegins(req: Request, n: Names, start: Files, plan: Files, log: seq<RemoteOp>,
                                            before: Book)
      requires Separate(PathSet(req.files), n) && Planned(req, start, plan) && RenamesMayBegin(req, n, start, plan)
      requires RemoteMoved(start, log, Aside(n)) &&
               CopiesTaken(remote.ops, |log|, |remote.ops|, start, PathSet(req.files), n)
      requires Entered(before, journal.book, req)
      ensures Renaming(req, [], n, start, plan, log, remote.ops, before)
    {
      MovedFurther(start, start, log, log, Aside(n), Footprint(PathSet(req.files), n));
    }

    /** The rename loop inside its transaction. */
    method RenameWithin(req: Request, validations: map<string, string>, n: Names,
                        ghost start: Files, ghost plan: Files, ghost log: seq<RemoteOp>, ghost mid: seq<RemoteOp>,
                        ghost before: Book)
      returns (e: RenameEnd, applied: seq<string>)
      requires Separate(PathSet(req.files), n) && validations.Keys == PathSet(req.files)
      requires Renaming(req, [], n, start, plan, log, mid, before) && JournalExact(req.changesetId, {})
      modifies remote, journal
      ensures Renaming(req, applied, n, start, plan, log, mid, before)
      ensures e.AllRenamed? ==> |applied| == |PathOrder(req.files)|
      ensures !e.RenameFailed? ==> JournalExact(req.changesetId, Elements(applied))
      ensures JournalBehind(req.changesetId, Elements(applied), old(journal.missed))
      ensures RenameProgress(req.changesetId, PathSet(req.files), e, |applied| > 0, old(Now()), Now())
      ensures Flawless() ==> e.AllRenamed?
    {
      ghost var book := journal.book;
      e, applied := RenameAll(req.changesetId, req.files, validations, n, start, plan, start, log);
      StaysEntered(before, book, journal.book, req);
    }

    /** What a failed apply reports, given how many journal writes it lost. Without one, Failed after a rename means
        that
        some target still holds its new bytes, its original in the backup. And a status write is refused
        exactly when a target was touched, one write was lost, and the status is still RemotelyBackedUp. */
    ghost predicate FailureExact(req: Request, n: Names, outcome: Outcome, start: Files, end: Files,
                                 log: seq<RemoteOp>, ops: seq<RemoteOp>, book: Book, lost: int, refused: bool)
    {
      var touched := TargetTouched(ops, |log|, PathSet(req.files));
      && (outcome.FailedApply? && touched && lost == 0 ==> StillRenamed(req, n, start, end))
      && (refused <==>
          touched && lost == 1 && req.changesetId in book && book[req.changesetId].status == RemotelyBackedUp)
    }

    ghost predicate StillRenamed(req: Request, n: Names, start: Files, end: Files) {
      exists p | p in PathSet(req.files) :: NewAt(end, Wanted(req, start), p) && BackupHolds(end, start, n, p)
    }

    /** What the handler did makes the report of the apply exact. At `missed` the renames began, `between` they failed.
        */
    lemma {:induction false} HandledExactly(req: Request, n: Names, outcome: Outcome, applied: seq<string>,
                                            rest: set<string>, start: Files, plan: Files, log: seq<RemoteOp>,
                                            mid: seq<RemoteOp>, missed: nat, between: World, now: World)
      requires Separate(PathSet(req.files), n) && Planned(req, start, plan) && rest <= PathSet(req.files)
      requires GrewWithin(log, mid, Aside(n)) && RenameLog(mid, between.ops, PathSet(req.files), |applied| > 0)
      requires applied == [] ==> GrewWithin(between.ops, now.ops, n.temp.Values)
      requires Handled(req.changesetId, applied, outcome, rest, between, now)
      requires LeftRenamed(now.files, start, plan, PathSet(req.files), n, rest)
      requires missed <= between.missed <= missed + 1
      requires var status := between.book[req.changesetId].status;
               status in {Applied, RemotelyBackedUp} &&
               (between.missed == missed ==> status == if applied == [] then RemotelyBackedUp else Applied)
      ensures FailureExact(req, n, outcome, start, now.files, log, now.ops, now.book, now.missed - missed,
                           now.refused > between.refused)
    {
      RenamesTouch(log, mid, between.ops, PathSet(req.files), |applied| > 0, n);
      TouchedThen(between.ops, now.ops, |log|, PathSet(req.files), n, applied == []);
      if rest != {} {
        var p :| p in rest;
        assert NewAt(now.files, plan, p) && BackupHolds(now.files, start, n, p);
      }
    }

    /** Going on touches what was touched, and work on temporary files alone nothing else. */
    lemma {:induction false} TouchedThen(ops: seq<RemoteOp>, more: seq<RemoteOp>, from: nat, ps: set<string>, n: Names,
                                         aside: bool)
      requires ops <= more && Separate(ps, n) && (aside ==> GrewWithin(ops, more, n.temp.Values))
      ensures TargetTouched(ops, from, ps) ==> TargetTouched(more, from, ps)
      ensures aside && TargetTouched(more, from, ps) ==> TargetTouched(ops, from, ps)
    {
      if TargetTouched(ops, from, ps) {
        var k, p :| from <= k < |ops| && p in ps && p in Touched(ops[k]);
        assert more[k] == ops[k];
      }
      if aside && TargetTouched(more, from, ps) {
        var k, p :| from <= k < |more| && p in ps && p in Touched(more[k]);
        assert p !in n.temp.Values;
        assert more[k] == ops[k];
      }
    }

    /** The undo, reported for the whole of step 10. */
    method Unwind(req: Request, applied: seq<string>, written: set<string>, newFiles: set<string>, n: Names,
                  ghost start: Files, ghost plan: Files, ghost log: seq<RemoteOp>, ghost mid: seq<RemoteOp>,
                  ghost before: Book, ghost missed: nat)
      returns (outcome: Outcome)
      requires Separate(PathSet(req.files), n) && newFiles == NewFiles(req.files, start)
      requires Renaming(req, applied, n, start, plan, log, mid, before)
      requires JournalBehind(req.changesetId, Elements(applied), missed)
      requires missed <= journal.missed <= missed + 1
      requires RenameLog(mid, remote.ops, PathSet(req.files), |applied| > 0)
      modifies remote, journal
      ensures RemotePromise(req, n, outcome, start, log, remote.files, remote.ops) && mid <= remote.ops
      ensures JournalPromise(req, n, outcome, journal.missed == missed, start, remote.files, before, journal.book)
      ensures outcome.Raised? ==> outcome.lostEvent || journal.missed > missed
      ensures journal.missed == missed ==> journal.refused == old(journal.refused)
      ensures journal.refused > old(journal.refused) ==>
              RestoredButRefused(req, outcome, start, remote.files, journal.book)
      ensures FailureExact(req, n, outcome, start, remote.files, log, remote.ops, journal.book,
                           journal.missed - missed, journal.refused > old(journal.refused))
      ensures journal.missed >= missed && journal.refused >= old(journal.refused)
    {
      ghost var rest: set<string>;
      ghost var between := Now();
      NoElements(applied);
      PrefixInside(req.files, applied);
      outcome, rest := UndoRenames(req, applied, written, newFiles, n, start, plan, log, mid, before, missed);
      HandledExactly(req, n, outcome, applied, rest, start, plan, log, mid, missed, between, Now());
    }

    /** Step 10 and, when it fails, the undo. */
    method Commit(req: Request, written: set<string>, newFiles: set<string>, validations: map<string, string>, n: Names,
                  ghost start: Files, ghost plan: Files, ghost log: seq<RemoteOp>, ghost mid: seq<RemoteOp>,
                  ghost before: Book)
      returns (outcome: Outcome)
      requires Separate(PathSet(req.files), n) && req.files != [] && validations.Keys == PathSet(req.files)
      requires newFiles == NewFiles(req.files, start)
      requires Renaming(req, [], n, start, plan, log, mid, before) && JournalExact(req.changesetId, {})
      requires mid == remote.ops
      modifies remote, journal
      ensures RemotePromise(req, n, outcome, start, log, remote.files, remote.ops) && mid <= remote.ops
      ensures JournalPromise(req, n, outcome, journal.missed == old(journal.missed), start, remote.files, before,
                             journal.book)
      ensures outcome.Raised? ==> outcome.lostEvent || journal.missed > old(journal.missed)
      ensures journal.missed == old(journal.missed) ==> journal.refused == old(journal.refused)
      ensures journal.refused > old(journal.refused) ==>
              RestoredButRefused(req, outcome, start, remote.files, journal.book)
      ensures FailureExact(req, n, outcome, start, remote.files, log, remote.ops, journal.book,
                           journal.missed - old(journal.missed), journal.refused > old(journal.refused))
      ensures journal.missed >= old(journal.missed) && journal.refused >= old(journal.refused)
      ensures Flawless() ==> outcome.AppliedAll?
    {
      ghost var missed := journal.missed;
      var e, applied := RenameWithin(req, validations, n, start, plan, log, mid, before);
      if e.RenameFailed? {
        outcome := Unwind(req, applied, written, newFiles, n, start, plan, log, mid, before, missed);
      } else {
        outcome := if e.AllRenamed? then AppliedAll(applied) else Stopped;
        BoundaryKeepsPromises(req, applied, n, outcome, journal.missed == missed, start, plan, log, mid, before);
      }
    }

    /** A journal entry made before any rename is one in progress. */
    lemma {:induction false} FreshInProgress(req: Request, created: bool, n: Names, start: Files, before: Book)
      requires !created ==> journal.book == before
      requires created ==>
                 && Entered(before, journal.book, req) && JournalFresh(req.changesetId, req.files, start)
                 && Active(journal.book[req.changesetId].status)
      ensures InProgress(req, created, n, start, false, before)
    {}

    /** What an apply keeps of its approval once the operations after `mid` are done. */
    lemma {:induction false} ApprovalStands(req: Request, approvalId: Option<string>, now: Instant, n: Names,
                                            start: Files,
                           log: seq<RemoteOp>, mid: seq<RemoteOp>, ops: seq<RemoteOp>, blobs: map<string, Bytes>,
                           spentBefore: seq<Spending>, spent: seq<Spending>)
      requires mid <= ops && SpentOnlyWhenStaged(req, n, start, log, mid, spentBefore, spent)
      requires TargetTouched(ops, |log|, PathSet(req.files)) ==>
                 && GatePassed(req, approvalId, now, spentBefore, spent)
                 && (BlobNamesDistinct(req.files) ==> LocalCopies(blobs, req.files, start))
      ensures ApprovalPromise(req, approvalId, now, n, start, log, ops, blobs, spentBefore, spent)
    {
      if spent != spentBefore {
        StagedStays(mid, ops, |log|, Plan(env, req.files, Originals(req.files, start)).value, PathSet(req.files), n);
      }
    }

    /** An apply that ends with everything applied has fulfilled every request. */
    lemma {:induction false} AppliedFulfills(req: Request, n: Names, outcome: Outcome, start: Files, log: seq<RemoteOp>,
                                             end: Files, ops: seq<RemoteOp>)
      requires Separate(PathSet(req.files), n) && RemotePromise(req, n, outcome, start, log, end, ops)
      ensures outcome.AppliedAll? ==> forall i | 0 <= i < |req.files| :: Fulfilled(env, req.files[i], start, end)
    {
      if outcome.AppliedAll? {
        var plan := Wanted(req, start);
        forall i | 0 <= i < |req.files| ensures Fulfilled(env, req.files[i], start, end) {
          PathSetHas(req.files, i);
          PlanMakes(env, req.files, start, plan, i);
          assert NewAt(end, plan, req.files[i].path);
        }
      }
    }

    /** The request fits what is found exactly when each of its files can be made. */
    lemma {:induction false} PlannedMeans(req: Request, start: Files)
      requires DistinctPaths(req.files)
      ensures Planned(req, start, Wanted(req, start)) <==>
              forall i | 0 <= i < |req.files| :: CanMake(env, req.files[i], start)
    {
      PlannedExactly(env, req.files, start);
    }

    /** The whole transaction, given the names of its backups and temporary files. */
    method Transact(req: Request, approvalId: Option<string>, now: Instant, n: Names) returns (outcome: Outcome)
      requires req.files != [] && Separate(PathSet(req.files), n) && approvals.Valid()
      modifies remote, journal, vault, approvals
      ensures RemotePromise(req, n, outcome, old(remote.files), old(remote.ops), remote.files, remote.ops)
      ensures JournalPromise(req, n, outcome, journal.missed == old(journal.missed), old(remote.files), remote.files,
                             old(journal.book), journal.book)
      ensures approvals.Valid()
      ensures ApprovalPromise(req, approvalId, now, n, old(remote.files), old(remote.ops), remote.ops, vault.blobs,
                              old(approvals.spent), approvals.spent)
      ensures outcome.Raised? ==> outcome.lostEvent || journal.missed > old(journal.missed)
      ensures old(remote.ops) <= remote.ops
      ensures journal.missed >= old(journal.missed) &&
              (journal.missed == old(journal.missed) ==> journal.refused == old(journal.refused))
      ensures journal.refused > old(journal.refused) ==>
              RestoredButRefused(req, outcome, old(remote.files), remote.files, journal.book)
      ensures FailureExact(req, n, outcome, old(remote.files), remote.files, old(remote.ops), remote.ops, journal.book,
                           journal.missed - old(journal.missed), journal.refused > old(journal.refused))
      ensures Flawless() && Doable(req, approvalId, now, n, old(remote.files), old(journal.book),
                                   old(approvals.rows)) ==>
                outcome.AppliedAll?
      ensures outcome.AppliedAll? ==> forall i | 0 <= i < |req.files| ::
                Fulfilled(env, req.files[i], old(remote.files), remote.files)
    {
      ghost var start, log, before, spent := remote.files, remote.ops, journal.book, approvals.spent;
      StoresDiffer();
      var ready, created, written, newFiles, contents, validations := Prologue(req, approvalId, now, n);
      ghost var mid, blobs, after := remote.ops, vault.blobs, approvals.spent;
      FreshInProgress(req, created, n, start, before);
      if ready {
        RenamingBegins(req, n, start, contents, log, before);
        outcome := Commit(req, written, newFiles, validations, n, start, contents, log, mid, before);
      } else {
        outcome := Abandon(req, created, written, newFiles, n, start, log, before);
      }
      assert vault.blobs == blobs && approvals.spent == after;
      ApprovalStands(req, approvalId, now, n, start, log, mid, remote.ops, blobs, spent, after);
      AppliedFulfills(req, n, outcome, start, log, remote.files, remote.ops);
    }

    /** `_apply_locked`, with the locks of its paths held. */
    method ApplyLocked(req: Request, approvalId: Option<string>, ts: string, now: Instant)
        returns (outcome: Outcome, ghost n: Names)
      requires req.files != [] && NamesClear(PathSet(req.files), ts, req.changesetId) && approvals.Valid()
      modifies remote, journal, vault, approvals
      ensures n == NamesFor(PathSet(req.files), ts, req.changesetId) && Separate(PathSet(req.files), n)
      ensures RemotePromise(req, n, outcome, old(remote.files), old(remote.ops), remote.files, remote.ops)
      ensures JournalPromise(req, n, outcome, journal.missed == old(journal.missed), old(remote.files), remote.files,
                             old(journal.book), journal.book)
      ensures approvals.Valid()
      ensures ApprovalPromise(req, approvalId, now, n, old(remote.files), old(remote.ops), remote.ops, vault.blobs,
                              old(approvals.spent), approvals.spent)
      ensures outcome.Raised? ==> outcome.lostEvent || journal.missed > old(journal.missed)
      ensures old(remote.ops) <= remote.ops
      ensures journal.missed >= old(journal.missed) &&
              (journal.missed == old(journal.missed) ==> journal.refused == old(journal.refused))
      ensures journal.refused > old(journal.refused) ==>
              RestoredButRefused(req, outcome, old(remote.files), remote.files, journal.book)
      ensures FailureExact(req, n, outcome, old(remote.files), remote.files, old(remote.ops), remote.ops, journal.book,
                           journal.missed - old(journal.missed), journal.refused > old(journal.refused))
      ensures Flawless() && Doable(req, approvalId, now, n, old(remote.files), old(journal.book),
                                   old(approvals.rows)) ==>
                outcome.AppliedAll?
      ensures outcome.AppliedAll? ==> forall i | 0 <= i < |req.files| ::
                Fulfilled(env, req.files[i], old(remote.files), remote.files)
    {
      var names := NamesFor(PathSet(req.files), ts, req.changesetId);
      ClearNamesSeparate(PathSet(req.files), ts, req.changesetId);
      n := names;
      outcome := Transact(req, approvalId, now, names);
    }

    // -------------------------------------------------------------- explicit rollback

    /** `interrupts_service`; a failed project lookup counts as interrupting. */
    method InterruptsService(rows: seq<FileChange>, service: string) returns (r: bool)
      ensures (exists i | 0 <= i < |rows| :: IsProtected(rows[i].path, RollbackRoots(env, service))) ==> r
      ensures r ==> (env.registry.Some? && !reliable) || exists i | 0 <= i < |rows| ::
                IsProtected(rows[i].path, RollbackRoots(env, service))
    {
      if env.registry.Some? && !reliable {
        if * { return true; }
      }
      var roots := RollbackRoots(env, service);
      for i := 0 to |rows|
        invariant forall j | 0 <= j < i :: !IsProtected(rows[j].path, roots)
      {
        if IsProtected(rows[i].path, roots) { return true; }
      }
      r := false;
    }

    function RollbackSpending(id: string, entry: ChangeSet, approvalId: string, now: Instant): Spending {
      Spending(approvalId, env.intentSha(RollbackIntent(id, entry.targetId, entry.service)), now)
    }

    /** What an approval must have been granted for, field by field: a rollback of this changeset on its own target and
        service; or a change of exactly the protected paths of this request, in ascending order, on its target and
        service. */
    lemma {:induction false} DigestsNamed(id: string, entry: ChangeSet, req: Request, i: Intent, approvalId: string,
                                          now: Instant)
      ensures i.RollbackIntent? && i.changesetId == id && i.targetId == entry.targetId && i.service == entry.service ==>
                RollbackSpending(id, entry, approvalId, now) == Spending(approvalId, env.intentSha(i), now)
      ensures
        && i.ChangeIntent? && i.changesetId == req.changesetId && i.targetId == req.targetId && i.service == req.service
        && multiset(i.paths) == multiset(ProtectedPaths(req.files, ApplyRoots(env))) && SortedBy(i.paths, StrLeq) ==>
          GateSpending(req, approvalId, now) == Spending(approvalId, env.intentSha(i), now)
    {
      if i.ChangeIntent? && multiset(i.paths) == multiset(ProtectedPaths(req.files, ApplyRoots(env))) &&
          SortedBy(i.paths, StrLeq) {
        StrLeqIsTotalOrder();
        SortSorted(ProtectedPaths(req.files, ApplyRoots(env)), StrLeq);
        SortedUnique(i.paths, Sort(ProtectedPaths(req.files, ApplyRoots(env)), StrLeq), StrLeq);
      }
    }

    /** With a hash that tells intents apart, an approval for a rollback is good for the rollback of that changeset
        on its target and service and for no other; and none is good for an apply and a rollback alike. */
    lemma {:induction false} ApprovalsApart(id: string, entry: ChangeSet, id': string, entry': ChangeSet, req: Request,
                                            req': Request, approvalId: string, now: Instant)
      requires forall a, b :: env.intentSha(a) == env.intentSha(b) ==> a == b
      ensures RollbackSpending(id, entry, approvalId, now) == RollbackSpending(id', entry', approvalId, now) <==>
              id == id' && entry.targetId == entry'.targetId && entry.service == entry'.service
      ensures GateSpending(req, approvalId, now) != RollbackSpending(id, entry, approvalId, now)
      ensures GateSpending(req, approvalId, now) == GateSpending(req', approvalId, now) <==>
              && req.changesetId == req'.changesetId && req.targetId == req'.targetId && req.service == req'.service
              && multiset(ProtectedPaths(req.files, ApplyRoots(env))) ==
                 multiset(ProtectedPaths(req'.files, ApplyRoots(env)))
    {
      IntentNamesExactlyThePaths(req.changesetId, req.targetId, req.service, ProtectedPaths(req.files, ApplyRoots(env)),
                                 req'.changesetId, req'.targetId, req'.service,
                                 ProtectedPaths(req'.files, ApplyRoots(env)));
    }

    /** The changeset is in force, and the approval given can be spent or none is needed. */
    ghost predicate CanRollBack(id: string, approvalId: Option<string>, now: Instant, book: Book, rows: Table) {
      && id in book && book[id].status in {Applied, Validated}
      && if approvalId.None? then !RollbackGuarded(book[id])
         else
           approvals.quiet &&
           Spendable(rows, approvalId.value, RollbackSpending(id, book[id], approvalId.value, now).intentSha, now)
    }

    /** The checks before anything is restored. The approval is spent last. */
    method RollbackGate(id: string, approvalId: Option<string>, now: Instant) returns (ok: bool)
      requires approvals.Valid()
      modifies approvals
      ensures approvals.Valid() && old(approvals.spent) <= approvals.spent
      ensures ok ==> id in journal.book && journal.book[id].status in {Applied, Validated}
      ensures ok && approvalId.Some? ==>
                SpentLast(old(approvals.spent), approvals.spent,
                          RollbackSpending(id, journal.book[id], approvalId.value, now))
      ensures ok && RollbackGuarded(journal.book[id]) ==> approvalId.Some?
      ensures id !in journal.book || journal.book[id].status !in {Applied, Validated} ==>
              !ok && approvals.spent == old(approvals.spent)
      ensures CanRollBack(id, approvalId, now, journal.book, old(approvals.rows)) && reliable ==> ok
    {
      if id !in journal.book || journal.book[id].status !in {Applied, Validated} { return false; }
      var interrupts := InterruptsService(journal.book[id].files, journal.book[id].service);
      if interrupts && approvalId.None? { return false; }
      if !reliable { if * { return false; } }
      if approvalId.Some? {
        var r := approvals.Consume(approvalId.value,
                                   RollbackSpending(id, journal.book[id], approvalId.value, now).intentSha, now);
        return r.Ok?;
      }
      ok := true;
    }

    method RestoreRow(row: FileChange) returns (ok: bool)
      modifies remote
      ensures ok ==> remote.ops == old(remote.ops) + [RestoreOp(row)]
      ensures ok && row.originallyAbsent ==> remote.files == old(remote.files) - {row.path}
      ensures ok && !row.originallyAbsent ==>
                && row.remoteBackup in old(remote.files)
                && remote.files == (old(remote.files) - {row.remoteBackup})[row.path :=
                                                                            old(remote.files)[row.remoteBackup]]
      ensures !ok ==> remote.ops == old(remote.ops) && remote.files == old(remote.files)
      ensures remote.reliable && (if row.originallyAbsent then row.path else row.remoteBackup) in old(remote.files) ==>
              ok
    {
      if row.originallyAbsent {
        ok := remote.Remove(row.path);
      } else {
        ok := remote.Rename(row.remoteBackup, row.path);
      }
    }

    /** The rows from `i` on are restored, remotely and in the journal. */
    ghost predicate RestoredFrom(id: string, entry: ChangeSet, i: nat, n: Names, start: Files, plan: Files,
                                 log: seq<RemoteOp>, now: World)
      requires i <= |entry.files|
    {
      && id in now.book && now.book[id] == entry.(files := Unapply(entry.files, i))
      && JournalAccurate(Unapply(entry.files, i), now.files, start, plan, n)
      && Done(log, now.ops, RestorePlan(entry.files, i), Remaining(entry.files))
    }

    /** A rollback is under way: of its entry only rows have changed. */
    ghost predicate Restoring(id: string, entry: ChangeSet, log: seq<RemoteOp>, now: World) {
      && id in now.book && now.book[id] == entry.(files := now.book[id].files) && log <= now.ops
      && SameRows(entry.files, now.book[id].files)
    }

    /** Since `first` no other changeset was touched and no status write refused. */
    ghost predicate OnlyThis(id: string, first: World, now: World) {
      OthersKept(first.book, now.book, id) && now.missed >= first.missed && now.refused == first.refused
    }

    /** One turn of the loop; a row that is not marked applied is skipped. */
    method RestoreTurn(id: string, entry: ChangeSet, i: nat, ghost tracked: bool,
                       ghost ps: set<string>, ghost n: Names, ghost start: Files, ghost plan: Files,
                       ghost log: seq<RemoteOp>, ghost first: World)
      returns (ok: bool, left: nat)
      requires 0 < i <= |entry.files| && Restoring(id, entry, log, Now()) && OnlyThis(id, first, Now())
      requires tracked ==>
               Separate(ps, n) && RowsOver(entry.files, ps) && RestoredFrom(id, entry, i, n, start, plan, log, Now())
      modifies remote, journal
      ensures left == if ok then i - 1 else i
      ensures tracked && (ok || journal.missed == old(journal.missed)) ==>
              RestoredFrom(id, entry, left, n, start, plan, log, Now())
      ensures OnlyThis(id, first, Now()) && Restoring(id, entry, log, Now()) && journal.missed >= old(journal.missed)
      ensures tracked && Flawless() ==> ok
    {
      ok := true;
      if entry.files[i - 1].applied {
        ok := RestoreNext(id, entry, i - 1, tracked, ps, n, start, plan, log);
      } else {
        UnapplyUnapplied(entry.files, i - 1);
      }
      left := if ok then i - 1 else i;
    }

    /** One applied row: the file first, then its journal row. What is known of the files is `tracked` or not. */
    method RestoreNext(id: string, entry: ChangeSet, i: nat, ghost tracked: bool,
                       ghost ps: set<string>, ghost n: Names, ghost start: Files, ghost plan: Files,
                       ghost log: seq<RemoteOp>)
      returns (ok: bool)
      requires i < |entry.files| && entry.files[i].applied && Restoring(id, entry, log, Now())
      requires tracked ==>
               Separate(ps, n) && RowsOver(entry.files, ps) &&
               RestoredFrom(id, entry, i + 1, n, start, plan, log, Now())
      modifies remote, journal
      ensures tracked && ok ==> RestoredFrom(id, entry, i, n, start, plan, log, Now())
      ensures tracked && !ok && journal.missed == old(journal.missed) ==>
              RestoredFrom(id, entry, i + 1, n, start, plan, log, Now())
      ensures OthersKept(old(journal.book), journal.book, id) && Restoring(id, entry, log, Now())
      ensures journal.missed >= old(journal.missed) && journal.refused == old(journal.refused)
      ensures tracked && Flawless() ==> ok
    {
      ghost var before, ops := remote.files, remote.ops;
      if tracked { RowCanGoBack(entry.files, i, n, start, plan, before); }
      ok := RestoreRow(entry.files[i]);
      if !ok { return; }
      if tracked {
        RestoredOneMore(entry.files, i, ps, n, start, plan, before, remote.files);
        DoneOneMore(log, ops, RestoreOp(entry.files[i]), RestorePlan(entry.files, i), Remaining(entry.files));
      }
      ok := journal.UpdateRow(id, entry.files[i].id, RestoreUpdate(entry.files[i]));
    }

    /** The reverse loop over the rows that were applied when the rollback began. */
    method RestoreRows(id: string, entry: ChangeSet, ghost tracked: bool,
                       ghost ps: set<string>, ghost n: Names, ghost start: Files, ghost plan: Files,
                       ghost log: seq<RemoteOp>)
      returns (ok: bool, ghost at: nat)
      requires Restoring(id, entry, log, Now())
      requires tracked ==>
               Separate(ps, n) && RowsOver(entry.files, ps) &&
               RestoredFrom(id, entry, |entry.files|, n, start, plan, log, Now())
      modifies remote, journal
      ensures at <= |entry.files| && (ok ==> at == 0)
      ensures tracked && (ok || journal.missed == old(journal.missed)) ==>
              RestoredFrom(id, entry, at, n, start, plan, log, Now())
      ensures OnlyThis(id, old(Now()), Now()) && Restoring(id, entry, log, Now())
      ensures tracked && Flawless() ==> ok
    {
      ghost var first := Now();
      var i: nat := |entry.files|;
      ok := true;
      while ok && i > 0
        invariant i <= |entry.files| && Restoring(id, entry, log, Now()) && OnlyThis(id, first, Now())
        invariant tracked && (ok || journal.missed == first.missed) ==>
                    RestoredFrom(id, entry, i, n, start, plan, log, Now())
        invariant tracked && Flawless() ==> ok
        decreases ok, i
      {
        ok, i := RestoreTurn(id, entry, i, tracked, ps, n, start, plan, log, first);
      }
      at := i;
    }

    /** What one rollback attempt does to a journal entry and to the remote files. When none of
        its journal writes is lost the entry stays accurate, so that a stopped attempt can be
        repeated, and what was done and what remains add up to what remained before. */
    ghost predicate RollbackPromise(r: RollbackEnd, kept: bool, before: ChangeSet, after: ChangeSet, n: Names,
                                    start: Files, plan: Files,
                                    log: seq<RemoteOp>, end: Files, ops: seq<RemoteOp>)
    {
      && (r.AllRestored? ==>
            && after.status == RolledBack && AppliedPaths(after.files) == {} && ops == log + Remaining(before.files)
            && forall i | 0 <= i < |before.files| :: SameAt(end, start, before.files[i].path))
      && (kept ==>
            && JournalAccurate(after.files, end, start, plan, n) && Attempt(before.files, log, after.files, ops)
            && (after.status == before.status || (after.status == RolledBack && AppliedPaths(after.files) == {})))
    }

    /** A rollback stopped before index `at` can be taken up again there. */
    lemma {:induction false} StoppedKeepsPromise(entry: ChangeSet, at: nat, n: Names, start: Files, plan: Files,
                                                 log: seq<RemoteOp>, end: Files, ops: seq<RemoteOp>)
      requires at <= |entry.files|
      ensures JournalAccurate(Unapply(entry.files, at), end, start, plan, n) &&
              Done(log, ops, RestorePlan(entry.files, at), Remaining(entry.files)) ==>
                RollbackPromise(RollbackStopped, true, entry, entry.(files := Unapply(entry.files, at)), n, start, plan,
                                log, end, ops)
    {
      UnapplyRemaining(entry.files, at, |entry.files|);
    }

    /** The last step: the status, once every row is restored. */
    method FinishRollback(id: string, entry: ChangeSet, ghost tracked: bool, ghost n: Names, ghost start: Files,
                          ghost plan: Files, ghost log: seq<RemoteOp>)
      returns (r: RollbackEnd)
      requires Restoring(id, entry, log, Now()) && entry.status in {Applied, Validated}
      requires tracked ==> RestoredFrom(id, entry, 0, n, start, plan, log, Now())
      modifies journal
      ensures !r.RollbackRefused?
      ensures OthersKept(old(journal.book), journal.book, id) && SameContext(old(journal.book), journal.book, id)
      ensures tracked ==>
              RollbackPromise(r, true, entry, journal.book[id], n, start, plan, log, remote.files, remote.ops)
      ensures journal.missed >= old(journal.missed) && journal.refused == old(journal.refused)
      ensures Flawless() ==> r.AllRestored?
    {
      if tracked {
        AllBack(entry.files, remote.files, start, plan, n);
        UnapplyRemaining(entry.files, 0, |entry.files|);
      }
      var m := MoveTo(id, RolledBack);
      r := if m.Moved? then AllRestored else RollbackStopped;
    }

    /** The restoring half of a rollback. */
    method RestoreEntry(id: string, ghost tracked: bool, ghost ps: set<string>, ghost n: Names, ghost start: Files,
                        ghost plan: Files) returns (r: RollbackEnd)
      requires id in journal.book && journal.book[id].status in {Applied, Validated}
      requires tracked ==> Separate(ps, n) && Restorable(journal.book[id], remote.files, ps, n, start, plan)
      modifies remote, journal
      ensures OthersKept(old(journal.book), journal.book, id) && SameContext(old(journal.book), journal.book, id)
      ensures !r.RollbackRefused? && old(remote.ops) <= remote.ops
      ensures tracked ==>
              RollbackPromise(r, journal.missed == old(journal.missed), old(journal.book)[id], journal.book[id], n,
                              start, plan,
                                          old(remote.ops), remote.files, remote.ops)
      ensures journal.missed >= old(journal.missed) && journal.refused == old(journal.refused)
      ensures tracked && Flawless() ==> r.AllRestored?
    {
      var entry := journal.book[id];
      ghost var log := remote.ops;
      NothingUnapplied(entry.files);
      var restored: bool;
      ghost var at: nat;
      restored, at := RestoreRows(id, entry, tracked, ps, n, start, plan, log);
      if restored {
        r := FinishRollback(id, entry, tracked, n, start, plan, log);
      } else {
        r := RollbackStopped;
        StoppedKeepsPromise(entry, at, n, start, plan, log, remote.files, remote.ops);
      }
    }

    /** A rollback of this entry can be followed: its rows are over the targets and accurate. */
    ghost predicate Restorable(entry: ChangeSet, now: Files, ps: set<string>, n: Names, start: Files, plan: Files) {
      RowsOver(entry.files, ps) && JournalAccurate(entry.files, now, start, plan, n)
    }

    /** Some file of the changeset is protected for its rollback. */
    predicate RollbackGuarded(entry: ChangeSet) {
      exists i :: 0 <= i < |entry.files| && IsProtected(entry.files[i].path, RollbackRoots(env, entry.service))
    }

    /** `rollback`: restore every file still journalled applied. The approval clauses hold of any entry, what
        happens to the files is stated when its journal is accurate to begin with (`tracked`). */
    method Rollback(id: string, approvalId: Option<string>, now: Instant, ghost tracked: bool,
                    ghost ps: set<string>, ghost n: Names, ghost start: Files, ghost plan: Files)
      returns (r: RollbackEnd)
      requires approvals.Valid()
      requires tracked && id in journal.book ==>
               Separate(ps, n) && Restorable(journal.book[id], remote.files, ps, n, start, plan)
      modifies remote, journal, approvals
      ensures approvals.Valid() && old(approvals.spent) <= approvals.spent && old(remote.ops) <= remote.ops
      ensures OthersKept(old(journal.book), journal.book, id) && SameContext(old(journal.book), journal.book, id)
      ensures id !in old(journal.book) || old(journal.book)[id].status !in {Applied, Validated} ==>
              r.RollbackRefused? && approvals.spent == old(approvals.spent)
      ensures r.RollbackRefused? ==>
              journal.book == old(journal.book) && remote.files == old(remote.files) && remote.ops == old(remote.ops)
      ensures !r.RollbackRefused? ==> id in old(journal.book) && id in journal.book
      ensures !r.RollbackRefused? && tracked ==>
                RollbackPromise(r, journal.missed == old(journal.missed), old(journal.book)[id], journal.book[id], n,
                                start, plan,
                                old(remote.ops), remote.files, remote.ops)
      ensures !r.RollbackRefused? && approvalId.Some? ==>
                SpentLast(old(approvals.spent), approvals.spent,
                          RollbackSpending(id, old(journal.book)[id], approvalId.value, now))
      ensures !r.RollbackRefused? && approvalId.None? ==> !RollbackGuarded(old(journal.book)[id])
      ensures journal.missed >= old(journal.missed) && journal.refused == old(journal.refused)
      ensures tracked && Flawless() && CanRollBack(id, approvalId, now, old(journal.book), old(approvals.rows)) ==>
                r.AllRestored?
    {
      StoresDiffer();
      var allowed := RollbackGate(id, approvalId, now);
      if !allowed { return RollbackRefused; }
      r := RestoreEntry(id, tracked, ps, n, start, plan);
    }

    predicate SaysFailed(verdict: string) {
      Lower(Strip(verdict)) in {"", "failed", "false", "0", "error"}
    }

    /** The verdicts that fail a changeset: a blank one, or one of four words in any case with white space around it. */
    lemma {:induction false} VerdictMeans(verdict: string) returns (i: nat, j: nat)
      ensures i <= j <= |verdict| && forall k | 0 <= k < |verdict| && !(i <= k < j) :: IsSpace(verdict[k])
      ensures i < j ==> !IsSpace(verdict[i]) && !IsSpace(verdict[j - 1])
      ensures SaysFailed(verdict) <==>
              || i == j
              || Spells(verdict[i..j], "failed") || Spells(verdict[i..j], "false")
              || Spells(verdict[i..j], "0") || Spells(verdict[i..j], "error")
    {
      i, j := StripExact(verdict);
      var word := Strip(verdict);
      LowerSpells(word, "failed");
      LowerSpells(word, "false");
      LowerSpells(word, "0");
      LowerSpells(word, "error");
    }

    /** `verify`: an applied changeset ends verified or failed; the steps it takes are never refused by the status
        table. */
    method Verify(id: string, verdict: string) returns (ok: bool)
      modifies journal
      ensures OthersKept(old(journal.book), journal.book, id) && journal.refused == old(journal.refused)
      ensures id !in old(journal.book) || old(journal.book)[id].status !in {Applied, Validated} ==>
              !ok && journal.book == old(journal.book)
      ensures ok ==>
              id in journal.book && journal.book[id] ==
                  old(journal.book)[id].(status := if SaysFailed(verdict) then Failed else Verified)
      ensures !ok && journal.book != old(journal.book) ==>
                id in old(journal.book) && id in journal.book &&
                    journal.book[id] == old(journal.book)[id].(status := journal.book[id].status) &&
                journal.book[id].status in (if SaysFailed(verdict) then {Failed} else {Validated, Verified})
    {
      if id !in journal.book || journal.book[id].status !in {Applied, Validated} { return false; }
      if SaysFailed(verdict) {
        var m := MoveTo(id, Failed);
        return m.Moved?;
      }
      if journal.book[id].status == Applied {
        var m := MoveTo(id, Validated);
        if !m.Moved? { return false; }
      }
      var m := MoveTo(id, Verified);
      ok := m.Moved?;
    }

    /** Whatever boundary an apply stopped at, its entry is one a rollback can start from, and
        after the first rename a rollback is allowed to start. */
    lemma {:induction false} ApplyLeavesRollbackReady(req: Request, n: Names, outcome: Outcome, kept: bool,
                                                      start: Files, end: Files, before: Book, after: Book)
      requires JournalPromise(req, n, outcome, kept, start, end, before, after)
      requires outcome.AppliedAll? || outcome.Stopped?
      ensures req.changesetId in after
      ensures JournalAccurate(after[req.changesetId].files, end, start, Wanted(req, start), n)
      ensures RowsOver(after[req.changesetId].files, PathSet(req.files))
      ensures AppliedPaths(after[req.changesetId].files) != {} ==> after[req.changesetId].status == Applied
    {
      var rows := after[req.changesetId].files;
      forall i | 0 <= i < |rows| ensures rows[i].path in PathSet(req.files) { PathSetHas(req.files, i); }
    }
  }
}
