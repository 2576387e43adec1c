/** Values of the changeset transaction: the status machine, the journal rows, the
    requests, and the names of the backup and temporary files. */
module ChangeTypes {
  import opened Wrappers
  import opened Ordering
  import opened Strings
  import TextEdits

  newtype Byte = b: int | 0 <= b < 256
  type Bytes = seq<Byte>

  // ---------------------------------------------------------------- status machine

  datatype Status =
    | Draft | Preflighted | LocallyBackedUp | RemotelyBackedUp | Applied
    | Validated | Verified | Failed | RolledBack

  predicate Terminal(s: Status) {
    s in {Verified, Failed, RolledBack}
  }

  /** The predecessor table. */
  predicate MayFollow(from: Status, to: Status) {
    match to
    case Draft => false
    case Preflighted => from == Draft
    case LocallyBackedUp => from == Preflighted
    case RemotelyBackedUp => from == LocallyBackedUp
    case Applied => from == RemotelyBackedUp
    case Validated => from == Applied
    case Verified => from == Validated
    case Failed => from in {Draft, Preflighted, LocallyBackedUp, RemotelyBackedUp, Applied, Validated}
    case RolledBack => from in {Applied, Validated}
  }

  predicate TransitionAllowed(from: Status, to: Status) {
    !Terminal(from) && MayFollow(from, to)
  }

  const COURSE := [Draft, Preflighted, LocallyBackedUp, RemotelyBackedUp, Applied, Validated, Verified]

  /** The statuses one changeset goes through from its creation on. */
  ghost predicate IsCourse(s: seq<Status>) {
    && s != [] && s[0] == Draft
    && forall i, j | 0 <= i < |s| && j == i + 1 && j < |s| :: TransitionAllowed(s[i], s[j])
  }

  /** Some way along the course, and possibly off it: to Failed from anywhere before Verified, to RolledBack
      once applied. */
  ghost predicate Along(s: seq<Status>) {
    var n := |s| - 1;
    && 0 <= n < |COURSE| && s[..n] == COURSE[..n]
    && (s[n] == COURSE[n] || (s[n] == Failed && n > 0) || (s[n] == RolledBack && n in {5, 6}))
  }

  lemma {:induction false} AlongStep(s: seq<Status>, next: Status)
    requires Along(s)
    ensures TransitionAllowed(s[|s| - 1], next) <==> Along(s + [next])
  {
    var n, after := |s| - 1, s + [next];
    assert after[..|s|] == s;
    if s[n] == COURSE[n] {
      assert s == COURSE[..n + 1];
    } else {
      assert Terminal(s[n]);
      assert |s| < |COURSE| ==> COURSE[..|s|][n] == COURSE[n];
    }
  }

  /** A changeset is applied only after both backups, verified only after it was applied and validated, rolled back only
      from there, and nothing follows an end. */
  lemma {:induction false} CourseExact(s: seq<Status>)
    ensures IsCourse(s) <==> Along(s)
  {
    if |s| == 1 {
      assert s[..0] == COURSE[..0];
    } else if |s| > 1 {
      var n := |s| - 1;
      var init := s[..n];
      CourseExact(init);
      assert s == init + [s[n]];
      if Along(init) { AlongStep(init, s[n]); }
      if Along(s) {
        assert init == COURSE[..n] && init[..n - 1] == COURSE[..n - 1] && init[n - 1] == COURSE[n - 1];
      }
      assert forall i | 0 <= i < n :: init[i] == s[i];
      assert IsCourse(s) <==> IsCourse(init) && TransitionAllowed(init[n - 1], s[n]);
    }
  }

  // ---------------------------------------------------------------- journal rows

  datatype FileChange = FileChange(
    id: string,
    path: string,
    originallyAbsent: bool,
    localBackup: Option<string>,
    remoteBackup: string,
    tempPath: Option<string>,
    applied: bool,
    validation: Option<string>,
    rollback: Option<string>)

  datatype ChangeSet = ChangeSet(targetId: string, service: string, status: Status, files: seq<FileChange>)

  /** The columns one update sets; `None` leaves a column alone. */
  datatype FileUpdate = FileUpdate(
    localBackup: Option<string>,
    remoteBackup: Option<string>,
    tempPath: Option<string>,
    applied: Option<bool>,
    validation: Option<string>,
    rollback: Option<string>)

  const NO_UPDATE := FileUpdate(None, None, None, None, None, None)

  function Patch(row: FileChange, u: FileUpdate): FileChange {
    row.(localBackup := if u.localBackup.Some? then u.localBackup else row.localBackup,
         remoteBackup := if u.remoteBackup.Some? then u.remoteBackup.value else row.remoteBackup,
         tempPath := if u.tempPath.Some? then u.tempPath else row.tempPath,
         applied := if u.applied.Some? then u.applied.value else row.applied,
         validation := if u.validation.Some? then u.validation else row.validation,
         rollback := if u.rollback.Some? then u.rollback else row.rollback)
  }

  function PatchRow(rows: seq<FileChange>, id: string, u: FileUpdate): (r: seq<FileChange>)
    ensures |r| == |rows|
    ensures forall i :: 0 <= i < |rows| ==> r[i] == if rows[i].id == id then Patch(rows[i], u) else rows[i]
  {
    seq(|rows|, i requires 0 <= i < |rows| => if rows[i].id == id then Patch(rows[i], u) else rows[i])
  }

  predicate HasRow(rows: seq<FileChange>, id: string) {
    exists i :: 0 <= i < |rows| && rows[i].id == id
  }

  predicate DistinctIds(rows: seq<FileChange>) {
    forall i, j :: 0 <= i < j < |rows| ==> rows[i].id != rows[j].id
  }

  // ---------------------------------------------------------------- requests

  datatype FileRequest =
    | FileEdit(operationId: string, path: string, digest: string, replacements: seq<TextEdits.TextReplacement>)
    | FileWrite(operationId: string, path: string, expected: Option<string>, content: Bytes)
  {
    /** A write without an expected digest creates its file. */
    predicate Creates() {
      FileWrite? && expected.None?
    }

    function Expected(): Option<string> {
      if FileEdit? then Some(digest) else expected
    }
  }

  datatype Request = Request(changesetId: string, targetId: string, service: string, files: seq<FileRequest>)

  // ---------------------------------------------------------------- names

  /** `{name}.incidentlens-backup.{ts}` beside the file. */
  function BackupPath(path: string, ts: string): string {
    path + ".incidentlens-backup." + ts
  }

  /** `.{name}.incidentlens-tmp-{changeset}` beside the file. */
  function TempPath(path: string, changesetId: string): string {
    path[..NameStart(path)] + "." + Name(path) + ".incidentlens-tmp-" + changesetId
  }

  lemma {:induction false} SuffixCancels(a: string, b: string, suffix: string)
    requires a + suffix == b + suffix
    ensures a == b
  {
    assert |a| == |b|;
    assert a == (a + suffix)[..|a|] && b == (b + suffix)[..|b|];
  }

  lemma {:induction false} BackupPathInjective(p: string, q: string, ts: string)
    requires BackupPath(p, ts) == BackupPath(q, ts)
    ensures p == q
  {
    assert BackupPath(p, ts) == p + (".incidentlens-backup." + ts);
    assert BackupPath(q, ts) == q + (".incidentlens-backup." + ts);
    SuffixCancels(p, q, ".incidentlens-backup." + ts);
  }

  /** A backup lies in the directory of its target, and a temporary file too, so that a rename stays within it. */
  lemma {:induction false} BackupBeside(path: string, ts: string)
    requires '/' !in ts
    ensures var n := NameStart(path); NameStart(BackupPath(path, ts)) == n && BackupPath(path, ts)[..n] == path[..n]
  {
    var tail := ".incidentlens-backup." + ts;
    assert path == path[..NameStart(path)] + Name(path);
    assert BackupPath(path, ts) == path[..NameStart(path)] + (Name(path) + tail);
    SameDirectory(path, BackupPath(path, ts), Name(path) + tail);
  }

  lemma {:induction false} TempBeside(path: string, changesetId: string)
    requires '/' !in changesetId
    ensures var n, temp := NameStart(path), TempPath(path, changesetId); NameStart(temp) == n && temp[..n] == path[..n]
  {
    var tail := ".incidentlens-tmp-" + changesetId;
    assert TempPath(path, changesetId) == path[..NameStart(path)] + ("." + Name(path) + tail);
    SameDirectory(path, TempPath(path, changesetId), "." + Name(path) + tail);
  }

  lemma {:induction false} SameDirectory(path: string, other: string, name: string)
    requires other == path[..NameStart(path)] + name && '/' !in name
    ensures NameStart(other) == NameStart(path) && other[..NameStart(path)] == path[..NameStart(path)]
  {
    var n := NameStart(path);
    assert forall i | n <= i < |other| :: other[i] in name;
    assert n > 0 ==> other[n - 1] == path[n - 1];
  }

  function Dotted(path: string): string {
    path[..NameStart(path)] + "." + Name(path)
  }

  lemma {:induction false} DottedShape(path: string)
    ensures var n := NameStart(path);
            |Dotted(path)| == |path| + 1 &&
            (n > 0 ==> Dotted(path)[n - 1] == '/') &&
            forall i :: n <= i < |Dotted(path)| ==> Dotted(path)[i] != '/'
  {}

  /** Both paths put their dot right after the last slash, so the dot is at the same place. */
  lemma {:induction false} DottedInjective(p: string, q: string)
    requires Dotted(p) == Dotted(q)
    ensures p == q
  {
    DottedShape(p);
    DottedShape(q);
    var n := NameStart(p);
    assert n == NameStart(q);
    assert p == Dotted(p)[..n] + Dotted(p)[n + 1..];
    assert q == Dotted(q)[..n] + Dotted(q)[n + 1..];
  }

  lemma {:induction false} TempPathInjective(p: string, q: string, changesetId: string)
    requires TempPath(p, changesetId) == TempPath(q, changesetId)
    ensures p == q
  {
    assert TempPath(p, changesetId) == Dotted(p) + (".incidentlens-tmp-" + changesetId);
    assert TempPath(q, changesetId) == Dotted(q) + (".incidentlens-tmp-" + changesetId);
    SuffixCancels(Dotted(p), Dotted(q), ".incidentlens-tmp-" + changesetId);
    DottedInjective(p, q);
  }

  // ---------------------------------------------------------------- protected paths

  function LowerChar(c: char): char {
    if 'A' <= c <= 'Z' then ((c as int) + 32) as char else c
  }

  function Lower(s: string): (r: string)
    ensures |r| == |s|
  {
    seq(|s|, i requires 0 <= i < |s| => LowerChar(s[i]))
  }

  predicate IsRelativeTo(path: string, root: string) {
    path == root || StartsWith(path, if root == "/" then root else root + "/")
  }

  predicate IsComposeName(name: string) {
    name in {"compose.yaml", "compose.yml"} ||
    (StartsWith(name, "docker-compose") && (EndsWith(name, ".yml") || EndsWith(name, ".yaml")))
  }

  predicate IsProtected(path: string, roots: seq<string>) {
    var name := Lower(Name(path));
    || (exists i :: 0 <= i < |roots| && IsRelativeTo(path, roots[i]))
    || name in {".env", "dockerfile"}
    || IsComposeName(name)
    || IsRelativeTo(path, "/etc")
    || (EndsWith(name, ".service") && (IsRelativeTo(path, "/etc/systemd") || IsRelativeTo(path, "/lib/systemd")))
  }

  function ProtectedPaths(files: seq<FileRequest>, roots: seq<string>): seq<string> {
    if files == [] then []
    else
      var n := |files| - 1;
      ProtectedPaths(files[..n], roots) + if IsProtected(files[n].path, roots) then [files[n].path] else []
  }

  // ---------------------------------------------------------------- approval intents

  /** What an approval was granted for. The separate hash of the joined paths that the
      source adds beside `paths` is a function of `paths` and is not repeated here. */
  datatype Intent =
    | ChangeIntent(changesetId: string, targetId: string, service: string, paths: seq<string>)
    | RollbackIntent(changesetId: string, targetId: string, service: string)

  function ProtectedPathsIntent(changesetId: string, targetId: string, service: string, paths: seq<string>): Intent {
    ChangeIntent(changesetId, targetId, service, Sort(paths, StrLeq))
  }

  /** One approval covers the paths in any order, and no other collection of paths. */
  lemma {:induction false} IntentNamesExactlyThePaths(
    c: string, t: string, s: string, a: seq<string>,
    c': string, t': string, s': string, b: seq<string>)
    ensures ProtectedPathsIntent(c, t, s, a) == ProtectedPathsIntent(c', t', s', b)
      <==> c == c' && t == t' && s == s' && multiset(a) == multiset(b)
  {
    StrLeqIsTotalOrder();
    if multiset(a) == multiset(b) { SortOfPermutation(a, b, StrLeq); }
    assert multiset(Sort(a, StrLeq)) == multiset(a) && multiset(Sort(b, StrLeq)) == multiset(b);
  }
}
