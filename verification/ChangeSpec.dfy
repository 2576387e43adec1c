/** What a changeset apply is supposed to compute, and the vocabulary in which the
    transaction's promises are stated. Everything here is about values. */
module ChangeSpec {
  import opened Wrappers
  import opened ChangeTypes
  import opened Ordering
  import opened Strings
  import opened RemoteFiles
  import TextEdits

  /** A registered service of the project and the remote paths it protects. */
  datatype Service = Service(name: string, roots: seq<string>)

  /** Hashes, codecs and parsers the manager calls but does not define, the project's services
      (None without a project registry) and the protected paths configured without one. */
  datatype Env = Env(
    sha256: Bytes -> string,
    decode: Bytes -> Option<string>,
    encode: string -> Bytes,
    parses: (string, Bytes) -> bool,
    intentSha: Intent -> string,
    blobName: string -> string,
    blobAad: string -> Bytes,
    registry: Option<seq<Service>>,
    fallbackRoots: seq<string>,
    hostScope: bool)

  // ---------------------------------------------------------------- protected roots

  function AllRoots(services: seq<Service>): seq<string> {
    if services == [] then [] else AllRoots(services[..|services| - 1]) + services[|services| - 1].roots
  }

  /** What an apply protects: the paths of every service of the project. */
  function ApplyRoots(env: Env): seq<string> {
    if env.registry.Some? then AllRoots(env.registry.value) else env.fallbackRoots
  }

  /** The first service of that name, or the number of services. */
  function OwnService(services: seq<Service>, name: string): (n: nat)
    ensures n <= |services| && (n < |services| ==> services[n].name == name)
  {
    if services == [] then 0 else if services[0].name == name then 0 else OwnService(services[1..], name) + 1
  }

  /** What a rollback protects: the paths of the changeset's own service, and nothing without a registry. */
  function RollbackRoots(env: Env, service: string): seq<string> {
    if env.registry.None? then []
    else
      var n := OwnService(env.registry.value, service);
      if n < |env.registry.value| then env.registry.value[n].roots else []
  }

  predicate Under(path: string, roots: seq<string>) {
    exists i :: 0 <= i < |roots| && IsRelativeTo(path, roots[i])
  }

  /** Protected by name or place, whatever the services say. */
  predicate WellKnown(path: string) {
    IsProtected(path, [])
  }

  lemma {:induction false} UnderAppend(path: string, a: seq<string>, b: seq<string>)
    ensures Under(path, a + b) <==> Under(path, a) || Under(path, b)
  {
    if i :| 0 <= i < |a| && IsRelativeTo(path, a[i]) { assert (a + b)[i] == a[i]; }
    if i :| 0 <= i < |b| && IsRelativeTo(path, b[i]) { assert (a + b)[|a| + i] == b[i]; }
    if i :| 0 <= i < |a + b| && IsRelativeTo(path, (a + b)[i]) { assert i < |a| ==> a[i] == (a + b)[i]; }
  }

  lemma {:induction false} UnderAll(path: string, services: seq<Service>)
    ensures Under(path, AllRoots(services)) <==> exists i | 0 <= i < |services| :: Under(path, services[i].roots)
  {
    if services != [] {
      var n := |services| - 1;
      UnderAll(path, services[..n]);
      UnderAppend(path, AllRoots(services[..n]), services[n].roots);
      if i :| 0 <= i < n && Under(path, services[..n][i].roots) { assert services[i] == services[..n][i]; }
      if i :| 0 <= i < |services| && Under(path, services[i].roots) {
        assert i < n ==> services[..n][i] == services[i];
      }
    }
  }

  /** The path lies under a protected path that is not the changeset's own service's. */
  ghost predicate ForeignProtected(env: Env, service: string, path: string) {
    if env.registry.None? then Under(path, env.fallbackRoots)
    else exists i | 0 <= i < |env.registry.value| && i != OwnService(env.registry.value, service) ::
           Under(path, env.registry.value[i].roots)
  }

  /** A rollback never asks for an approval the apply would not have needed; and it asks for one wherever
      the apply does, except exactly for paths that only another service, or the configuration
      used without a registry, protects. */
  lemma {:induction false} RollbackAsksForLess(env: Env, service: string, path: string)
    ensures IsProtected(path, RollbackRoots(env, service)) ==> IsProtected(path, ApplyRoots(env))
    ensures (IsProtected(path, ApplyRoots(env)) ==> IsProtected(path, RollbackRoots(env, service))) <==>
            (ForeignProtected(env, service, path) ==> WellKnown(path) || Under(path, RollbackRoots(env, service)))
  {
    if env.registry.Some? {
      var services := env.registry.value;
      var own := OwnService(services, service);
      UnderAll(path, services);
      if Under(path, RollbackRoots(env, service)) { assert Under(path, services[own].roots); }
      if i :| 0 <= i < |services| && Under(path, services[i].roots) {
        assert i == own ==> Under(path, RollbackRoots(env, service));
      }
    }
  }

  /** Service `a` changes a file that service `b` protects: the apply needs an approval, its rollback does not. */
  lemma {:induction false} OthersPathRollsBackFreely(env: Env, path: string)
    requires env.registry == Some([Service("a", []), Service("b", ["/srv/b"])]) && path == "/srv/b/x.conf"
    ensures IsProtected(path, ApplyRoots(env)) && !IsProtected(path, RollbackRoots(env, "a"))
  {
    var services := env.registry.value;
    UnderAll(path, services);
    assert IsRelativeTo(path, services[1].roots[0]) && Under(path, services[1].roots);
    assert OwnService(services, "a") == 0;
    PlainName(path);
    ProtectedIs(path, ApplyRoots(env));
    ProtectedIs(path, RollbackRoots(env, "a"));
  }

  lemma {:induction false} ProtectedIs(path: string, roots: seq<string>)
    ensures IsProtected(path, roots) <==> WellKnown(path) || Under(path, roots)
  {}

  lemma {:induction false} PlainName(path: string)
    requires path == "/srv/b/x.conf"
    ensures !WellKnown(path)
  {
    NameStartOf(path, 7);
    var name := Lower(Name(path));
    assert Name(path) == "x.conf";
    assert name == "x.conf" && name[0] == 'x' && name[|name| - 1] == 'f';
    assert path[1] == 's';
    assert !IsComposeName(name) && !EndsWith(name, ".service") && name !in {".env", "dockerfile"};
    assert !IsRelativeTo(path, "/etc");
  }

  lemma {:induction false} NameStartOf(path: string, n: nat)
    requires 0 < n <= |path| && path[n - 1] == '/' && forall i | n <= i < |path| :: path[i] != '/'
    ensures NameStart(path) == n
  {}

  // ---------------------------------------------------------------- planned contents

  function PathSet(files: seq<FileRequest>): set<string> {
    if files == [] then {} else PathSet(files[..|files| - 1]) + {files[|files| - 1].path}
  }

  /** Bytes read in preflight; an absent file reads as empty. */
  function Originals(files: seq<FileRequest>, start: Files): (r: map<string, Bytes>)
    ensures r.Keys == PathSet(files)
  {
    if files == [] then map[]
    else
      var p := files[|files| - 1].path;
      Originals(files[..|files| - 1], start)[p := if p in start then start[p] else []]
  }

  function NewFiles(files: seq<FileRequest>, start: Files): set<string> {
    if files == [] then {}
    else
      var p := files[|files| - 1].path;
      NewFiles(files[..|files| - 1], start) + if p in start then {} else {p}
  }

  lemma {:induction false} PathSetHas(files: seq<FileRequest>, i: nat)
    requires i < |files|
    ensures files[i].path in PathSet(files)
  {
    if i < |files| - 1 { PathSetHas(files[..|files| - 1], i); }
  }

  lemma {:induction false} PathSetFrom(files: seq<FileRequest>, p: string) returns (i: nat)
    requires p in PathSet(files)
    ensures i < |files| && files[i].path == p
  {
    var n := |files| - 1;
    if files[n].path == p { i := n; } else { i := PathSetFrom(files[..n], p); }
  }

  lemma {:induction false} PathSetMonotone(files: seq<FileRequest>, k: nat)
    requires k <= |files|
    ensures PathSet(files[..k]) <= PathSet(files)
    decreases |files|
  {
    if k < |files| {
      assert files[..|files| - 1][..k] == files[..k];
      PathSetMonotone(files[..|files| - 1], k);
    } else {
      assert files[..k] == files;
    }
  }

  lemma {:induction false} PrefixStep(files: seq<FileRequest>, i: nat)
    requires i < |files|
    ensures files[..i + 1][..i] == files[..i] && files[..i + 1] != [] && files[..i + 1][i] == files[i] &&
            |files[..i + 1]| == i + 1
    ensures PathSet(files[..i + 1]) == PathSet(files[..i]) + {files[i].path}
  {
    assert files[..i + 1][..i] == files[..i];
  }

  lemma {:induction false} OriginalsStep(files: seq<FileRequest>, i: nat, start: Files)
    requires i < |files|
    ensures var p := files[i].path;
            Originals(files[..i + 1], start) ==
                Originals(files[..i], start)[p := if p in start then start[p] else []] &&
            NewFiles(files[..i + 1], start) == NewFiles(files[..i], start) + if p in start then {} else {p}
  {
    PrefixStep(files, i);
  }

  lemma {:induction false} OriginalsAt(files: seq<FileRequest>, start: Files, p: string)
    requires p in PathSet(files)
    ensures Originals(files, start)[p] == (if p in start then start[p] else []) &&
            (p in NewFiles(files, start) <==> p !in start)
  {
    var n := |files| - 1;
    if p in PathSet(files[..n]) { OriginalsAt(files[..n], start, p); }
    else { NewFilesInside(files[..n], start); }
  }

  lemma {:induction false} NewFilesInside(files: seq<FileRequest>, start: Files)
    ensures NewFiles(files, start) <= PathSet(files)
  {
    if files != [] { NewFilesInside(files[..|files| - 1], start); }
  }

  /** The bytes one file request asks for, or None when it must be refused. */
  function NewBytes(env: Env, f: FileRequest, original: Bytes): Option<Bytes> {
    match f
    case FileWrite(_, _, _, content) => Some(content)
    case FileEdit(_, _, _, reps) =>
      var text := env.decode(original);
      if text.None? then None
      else
        match TextEdits.Edited(text.value, reps)
        case Err(_) => None
        case Ok(t) => Some(env.encode(t))
  }

  /** New contents by path; a later request for the same path replaces an earlier one. */
  function Plan(env: Env, files: seq<FileRequest>, originals: map<string, Bytes>): (r: Option<map<string, Bytes>>)
    requires PathSet(files) <= originals.Keys
    ensures r.Some? ==> r.value.Keys == PathSet(files)
  {
    if files == [] then Some(map[])
    else
      var n := |files| - 1;
      var before := Plan(env, files[..n], originals);
      var own := NewBytes(env, files[n], originals[files[n].path]);
      if before.None? || own.None? then None else Some(before.value[files[n].path := own.value])
  }

  lemma {:induction false} PlanAt(env: Env, files: seq<FileRequest>, originals: map<string, Bytes>, i: nat)
    requires PathSet(files) <= originals.Keys && Plan(env, files, originals).Some?
    requires i < |files| && forall j, k | 0 <= j < k < |files| :: files[j].path != files[k].path
    ensures files[i].path in Plan(env, files, originals).value
    ensures Some(Plan(env, files, originals).value[files[i].path]) == NewBytes(env, files[i], originals[files[i].path])
  {
    PathSetHas(files, i);
    PlanBytes(env, files, originals, i);
  }

  lemma {:induction false} PlanLast(env: Env, files: seq<FileRequest>, originals: map<string, Bytes>)
    requires PathSet(files) <= originals.Keys && files != [] && Plan(env, files, originals).Some?
    ensures var n := |files| - 1;
            Plan(env, files[..n], originals).Some? && NewBytes(env, files[n], originals[files[n].path]).Some? &&
            Plan(env, files, originals).value ==
            Plan(env, files[..n], originals).value[files[n].path :=
                                                   NewBytes(env, files[n], originals[files[n].path]).value]
  {}

  lemma {:induction false} PlanPrefixFails(env: Env, files: seq<FileRequest>, originals: map<string, Bytes>, k: nat)
    requires PathSet(files) <= originals.Keys && k <= |files|
    requires PathSet(files[..k]) <= originals.Keys && Plan(env, files[..k], originals).None?
    ensures Plan(env, files, originals).None?
    decreases |files|
  {
    if k == |files| {
      assert files[..k] == files;
    } else {
      var n := |files| - 1;
      assert files[..n][..k] == files[..k];
      PlanPrefixFails(env, files[..n], originals, k);
    }
  }

  // ---------------------------------------------------------------- content validation

  function LastDot(name: string): int {
    if name == [] then -1
    else if name[|name| - 1] == '.' then |name| - 1
    else LastDot(name[..|name| - 1])
  }

  /** `PurePosixPath.suffix`, lower-cased. */
  function Suffix(path: string): string {
    var name := Name(path);
    var dot := LastDot(name);
    if 0 < dot < |name| - 1 then Lower(name[dot..]) else ""
  }

  /** The journalled validation result, or None when the content does not parse. */
  function Validation(env: Env, path: string, content: Bytes): Option<string> {
    var suffix := Suffix(path);
    if suffix !in {".py", ".json", ".toml"} then Some("not_validated")
    else if env.parses(suffix, content) then Some("validated") else None
  }

  /** The results of validating every planned content, or None when one does not parse. */
  function Validations(env: Env, files: seq<FileRequest>,
                       contents: map<string, Bytes>): (r: Option<map<string, string>>)
    requires PathSet(files) <= contents.Keys
    ensures r.Some? ==> r.value.Keys == PathSet(files)
  {
    if files == [] then Some(map[])
    else
      var n := |files| - 1;
      var before := Validations(env, files[..n], contents);
      var own := Validation(env, files[n].path, contents[files[n].path]);
      if before.None? || own.None? then None else Some(before.value[files[n].path := own.value])
  }

  lemma {:induction false} ValidationsPrefixFails(env: Env, files: seq<FileRequest>, contents: map<string, Bytes>,
                                                  k: nat)
    requires PathSet(files) <= contents.Keys && k <= |files|
    requires PathSet(files[..k]) <= contents.Keys && Validations(env, files[..k], contents).None?
    ensures Validations(env, files, contents).None?
    decreases |files|
  {
    if k == |files| {
      assert files[..k] == files;
    } else {
      assert files[..|files| - 1][..k] == files[..k];
      ValidationsPrefixFails(env, files[..|files| - 1], contents, k);
    }
  }

  /** Validation accepts a plan only when every checked content parses. */
  lemma {:induction false} ValidationsAt(env: Env, files: seq<FileRequest>, contents: map<string, Bytes>, i: nat)
    requires PathSet(files) <= contents.Keys && Validations(env, files, contents).Some? && i < |files|
    ensures files[i].path in contents && Validation(env, files[i].path, contents[files[i].path]).Some?
  {
    if i < |files| - 1 { ValidationsAt(env, files[..|files| - 1], contents, i); }
  }

  // ---------------------------------------------------------------- preflight

  /** Each request matches the file it found: creations find nothing, everything else
      finds a file with the expected digest. */
  predicate Matches(env: Env, f: FileRequest, start: Files) {
    if f.Creates() then f.path !in start
    else f.path in start && Some(env.sha256(start[f.path])) == f.Expected()
  }

  predicate PreflightHolds(env: Env, files: seq<FileRequest>, start: Files) {
    files != [] ==> PreflightHolds(env, files[..|files| - 1], start) && Matches(env, files[|files| - 1], start)
  }

  lemma {:induction false} PreflightAt(env: Env, files: seq<FileRequest>, start: Files, i: nat)
    requires PreflightHolds(env, files, start) && i < |files|
    ensures Matches(env, files[i], start)
  {
    if i < |files| - 1 { PreflightAt(env, files[..|files| - 1], start, i); }
  }

  // ---------------------------------------------------------------- what a request asks for

  /** `b` is the content the request asks for, given the bytes found: its own content, or those bytes decoded, edited
      and encoded again. */
  ghost predicate AsksFor(env: Env, f: FileRequest, original: Bytes, b: Bytes) {
    match f
    case FileWrite(_, _, _, content) => b == content
    case FileEdit(_, _, _, reps) =>
      && env.decode(original).Some?
      && exists t :: TextEdits.EditsTo(env.decode(original).value, reps, t) && b == env.encode(t)
  }

  /** The request fits what it finds: nothing where it creates a file, else a file with the digest it names. */
  ghost predicate Fits(env: Env, f: FileRequest, start: Files) {
    match f
    case FileWrite(_, path, None, _) => path !in start
    case FileWrite(_, path, Some(digest), _) => path in start && env.sha256(start[path]) == digest
    case FileEdit(_, path, digest, _) => path in start && env.sha256(start[path]) == digest
  }

  /** A file with this ending, in any case, and a name before it. */
  predicate HasEnding(path: string, ending: string) {
    |Name(path)| > |ending| && EndsWith(Lower(Name(path)), ending)
  }

  /** Python, JSON and TOML must parse; anything else is taken as it is. */
  ghost predicate Sane(env: Env, path: string, content: Bytes) {
    && (HasEnding(path, ".py") ==> env.parses(".py", content))
    && (HasEnding(path, ".json") ==> env.parses(".json", content))
    && (HasEnding(path, ".toml") ==> env.parses(".toml", content))
  }

  /** `b` is what this request makes of what it finds. */
  ghost predicate Makes(env: Env, f: FileRequest, start: Files, b: Bytes) {
    Fits(env, f, start) && AsksFor(env, f, if f.path in start then start[f.path] else [], b) && Sane(env, f.path, b)
  }

  ghost predicate CanMake(env: Env, f: FileRequest, start: Files) {
    exists b :: Makes(env, f, start, b)
  }

  /** The request asks for some content at all: its text can be decoded and edited. */
  ghost predicate AsksForSome(env: Env, f: FileRequest, original: Bytes) {
    exists b :: AsksFor(env, f, original, b)
  }

  /** The target holds what its request makes of what was found. */
  ghost predicate Fulfilled(env: Env, f: FileRequest, start: Files, end: Files) {
    f.path in end && Makes(env, f, start, end[f.path])
  }

  lemma {:induction false} NewBytesMeans(env: Env, f: FileRequest, original: Bytes, b: Bytes)
    ensures NewBytes(env, f, original) == Some(b) <==> AsksFor(env, f, original, b)
  {
    if f.FileEdit? && env.decode(original).Some? {
      var text := env.decode(original).value;
      var edited := TextEdits.Edited(text, f.replacements);
      if edited.Ok? { TextEdits.EditedMeans(text, f.replacements, edited.value); }
      if t :| TextEdits.EditsTo(text, f.replacements, t) && b == env.encode(t) {
        TextEdits.EditedMeans(text, f.replacements, t);
      }
    }
  }

  lemma {:induction false} MatchesMeans(env: Env, f: FileRequest, start: Files)
    ensures Matches(env, f, start) <==> Fits(env, f, start)
  {}

  lemma {:induction false} LastDotOfEnding(name: string, n: nat)
    requires n < |name| && name[n] == '.' && forall i | n < i < |name| :: name[i] != '.'
    ensures LastDot(name) == n
  {
    if n < |name| - 1 { LastDotOfEnding(name[..|name| - 1], n); }
  }

  lemma {:induction false} LastDotIs(name: string)
    ensures -1 <= LastDot(name) < |name| && (LastDot(name) >= 0 ==> name[LastDot(name)] == '.')
    ensures forall i | LastDot(name) < i < |name| :: name[i] != '.'
  {
    if name != [] && name[|name| - 1] != '.' { LastDotIs(name[..|name| - 1]); }
  }

  lemma {:induction false} LowerFrom(name: string, n: nat)
    requires n <= |name|
    ensures Lower(name[n..]) == Lower(name)[n..]
  {}

  lemma {:induction false} EndsWithItsSuffix(name: string, n: nat, ending: string)
    requires 0 < n < |name| && Lower(name[n..]) == ending
    ensures |name| > |ending| && EndsWith(Lower(name), ending)
  {
    LowerFrom(name, n);
  }

  lemma {:induction false} EndingIsSuffix(name: string, ending: string)
    requires |ending| >= 2 && ending[0] == '.' && forall i | 0 < i < |ending| :: ending[i] != '.'
    requires |name| > |ending| && EndsWith(Lower(name), ending)
    ensures LastDot(name) == |name| - |ending| && Lower(name[LastDot(name)..]) == ending
  {
    var n := |name| - |ending|;
    LowerFrom(name, n);
    forall i | n <= i < |name| ensures LowerChar(name[i]) == ending[i - n] {
      assert Lower(name)[n..][i - n] == Lower(name)[i];
    }
    LastDotOfEnding(name, n);
  }

  /** The suffix of a path is one of these exactly when its name ends so. */
  lemma {:induction false} SuffixIs(path: string, ending: string)
    requires |ending| >= 2 && ending[0] == '.' && forall i | 0 < i < |ending| :: ending[i] != '.'
    ensures Suffix(path) == ending <==> HasEnding(path, ending)
  {
    LastDotIs(Name(path));
    if Suffix(path) == ending { EndsWithItsSuffix(Name(path), LastDot(Name(path)), ending); }
    if HasEnding(path, ending) { EndingIsSuffix(Name(path), ending); }
  }

  /** The result of the content check. */
  lemma {:induction false} ValidationMeans(env: Env, path: string, content: Bytes)
    ensures Validation(env, path, content).Some? <==> Sane(env, path, content)
    ensures Validation(env, path, content) == Some("not_validated") <==>
            !HasEnding(path, ".py") && !HasEnding(path, ".json") && !HasEnding(path, ".toml")
  {
    SuffixIs(path, ".py");
    SuffixIs(path, ".json");
    SuffixIs(path, ".toml");
    ValidationOf(env, path, content, Suffix(path));
  }

  lemma {:induction false} ValidationOf(env: Env, path: string, content: Bytes, suffix: string)
    requires suffix == Suffix(path)
    ensures Validation(env, path, content) ==
            if suffix == ".py" || suffix == ".json" || suffix == ".toml"
            then if env.parses(suffix, content) then Some("validated") else None
            else Some("not_validated")
  {}

  /** Every distinct path is planned as its request makes it. */
  lemma {:induction false} PlanMakes(env: Env, files: seq<FileRequest>, start: Files, plan: Files, i: nat)
    requires PreflightHolds(env, files, start) && Plan(env, files, Originals(files, start)) == Some(plan)
    requires Validations(env, files, plan).Some? && DistinctPaths(files) && i < |files|
    ensures files[i].path in plan && Makes(env, files[i], start, plan[files[i].path])
  {
    PreflightAt(env, files, start, i);
    MatchesMeans(env, files[i], start);
    PathSetHas(files, i);
    OriginalsAt(files, start, files[i].path);
    PlanAt(env, files, Originals(files, start), i);
    NewBytesMeans(env, files[i], Originals(files, start)[files[i].path], plan[files[i].path]);
    ValidationsAt(env, files, plan, i);
    ValidationMeans(env, files[i].path, plan[files[i].path]);
  }

  lemma {:induction false} PreflightFrom(env: Env, files: seq<FileRequest>, start: Files)
    requires forall i | 0 <= i < |files| :: Fits(env, files[i], start)
    ensures PreflightHolds(env, files, start)
  {
    if files != [] {
      PreflightFrom(env, files[..|files| - 1], start);
      MatchesMeans(env, files[|files| - 1], start);
    }
  }

  lemma {:induction false} PlanExists(env: Env, files: seq<FileRequest>, originals: map<string, Bytes>)
    requires PathSet(files) <= originals.Keys
    requires forall i | 0 <= i < |files| && files[i].path in originals ::
               NewBytes(env, files[i], originals[files[i].path]).Some?
    ensures Plan(env, files, originals).Some?
  {
    if files != [] {
      var n := |files| - 1;
      assert forall i | 0 <= i < n :: files[..n][i] == files[i];
      PlanExists(env, files[..n], originals);
    }
  }

  lemma {:induction false} ValidationsExist(env: Env, files: seq<FileRequest>, contents: map<string, Bytes>)
    requires PathSet(files) <= contents.Keys
    requires forall i | 0 <= i < |files| && files[i].path in contents ::
               Validation(env, files[i].path, contents[files[i].path]).Some?
    ensures Validations(env, files, contents).Some?
  {
    if files != [] {
      var n := |files| - 1;
      assert forall i | 0 <= i < n :: files[..n][i] == files[i];
      ValidationsExist(env, files[..n], contents);
    }
  }

  /** Nothing later in the list is for the same path. */
  predicate LastForItsPath(files: seq<FileRequest>, i: nat)
    requires i < |files|
  {
    forall j | i < j < |files| :: files[j].path != files[i].path
  }

  lemma {:induction false} LastForInit(files: seq<FileRequest>, i: nat)
    requires i < |files| - 1 && LastForItsPath(files, i)
    ensures LastForItsPath(files[..|files| - 1], i) && files[i].path != files[|files| - 1].path
  {
    var init := files[..|files| - 1];
    forall j | i < j < |init| ensures init[j].path != init[i].path { assert init[j] == files[j]; }
  }

  lemma {:induction false} PlannedSome(env: Env, files: seq<FileRequest>, originals: map<string, Bytes>, i: nat)
    requires PathSet(files) <= originals.Keys && Plan(env, files, originals).Some? && i < |files|
    requires files[i].path in originals
    ensures NewBytes(env, files[i], originals[files[i].path]).Some?
  {
    PlanLast(env, files, originals);
    if i < |files| - 1 {
      assert files[..|files| - 1][i] == files[i];
      PlannedSome(env, files[..|files| - 1], originals, i);
    }
  }

  lemma {:induction false} PlanBytes(env: Env, files: seq<FileRequest>, originals: map<string, Bytes>, i: nat)
    requires PathSet(files) <= originals.Keys && Plan(env, files, originals).Some? && i < |files|
    requires files[i].path in originals && LastForItsPath(files, i)
    ensures files[i].path in Plan(env, files, originals).value
    ensures Some(Plan(env, files, originals).value[files[i].path]) ==
            NewBytes(env, files[i], originals[files[i].path])
  {
    var init := files[..|files| - 1];
    PlanLast(env, files, originals);
    if i < |files| - 1 {
      assert init[i] == files[i];
      LastForInit(files, i);
      PlanBytes(env, init, originals, i);
    }
  }

  /** The plan holds what the last request for each path asks for. */
  lemma {:induction false} PlanMeans(env: Env, files: seq<FileRequest>, originals: map<string, Bytes>, i: nat)
    requires PathSet(files) <= originals.Keys && Plan(env, files, originals).Some? && i < |files|
    requires LastForItsPath(files, i)
    ensures files[i].path in originals && files[i].path in Plan(env, files, originals).value
    ensures AsksFor(env, files[i], originals[files[i].path], Plan(env, files, originals).value[files[i].path])
  {
    PathSetHas(files, i);
    PlanBytes(env, files, originals, i);
    NewBytesMeans(env, files[i], originals[files[i].path], Plan(env, files, originals).value[files[i].path]);
  }

  lemma {:induction false} AllAsk(env: Env, files: seq<FileRequest>, originals: map<string, Bytes>, i: nat)
    requires PathSet(files) <= originals.Keys && Plan(env, files, originals).Some? && i < |files|
    ensures files[i].path in originals && AsksForSome(env, files[i], originals[files[i].path])
  {
    PathSetHas(files, i);
    PlannedSome(env, files, originals, i);
    NewBytesMeans(env, files[i], originals[files[i].path], NewBytes(env, files[i], originals[files[i].path]).value);
  }

  /** There is a plan exactly when every request asks for something. */
  lemma {:induction false} PlanExistsExactly(env: Env, files: seq<FileRequest>, originals: map<string, Bytes>)
    requires PathSet(files) <= originals.Keys
    ensures Plan(env, files, originals).Some? <==>
            forall i | 0 <= i < |files| && files[i].path in originals ::
              AsksForSome(env, files[i], originals[files[i].path])
  {
    if Plan(env, files, originals).Some? {
      forall i | 0 <= i < |files| && files[i].path in originals
        ensures AsksForSome(env, files[i], originals[files[i].path]) { AllAsk(env, files, originals, i); }
    } else if forall i | 0 <= i < |files| && files[i].path in originals ::
                AsksForSome(env, files[i], originals[files[i].path]) {
      forall i | 0 <= i < |files| && files[i].path in originals
        ensures NewBytes(env, files[i], originals[files[i].path]).Some?
      {
        var b :| AsksFor(env, files[i], originals[files[i].path], b);
        NewBytesMeans(env, files[i], originals[files[i].path], b);
      }
      PlanExists(env, files, originals);
    }
  }

  /** Preflight, plan and content checks succeed exactly when every request makes something of what it finds. */
  lemma {:induction false} PlannedExactly(env: Env, files: seq<FileRequest>, start: Files)
    requires DistinctPaths(files)
    ensures PreflightHolds(env, files, start) && Plan(env, files, Originals(files, start)).Some? &&
            Validations(env, files, Plan(env, files, Originals(files, start)).value).Some? <==>
              forall i | 0 <= i < |files| :: CanMake(env, files[i], start)
  {
    var originals := Originals(files, start);
    if PreflightHolds(env, files, start) && Plan(env, files, originals).Some? &&
        Validations(env, files, Plan(env, files, originals).value).Some? {
      forall i | 0 <= i < |files| ensures CanMake(env, files[i], start) {
        PlanMakes(env, files, start, Plan(env, files, originals).value, i);
      }
    }
    if forall i | 0 <= i < |files| :: CanMake(env, files[i], start) { AllMade(env, files, start); }
  }

  lemma {:induction false} AllMade(env: Env, files: seq<FileRequest>, start: Files)
    requires DistinctPaths(files) && forall i | 0 <= i < |files| :: CanMake(env, files[i], start)
    ensures PreflightHolds(env, files, start) && Plan(env, files, Originals(files, start)).Some? &&
            Validations(env, files, Plan(env, files, Originals(files, start)).value).Some?
  {
    var originals := Originals(files, start);
    forall i | 0 <= i < |files|
      ensures Fits(env, files[i], start) && files[i].path in originals
      ensures NewBytes(env, files[i], originals[files[i].path]).Some?
      ensures Validation(env, files[i].path, NewBytes(env, files[i], originals[files[i].path]).value).Some?
    {
      var b :| Makes(env, files[i], start, b);
      PathSetHas(files, i);
      OriginalsAt(files, start, files[i].path);
      NewBytesMeans(env, files[i], originals[files[i].path], b);
      ValidationMeans(env, files[i].path, b);
    }
    PreflightFrom(env, files, start);
    PlanExists(env, files, originals);
    var plan := Plan(env, files, originals).value;
    forall i | 0 <= i < |files| && files[i].path in plan
        ensures Validation(env, files[i].path, plan[files[i].path]).Some? {
      PlanAt(env, files, originals, i);
    }
    ValidationsExist(env, files, plan);
  }

  // ---------------------------------------------------------------- names

  /** Backup and temporary file of every path. */
  datatype Names = Names(backup: map<string, string>, temp: map<string, string>)

  function NamesFor(ps: set<string>, ts: string, changesetId: string): Names {
    Names(map p | p in ps :: BackupPath(p, ts), map p | p in ps :: TempPath(p, changesetId))
  }

  /** No backup or temporary name is itself a target, nor is a backup a temporary file. */
  ghost predicate NamesClear(ps: set<string>, ts: string, changesetId: string) {
    var n := NamesFor(ps, ts, changesetId);
    forall p, q | p in ps && q in ps :: n.backup[p] != q && n.temp[p] != q && n.backup[p] != n.temp[q]
  }

  ghost predicate Separate(ps: set<string>, n: Names) {
    && n.backup.Keys == ps && n.temp.Keys == ps
    && (forall p | p in ps :: n.backup[p] !in ps && n.temp[p] !in ps)
    && (forall p, q | p in ps && q in ps :: n.backup[p] != n.temp[q])
    && (forall p, q | p in ps && q in ps && p != q :: n.backup[p] != n.backup[q] && n.temp[p] != n.temp[q])
  }

  lemma {:induction false} NamesDiffer(ps: set<string>, ts: string, changesetId: string, p: string, q: string)
    requires p in ps && q in ps && p != q
    ensures NamesFor(ps, ts, changesetId).backup[p] != NamesFor(ps, ts, changesetId).backup[q]
    ensures NamesFor(ps, ts, changesetId).temp[p] != NamesFor(ps, ts, changesetId).temp[q]
  {
    if BackupPath(p, ts) == BackupPath(q, ts) { BackupPathInjective(p, q, ts); }
    if TempPath(p, changesetId) == TempPath(q, changesetId) { TempPathInjective(p, q, changesetId); }
  }

  /** The names derived from distinct paths never collide among themselves. */
  lemma {:induction false} ClearNamesSeparate(ps: set<string>, ts: string, changesetId: string)
    requires NamesClear(ps, ts, changesetId)
    ensures Separate(ps, NamesFor(ps, ts, changesetId))
  {
    var n := NamesFor(ps, ts, changesetId);
    forall p, q | p in ps && q in ps && p != q ensures n.backup[p] != n.backup[q] && n.temp[p] != n.temp[q] {
      NamesDiffer(ps, ts, changesetId, p, q);
    }
  }

  ghost function Footprint(ps: set<string>, n: Names): set<string>
    requires Separate(ps, n)
  {
    ps + n.backup.Values + n.temp.Values
  }

  lemma {:induction false} FootprintHas(ps: set<string>, n: Names, p: string)
    requires Separate(ps, n) && p in ps
    ensures {p, n.backup[p], n.temp[p]} <= Footprint(ps, n)
  {
    assert n.backup[p] in n.backup.Values && n.temp[p] in n.temp.Values;
  }

  // ---------------------------------------------------------------- remote states

  ghost predicate SameAt(now: Files, start: Files, p: string) {
    (p in now <==> p in start) && (p in now ==> now[p] == start[p])
  }

  ghost predicate NewAt(now: Files, plan: Files, p: string) {
    p in now && p in plan && now[p] == plan[p]
  }

  /** The files in `done` hold their new bytes, every other target what it started with. */
  ghost predicate TargetsAs(now: Files, start: Files, plan: Files, ps: set<string>, done: set<string>) {
    forall p | p in ps :: if p in done then NewAt(now, plan, p) else SameAt(now, start, p)
  }

  /** Everything outside `names` is as it was. */
  ghost predicate Elsewhere(now: Files, before: Files, names: set<string>) {
    forall x | x !in names :: SameAt(now, before, x)
  }

  lemma {:induction false} ElsewhereTransitively(a: Files, b: Files, c: Files, names: set<string>)
    requires Elsewhere(b, a, names) && Elsewhere(c, b, names)
    ensures Elsewhere(c, a, names)
  {
    forall x | x !in names ensures SameAt(c, a, x) {
      assert SameAt(b, a, x) && SameAt(c, b, x);
    }
  }

  /** No file that was there at preflight has been changed or removed since. */
  ghost predicate Unmoved(now: Files, start: Files, ps: set<string>) {
    forall p | p in ps && p in start :: p in now && now[p] == start[p]
  }

  ghost predicate BackupHolds(now: Files, start: Files, n: Names, p: string) {
    p in start ==> p in n.backup && n.backup[p] in now && now[n.backup[p]] == start[p]
  }

  ghost predicate BackedUp(now: Files, start: Files, ps: set<string>, n: Names) {
    forall p | p in ps :: BackupHolds(now, start, n, p)
  }

  ghost predicate Staged(now: Files, plan: Files, ps: set<string>, n: Names) {
    forall p | p in ps :: p in n.temp && p in plan && n.temp[p] in now && now[n.temp[p]] == plan[p]
  }

  // ---------------------------------------------------------------- journal rows

  /** The rows written when the changeset was created, whatever columns were set since. */
  ghost predicate RowsFor(rows: seq<FileChange>, files: seq<FileRequest>, start: Files) {
    && |rows| == |files| && DistinctIds(rows)
    && forall i | 0 <= i < |rows| ::
         rows[i].id == files[i].operationId && rows[i].path == files[i].path &&
         (rows[i].originallyAbsent <==> rows[i].path !in start)
  }

  ghost predicate DistinctPaths(files: seq<FileRequest>) {
    forall i, j | 0 <= i < j < |files| :: files[i].path != files[j].path
  }

  ghost predicate RowsNameBackups(rows: seq<FileChange>, start: Files, n: Names) {
    forall i | 0 <= i < |rows| :: rows[i].path in start ==>
        rows[i].path in n.backup && rows[i].remoteBackup == n.backup[rows[i].path]
  }

  ghost function AppliedPaths(rows: seq<FileChange>): set<string> {
    set i | 0 <= i < |rows| && rows[i].applied :: rows[i].path
  }

  /** A file is journalled applied exactly when its new bytes are in force, and then its
      backup still holds the original. */
  ghost predicate RowAccurate(row: FileChange, now: Files, start: Files, plan: Files, n: Names) {
    && (row.originallyAbsent <==> row.path !in start)
    && (if row.applied
        then NewAt(now, plan, row.path) && BackupHolds(now, start, n, row.path)
             && (row.path in start ==> row.path in n.backup && row.remoteBackup == n.backup[row.path])
        else SameAt(now, start, row.path))
  }

  ghost predicate JournalAccurate(rows: seq<FileChange>, now: Files, start: Files, plan: Files, n: Names) {
    forall i | 0 <= i < |rows| :: RowAccurate(rows[i], now, start, plan, n)
  }

  lemma {:induction false} PatchKeepsRows(rows: seq<FileChange>, files: seq<FileRequest>, start: Files, id: string,
                                          u: FileUpdate)
    requires RowsFor(rows, files, start)
    ensures RowsFor(PatchRow(rows, id, u), files, start)
  {}

  lemma {:induction false} PatchKeepsApplied(rows: seq<FileChange>, id: string, u: FileUpdate)
    requires u.applied.None?
    ensures AppliedPaths(PatchRow(rows, id, u)) == AppliedPaths(rows)
  {
    var after := PatchRow(rows, id, u);
    forall p ensures p in AppliedPaths(after) <==> p in AppliedPaths(rows) {
      if p in AppliedPaths(after) {
        var i :| 0 <= i < |after| && after[i].applied && after[i].path == p;
        assert rows[i].applied && rows[i].path == p;
      }
      if p in AppliedPaths(rows) {
        var i :| 0 <= i < |rows| && rows[i].applied && rows[i].path == p;
        assert after[i].applied && after[i].path == p;
      }
    }
  }

  lemma {:induction false} PatchSetsApplied(rows: seq<FileChange>, k: nat, u: FileUpdate)
    requires k < |rows| && DistinctIds(rows) && u.applied.Some?
    requires forall i, j | 0 <= i < j < |rows| :: rows[i].path != rows[j].path
    ensures AppliedPaths(PatchRow(rows, rows[k].id, u)) ==
            if u.applied.value then AppliedPaths(rows) + {rows[k].path} else AppliedPaths(rows) - {rows[k].path}
  {
    var after := PatchRow(rows, rows[k].id, u);
    assert forall i | 0 <= i < |rows| :: i != k ==> after[i] == rows[i];
    assert after[k] == Patch(rows[k], u);
    forall p ensures p in AppliedPaths(after) <==>
                     p in if u.applied.value then AppliedPaths(rows) + {rows[k].path}
                     else AppliedPaths(rows) - {rows[k].path} {
      if p in AppliedPaths(after) {
        var i :| 0 <= i < |after| && after[i].applied && after[i].path == p;
        assert i == k || (rows[i].applied && rows[i].path == p);
      }
      if p in AppliedPaths(rows) {
        var i :| 0 <= i < |rows| && rows[i].applied && rows[i].path == p;
        assert i == k || (after[i].applied && after[i].path == p);
      }
      if p == rows[k].path && u.applied.value { assert after[k].applied && after[k].path == p; }
    }
  }

  lemma {:induction false} PatchKeepsNames(rows: seq<FileChange>, start: Files, n: Names, id: string, u: FileUpdate)
    requires RowsNameBackups(rows, start, n) && u.remoteBackup.None?
    ensures RowsNameBackups(PatchRow(rows, id, u), start, n)
  {
    var after := PatchRow(rows, id, u);
    assert forall i | 0 <= i < |after| ::
             after[i].path == rows[i].path && after[i].remoteBackup == rows[i].remoteBackup;
  }

  lemma {:induction false} RowAppliedExactly(rows: seq<FileChange>, i: nat)
    requires i < |rows| && forall j, k | 0 <= j < k < |rows| :: rows[j].path != rows[k].path
    ensures rows[i].applied <==> rows[i].path in AppliedPaths(rows)
  {
    if rows[i].path in AppliedPaths(rows) {
      var j :| 0 <= j < |rows| && rows[j].applied && rows[j].path == rows[i].path;
      assert j == i;
    }
  }

  /** When the journalled set is the set of files really holding new bytes, every row is accurate. */
  lemma {:induction false} AccurateRows(rows: seq<FileChange>, files: seq<FileRequest>, now: Files, start: Files,
                                        plan: Files, n: Names)
    requires RowsFor(rows, files, start)
    requires AppliedPaths(rows) != {} ==> DistinctPaths(files) && RowsNameBackups(rows, start, n)
    requires TargetsAs(now, start, plan, PathSet(files), AppliedPaths(rows))
    requires BackedUp(now, start, AppliedPaths(rows), n)
    ensures JournalAccurate(rows, now, start, plan, n)
  {
    forall i | 0 <= i < |rows| ensures RowAccurate(rows[i], now, start, plan, n) {
      PathSetHas(files, i);
      assert rows[i].path == files[i].path;
      assert rows[i].applied ==> rows[i].path in AppliedPaths(rows);
      if AppliedPaths(rows) != {} {
        assert forall j, k | 0 <= j < k < |rows| :: rows[j].path != rows[k].path;
        RowAppliedExactly(rows, i);
      }
    }
  }

  // ---------------------------------------------------------------- one rename, one undo

  function Elements(s: seq<string>): set<string> {
    if s == [] then {} else Elements(s[..|s| - 1]) + {s[|s| - 1]}
  }

  lemma {:induction false} ElementsExact(s: seq<string>)
    ensures forall p :: p in Elements(s) <==> p in s
  {
    if s != [] {
      ElementsExact(s[..|s| - 1]);
      assert s == s[..|s| - 1] + [s[|s| - 1]];
    }
  }

  lemma {:induction false} RenameMovesTarget(before: Files, now: Files, start: Files, plan: Files, ps: set<string>,
                                             n: Names, done: set<string>, p: string)
    requires Separate(ps, n) && p in ps && p !in done && n.temp[p] in before && p in plan &&
             before[n.temp[p]] == plan[p]
    requires TargetsAs(before, start, plan, ps, done)
    requires now == (before - {n.temp[p]})[p := before[n.temp[p]]]
    ensures TargetsAs(now, start, plan, ps, done + {p})
  {
    forall q | q in ps ensures if q in done + {p} then NewAt(now, plan, q) else SameAt(now, start, q) {
      assert q != n.temp[p];
      assert if q in done then NewAt(before, plan, q) else SameAt(before, start, q);
    }
  }

  lemma {:induction false} RenameKeepsTemps(before: Files, now: Files, plan: Files, ps: set<string>, n: Names,
                                            done: set<string>, p: string)
    requires Separate(ps, n) && p in ps && n.temp[p] in before && Staged(before, plan, ps - done, n)
    requires now == (before - {n.temp[p]})[p := before[n.temp[p]]]
    ensures Staged(now, plan, ps - (done + {p}), n)
  {
    forall q | q in ps - (done + {p}) ensures q in plan && n.temp[q] in now && now[n.temp[q]] == plan[q] {
      assert q in ps - done;
    }
  }

  lemma {:induction false} RenameKeepsBackups(before: Files, now: Files, start: Files, ps: set<string>, n: Names,
                                              p: string)
    requires Separate(ps, n) && p in ps && n.temp[p] in before && BackedUp(before, start, ps, n)
    requires now == (before - {n.temp[p]})[p := before[n.temp[p]]]
    ensures BackedUp(now, start, ps, n)
  {
    forall q | q in ps ensures BackupHolds(now, start, n, q) {
      assert BackupHolds(before, start, n, q);
    }
  }

  /** Renaming one staged file into place moves exactly that target to its new bytes. */
  lemma {:induction false} RenameStep(before: Files, now: Files, start: Files, plan: Files, ps: set<string>, n: Names,
                                      done: set<string>, p: string)
    requires Separate(ps, n) && p in ps && p !in done
    requires TargetsAs(before, start, plan, ps, done) && Staged(before, plan, ps - done, n) &&
             BackedUp(before, start, ps, n)
    requires now == (before - {n.temp[p]})[p := before[n.temp[p]]]
    ensures TargetsAs(now, start, plan, ps, done + {p})
    ensures Staged(now, plan, ps - (done + {p}), n)
    ensures BackedUp(now, start, ps, n)
    ensures Elsewhere(now, before, {p, n.temp[p]})
  {
    assert p in ps - done;
    RenameMovesTarget(before, now, start, plan, ps, n, done, p);
    RenameKeepsTemps(before, now, plan, ps, n, done, p);
    RenameKeepsBackups(before, now, start, ps, n, p);
  }

  /** Restoring one file returns exactly that target to its original. */
  lemma {:induction false} UndoStep(before: Files, now: Files, start: Files, plan: Files, ps: set<string>, n: Names,
                                    done: set<string>, p: string)
    requires Separate(ps, n) && p in done && done <= ps
    requires TargetsAs(before, start, plan, ps, done) && BackedUp(before, start, done, n)
    requires now == if p in start then (before - {n.backup[p]})[p := before[n.backup[p]]] else before - {p}
    ensures TargetsAs(now, start, plan, ps, done - {p})
    ensures BackedUp(now, start, done - {p}, n)
    ensures Elsewhere(now, before, {p, n.backup[p]})
  {
    assert BackupHolds(before, start, n, p);
    forall q | q in ps ensures if q in done - {p} then NewAt(now, plan, q) else SameAt(now, start, q) {
      assert q != n.backup[p];
      assert if q in done then NewAt(before, plan, q) else SameAt(before, start, q);
    }
    forall q | q in done - {p} ensures BackupHolds(now, start, n, q) {
      assert BackupHolds(before, start, n, q);
    }
  }

  /** Operations on names outside the targets and backups leave the undo state alone. */
  lemma {:induction false} AsideStep(before: Files, now: Files, start: Files, plan: Files, ps: set<string>, n: Names,
                                     done: set<string>, names: set<string>)
    requires Separate(ps, n) && done <= ps
    requires TargetsAs(before, start, plan, ps, done) && BackedUp(before, start, done, n)
    requires Elsewhere(now, before, names) && names <= n.temp.Values
    ensures TargetsAs(now, start, plan, ps, done) && BackedUp(now, start, done, n)
  {
    assert forall p | p in ps :: p !in n.temp.Values && n.backup[p] !in n.temp.Values;
    forall q | q in ps ensures if q in done then NewAt(now, plan, q) else SameAt(now, start, q) {
      assert SameAt(now, before, q);
      assert if q in done then NewAt(before, plan, q) else SameAt(before, start, q);
    }
    forall q | q in done ensures BackupHolds(now, start, n, q) {
      assert BackupHolds(before, start, n, q);
      assert SameAt(now, before, n.backup[q]);
    }
  }

  /** A write to one temporary file stages it and moves nothing else. */
  lemma {:induction false} StageStep(before: Files, now: Files, start: Files, plan: Files, ps: set<string>, n: Names,
                                     staged: set<string>, p: string)
    requires Separate(ps, n) && p in ps && p in plan && staged <= ps
    requires TargetsAs(before, start, plan, ps, {}) && Staged(before, plan, staged, n) && BackedUp(before, start, ps, n)
    requires n.temp[p] !in before && now == before[n.temp[p] := plan[p]]
    ensures p !in staged
    ensures TargetsAs(now, start, plan, ps, {}) && Staged(now, plan, staged + {p}, n) && BackedUp(now, start, ps, n)
    ensures Elsewhere(now, before, {n.temp[p]})
  {
    forall q | q in ps ensures SameAt(now, start, q) && BackupHolds(now, start, n, q) {
      assert SameAt(before, start, q) && BackupHolds(before, start, n, q);
    }
  }

  /** Copying one target to its backup name: the backup holds what the target held. */
  lemma {:induction false} CopyStep(before: Files, now: Files, start: Files, ps: set<string>, n: Names,
                                    done: set<string>, p: string)
    requires Separate(ps, n) && p in ps && done <= ps
    requires BackedUp(before, start, done, n)
    requires p in before && now == before[n.backup[p] := before[p]]
    requires p in start ==> now[n.backup[p]] == start[p]
    ensures BackedUp(now, start, done + {p}, n)
    ensures Elsewhere(now, before, {n.backup[p]})
  {
    forall q | q in done + {p} ensures BackupHolds(now, start, n, q) {
      if q != p { assert BackupHolds(before, start, n, q); }
    }
  }

  // ---------------------------------------------------------------- the order of operations

  ghost predicate TargetTouched(ops: seq<RemoteOp>, from: nat, ps: set<string>) {
    exists k | from <= k < |ops| :: exists p | p in ps :: p in Touched(ops[k])
  }

  /** Every file that existed was copied to its backup somewhere in `ops[from..to]`. */
  ghost predicate CopiesTaken(ops: seq<RemoteOp>, from: nat, to: nat, start: Files, ps: set<string>, n: Names) {
    forall p | p in ps && p in start && p in n.backup ::
      exists j | from <= j < to && j < |ops| :: ops[j] == Copied(p, n.backup[p], start[p])
  }

  /** From `from` on no target was touched, or all copies were taken before the first touch. */
  ghost predicate BackupsFirst(ops: seq<RemoteOp>, from: nat, start: Files, ps: set<string>, n: Names) {
    || !TargetTouched(ops, from, ps)
    || exists m | from <= m <= |ops| :: !TargetTouched(ops[..m], from, ps) && CopiesTaken(ops, from, m, start, ps, n)
  }

  ghost predicate AllStaged(ops: seq<RemoteOp>, from: nat, plan: Files, ps: set<string>, n: Names) {
    forall p | p in ps && p in plan && p in n.temp :: exists j | from <= j < |ops| ::
        ops[j] == Wrote(n.temp[p], plan[p])
  }

  /** The first `k` rows already carry the name of their backup. */
  ghost predicate RowsNamed(rows: seq<FileChange>, k: nat, start: Files, n: Names) {
    k <= |rows| && RowsNameBackups(rows[..k], start, n)
  }

  /** The rows after the backup name of one file has been recorded. */
  function NamedRow(rows: seq<FileChange>, f: FileRequest, n: Names): seq<FileChange>
    requires f.path in n.backup
  {
    PatchRow(rows, f.operationId, NO_UPDATE.(remoteBackup := Some(n.backup[f.path])))
  }

  lemma {:induction false} RowsNamedStep(before: seq<FileChange>, rows: seq<FileChange>, files: seq<FileRequest>,
                                         k: nat, start: Files, n: Names)
    requires k < |files| && RowsFor(before, files, start) && RowsNamed(before, k, start, n)
    requires n.backup.Keys == PathSet(files) && files[k].path in PathSet(files)
    requires if files[k].path in start
             then rows == NamedRow(before, files[k], n)
             else rows == before
    ensures RowsNamed(rows, k + 1, start, n)
  {
    assert before[k].id == files[k].operationId && before[k].path == files[k].path;
    forall i | 0 <= i < k ensures rows[i] == before[i] && before[..k][i] == before[i] {
      assert before[i].id != before[k].id;
    }
    var named := rows[..k + 1];
    forall i | 0 <= i < |named|
      ensures named[i].path in start ==> named[i].path in n.backup && named[i].remoteBackup == n.backup[named[i].path] {
      if i < k { assert named[i] == before[..k][i]; }
    }
  }

  lemma {:induction false} CopiesGrow(log: seq<RemoteOp>, ops: seq<RemoteOp>, from: nat, start: Files, ps: set<string>,
                                      n: Names, p: string)
    requires p in start && p in n.backup && from <= |log|
    requires ops == log + [Copied(p, n.backup[p], start[p])] && CopiesTaken(log, from, |log|, start, ps, n)
    ensures CopiesTaken(ops, from, |ops|, start, ps + {p}, n)
  {
    forall q | q in ps + {p} && q in start && q in n.backup
      ensures exists j | from <= j < |ops| :: ops[j] == Copied(q, n.backup[q], start[q]) {
      if q == p {
        assert ops[|log|] == Copied(q, n.backup[q], start[q]);
      } else {
        var j :| from <= j < |log| && log[j] == Copied(q, n.backup[q], start[q]);
        assert ops[j] == log[j];
      }
    }
  }

  lemma {:induction false} SameOutsideBackups(now: Files, before: Files, ps: set<string>, n: Names, p: string)
    requires Separate(ps, n) && p in ps && Elsewhere(now, before, n.backup.Values)
    ensures SameAt(now, before, p)
  {
    assert p !in n.backup.Values;
  }

  /** Nothing stands where the temporary files of the requests from index `i` on will be written. */
  ghost predicate TempsFree(files: seq<FileRequest>, i: nat, n: Names, now: Files) {
    forall j | i <= j < |files| && files[j].path in n.temp :: n.temp[files[j].path] !in now
  }

  /** Writing one temporary file leaves the places of the others free. */
  lemma {:induction false} TempsFreeStep(files: seq<FileRequest>, i: nat, n: Names, now: Files, content: Bytes)
    requires i < |files| && Separate(PathSet(files), n) && DistinctPaths(files) && files[i].path in n.temp
    requires TempsFree(files, i, n, now)
    ensures TempsFree(files, i + 1, n, now[n.temp[files[i].path] := content])
  {
    forall j | i + 1 <= j < |files| && files[j].path in n.temp
      ensures n.temp[files[j].path] !in now[n.temp[files[i].path] := content]
    {
      PathSetHas(files, i);
      PathSetHas(files, j);
    }
  }

  /** Backups are not in the way of temporary files. */
  lemma {:induction false} TempsStayFree(files: seq<FileRequest>, n: Names, before: Files, now: Files)
    requires Separate(PathSet(files), n) && Elsewhere(now, before, n.backup.Values) && TempsFree(files, 0, n, before)
    ensures TempsFree(files, 0, n, now)
  {
    forall j | 0 <= j < |files| && files[j].path in n.temp ensures n.temp[files[j].path] !in now {
      PathSetHas(files, j);
      assert n.temp[files[j].path] !in n.backup.Values;
      assert SameAt(now, before, n.temp[files[j].path]);
    }
  }

  // ---------------------------------------------------------------- path order

  lemma {:induction false} DistinctStep(files: seq<FileRequest>, i: nat)
    requires i < |files| && DistinctPaths(files[..i]) && files[i].path !in PathSet(files[..i])
    ensures DistinctPaths(files[..i + 1])
  {
    forall j | 0 <= j < i ensures files[..i][j].path != files[i].path { PathSetHas(files[..i], j); }
    var prefix, longer := files[..i], files[..i + 1];
    forall j, k | 0 <= j < k < |longer| ensures longer[j].path != longer[k].path {
      assert longer[j] == prefix[j];
      if k < i { assert longer[k] == prefix[k]; }
    }
  }

  function PathList(files: seq<FileRequest>): seq<string> {
    if files == [] then [] else PathList(files[..|files| - 1]) + [files[|files| - 1].path]
  }

  /** `sorted(temp_paths)`. */
  function PathOrder(files: seq<FileRequest>): seq<string> {
    Sort(PathList(files), StrLeq)
  }

  lemma {:induction false} PathListElements(files: seq<FileRequest>)
    ensures forall p :: p in PathList(files) <==> p in PathSet(files)
  {
    if files != [] { PathListElements(files[..|files| - 1]); }
  }

  lemma {:induction false} PathListOnce(files: seq<FileRequest>, p: string)
    requires DistinctPaths(files)
    ensures multiset(PathList(files))[p] <= 1
  {
    if files != [] {
      var n := |files| - 1;
      PathListOnce(files[..n], p);
      PathListElements(files[..n]);
      if p in PathSet(files[..n]) {
        var i := PathSetFrom(files[..n], p);
        assert files[i].path == p && files[i].path != files[n].path;
      }
    }
  }

  lemma {:induction false} RepeatCounts(s: seq<string>, k: nat)
    requires k < |s|
    ensures s[k] in s[..k] ==> multiset(s)[s[k]] >= 2
  {
    assert s == s[..k] + [s[k]] + s[k + 1..];
  }

  /** Sorting distinct paths visits every target once. */
  lemma {:induction false} PathOrderExact(files: seq<FileRequest>)
    requires DistinctPaths(files)
    ensures Elements(PathOrder(files)) == PathSet(files)
    ensures forall k | 0 <= k < |PathOrder(files)| :: PathOrder(files)[k] in PathSet(files)
    ensures forall k | 0 <= k < |PathOrder(files)| :: PathOrder(files)[k] !in Elements(PathOrder(files)[..k])
  {
    var o := PathOrder(files);
    SameElements(o, PathList(files));
    PathListElements(files);
    ElementsExact(o);
    forall k | 0 <= k < |o| ensures o[k] in PathSet(files) && o[k] !in Elements(o[..k]) {
      ElementsExact(o[..k]);
      PathListOnce(files, o[k]);
      RepeatCounts(o, k);
    }
  }

  lemma {:induction false} PathOrderAt(files: seq<FileRequest>, k: nat, p: string)
    requires DistinctPaths(files) && k < |PathOrder(files)| && p == PathOrder(files)[k]
    ensures p in PathSet(files) && p !in Elements(PathOrder(files)[..k])
  {
    PathOrderExact(files);
  }

  lemma {:induction false} ElementsSnoc(s: seq<string>, x: string)
    ensures Elements(s + [x]) == Elements(s) + {x}
  {
    assert (s + [x])[..|s|] == s;
  }

  lemma {:induction false} ElementsStep(s: seq<string>, k: nat)
    requires k < |s|
    ensures Elements(s[..k + 1]) == Elements(s[..k]) + {s[k]}
  {
    assert s[..k + 1][..k] == s[..k];
  }

  lemma {:induction false} GrewWider(a: seq<RemoteOp>, b: seq<RemoteOp>, small: set<string>, big: set<string>)
    requires GrewWithin(a, b, small) && small <= big
    ensures GrewWithin(a, b, big)
  {}

  lemma {:induction false} ElsewhereWider(now: Files, before: Files, small: set<string>, big: set<string>)
    requires Elsewhere(now, before, small) && small <= big
    ensures Elsewhere(now, before, big)
  {}

  lemma {:induction false} StagedGrows(log: seq<RemoteOp>, ops: seq<RemoteOp>, from: nat, plan: Files, ps: set<string>,
                                       n: Names, p: string)
    requires p in plan && p in n.temp && from <= |log|
    requires ops == log + [Wrote(n.temp[p], plan[p])] && AllStaged(log, from, plan, ps, n)
    ensures AllStaged(ops, from, plan, ps + {p}, n)
  {
    forall q | q in ps + {p} && q in plan && q in n.temp ensures exists j | from <= j < |ops| ::
        ops[j] == Wrote(n.temp[q], plan[q]) {
      if q == p {
        assert ops[|log|] == Wrote(n.temp[q], plan[q]);
      } else {
        var j :| from <= j < |log| && log[j] == Wrote(n.temp[q], plan[q]);
        assert ops[j] == log[j];
      }
    }
  }

  /** The undo loop meets every renamed file once. */
  lemma {:induction false} UndoPosition(files: seq<FileRequest>, applied: seq<string>, k: nat)
    requires DistinctPaths(files) && |applied| <= |PathOrder(files)| && applied == PathOrder(files)[..|applied|] &&
             k < |applied|
    ensures applied[k] in PathSet(files) && applied[k] in Elements(applied[..k + 1])
    ensures Elements(applied[..k]) == Elements(applied[..k + 1]) - {applied[k]}
  {
    PathOrderExact(files);
    assert applied[..k] == PathOrder(files)[..k];
    ElementsStep(applied, k);
  }

  // ---------------------------------------------------------------- whole transactions

  ghost function Aside(n: Names): set<string> {
    n.backup.Values + n.temp.Values
  }

  /** Work on backups and temporary files touches no target. */
  lemma {:induction false} AsideMisses(log: seq<RemoteOp>, ops: seq<RemoteOp>, ps: set<string>, n: Names)
    requires Separate(ps, n) && GrewWithin(log, ops, Aside(n))
    ensures !TargetTouched(ops, |log|, ps)
  {
    assert forall p | p in ps :: p !in Aside(n);
  }

  lemma {:induction false} AsideLeavesTargets(now: Files, start: Files, plan: Files, ps: set<string>, n: Names)
    requires Separate(ps, n) && Elsewhere(now, start, Aside(n))
    ensures TargetsAs(now, start, plan, ps, {})
  {
    assert forall p | p in ps :: p !in Aside(n);
    forall p | p in ps ensures SameAt(now, start, p) {}
  }

  lemma {:induction false} CopiesStay(mid: seq<RemoteOp>, ops: seq<RemoteOp>, from: nat, start: Files, ps: set<string>,
                                      n: Names)
    requires mid <= ops && CopiesTaken(mid, from, |mid|, start, ps, n)
    ensures CopiesTaken(ops, from, |mid|, start, ps, n)
  {
    forall p | p in ps && p in start && p in n.backup
      ensures exists j | from <= j < |mid| && j < |ops| :: ops[j] == Copied(p, n.backup[p], start[p]) {
      var j :| from <= j < |mid| && mid[j] == Copied(p, n.backup[p], start[p]);
      assert ops[j] == mid[j];
    }
  }

  lemma {:induction false} CopiesWiden(ops: seq<RemoteOp>, from: nat, to: nat, later: nat, start: Files,
                                       ps: set<string>, n: Names)
    requires to <= later && CopiesTaken(ops, from, to, start, ps, n)
    ensures CopiesTaken(ops, from, later, start, ps, n)
  {
    forall p | p in ps && p in start && p in n.backup
      ensures exists j | from <= j < later && j < |ops| :: ops[j] == Copied(p, n.backup[p], start[p]) {
      var j :| from <= j < to && j < |ops| && ops[j] == Copied(p, n.backup[p], start[p]);
    }
  }

  lemma {:induction false} CopiesLast(mid: seq<RemoteOp>, ops: seq<RemoteOp>, from: nat, start: Files, ps: set<string>,
                                      n: Names)
    requires mid <= ops && CopiesTaken(mid, from, |mid|, start, ps, n)
    ensures CopiesTaken(ops, from, |ops|, start, ps, n)
  {
    CopiesStay(mid, ops, from, start, ps, n);
    CopiesWiden(ops, from, |mid|, |ops|, start, ps, n);
  }

  lemma {:induction false} StagedFromEarlier(ops: seq<RemoteOp>, earlier: nat, from: nat, plan: Files, ps: set<string>,
                                             n: Names)
    requires earlier <= from && AllStaged(ops, from, plan, ps, n)
    ensures AllStaged(ops, earlier, plan, ps, n)
  {
    forall p | p in ps && p in plan && p in n.temp ensures exists j | earlier <= j < |ops| ::
        ops[j] == Wrote(n.temp[p], plan[p]) {
      var j :| from <= j < |ops| && ops[j] == Wrote(n.temp[p], plan[p]);
    }
  }

  lemma {:induction false} StagedStays(mid: seq<RemoteOp>, ops: seq<RemoteOp>, from: nat, plan: Files, ps: set<string>,
                                       n: Names)
    requires mid <= ops && AllStaged(mid, from, plan, ps, n)
    ensures AllStaged(ops, from, plan, ps, n)
  {
    forall p | p in ps && p in plan && p in n.temp ensures exists j | from <= j < |ops| ::
        ops[j] == Wrote(n.temp[p], plan[p]) {
      var j :| from <= j < |mid| && mid[j] == Wrote(n.temp[p], plan[p]);
      assert ops[j] == mid[j];
    }
  }

  /** All copies precede the point `mid`, and no target is touched before it. */
  lemma {:induction false} CopiesCameFirst(log: seq<RemoteOp>, mid: seq<RemoteOp>, ops: seq<RemoteOp>, start: Files,
                                           ps: set<string>, n: Names)
    requires Separate(ps, n) && GrewWithin(log, mid, Aside(n)) && mid <= ops
    requires CopiesTaken(mid, |log|, |mid|, start, ps, n)
    ensures BackupsFirst(ops, |log|, start, ps, n)
  {
    AsideMisses(log, mid, ps, n);
    assert ops[..|mid|] == mid;
    CopiesStay(mid, ops, |log|, start, ps, n);
  }

  /** A target either is as it was, or holds its new bytes while its backup holds the old. */
  ghost predicate Recoverable(now: Files, start: Files, plan: Files, n: Names, p: string) {
    SameAt(now, start, p) || (NewAt(now, plan, p) && BackupHolds(now, start, n, p))
  }

  lemma {:induction false} UndoableIsRecoverable(now: Files, start: Files, plan: Files, ps: set<string>, n: Names,
                                                 left: set<string>)
    requires TargetsAs(now, start, plan, ps, left) && BackedUp(now, start, left, n)
    ensures forall p | p in ps :: Recoverable(now, start, plan, n, p)
  {}

  lemma {:induction false} WholePrefix(a: seq<string>, b: seq<string>)
    requires |a| == |b| && a == b[..|a|]
    ensures a == b
  {}

  /** A nonempty prefix has elements. */
  lemma {:induction false} NoElements(s: seq<string>)
    ensures Elements(s) == {} <==> s == []
  {}

  lemma {:induction false} PrefixInside(files: seq<FileRequest>, applied: seq<string>)
    requires DistinctPaths(files) && |applied| <= |PathOrder(files)| && applied == PathOrder(files)[..|applied|]
    ensures Elements(applied) <= PathSet(files)
  {
    PathOrderExact(files);
    ElementsExact(applied);
    ElementsExact(PathOrder(files));
  }
}
