/** The remote file system as the transaction sees it: every operation takes effect
    completely or fails and changes nothing. */
module RemoteFiles {
  import opened Wrappers
  import opened ChangeTypes

  type Files = map<string, Bytes>

  datatype RemoteOp =
    | Copied(source: string, target: string, content: Bytes)
    | Wrote(path: string, content: Bytes)
    | Renamed(source: string, target: string)
    | Removed(path: string)

  /** The names an operation creates, replaces or deletes. */
  function Touched(op: RemoteOp): set<string> {
    match op
    case Copied(_, target, _) => {target}
    case Wrote(path, _) => {path}
    case Renamed(source, target) => {source, target}
    case Removed(path) => {path}
  }

  /** The log grew, and only by operations on these names. */
  ghost predicate GrewWithin(before: seq<RemoteOp>, after: seq<RemoteOp>, names: set<string>) {
    before <= after && forall k | |before| <= k < |after| :: Touched(after[k]) <= names
  }

  lemma {:induction false} GrewTransitively(a: seq<RemoteOp>, b: seq<RemoteOp>, c: seq<RemoteOp>, names: set<string>)
    requires GrewWithin(a, b, names) && GrewWithin(b, c, names)
    ensures GrewWithin(a, c, names)
  {}

  lemma {:induction false} OneOpGrew(log: seq<RemoteOp>, op: RemoteOp, names: set<string>)
    requires Touched(op) <= names
    ensures GrewWithin(log, log + [op], names) && GrewWithin(log, log, names)
  {}

  datatype Stat = Present | Absent | Unreadable

  class RemoteStore {
    /** Whether every operation that could take effect does. */
    const reliable: bool
    var files: Files
    /** Every operation that took effect, in order. */
    ghost var ops: seq<RemoteOp>

    constructor (files: Files, reliable: bool)
      ensures this.files == files && ops == [] && this.reliable == reliable
    {
      this.files, ops, this.reliable := files, [], reliable;
    }

    /** Anyone with access to the host may change anything; the manager's own log does not show it. */
    method OtherWriters()
      modifies this`files
    {
      files := *;
    }

    /** `Unreadable` covers lost connections, symbolic links and paths outside the policy. */
    method Lstat(path: string) returns (s: Stat)
      ensures s.Present? ==> path in files
      ensures s.Absent? ==> path !in files
      ensures reliable ==> !s.Unreadable?
    {
      if !reliable { if * { return Unreadable; } }
      s := if path in files then Present else Absent;
    }

    method Read(path: string) returns (r: Option<Bytes>)
      ensures r.Some? ==> path in files && r.value == files[path]
      ensures reliable && path in files ==> r.Some?
    {
      if !reliable { if * { return None; } }
      r := if path in files then Some(files[path]) else None;
    }

    method Copy(source: string, target: string) returns (ok: bool)
      modifies this
      ensures ok ==> source in old(files) && files == old(files)[target := old(files)[source]]
      ensures ok ==> ops == old(ops) + [Copied(source, target, old(files)[source])]
      ensures !ok ==> files == old(files) && ops == old(ops)
      ensures reliable && source in old(files) ==> ok
    {
      if !reliable { if * { return false; } }
      if source !in files { return false; }
      ops := ops + [Copied(source, target, files[source])];
      files := files[target := files[source]];
      ok := true;
    }

    /** `exclusive=True`: never overwrites. */
    method WriteExclusive(path: string, content: Bytes) returns (ok: bool)
      modifies this
      ensures ok ==>
              path !in old(files) && files == old(files)[path := content] && ops == old(ops) + [Wrote(path, content)]
      ensures !ok ==> files == old(files) && ops == old(ops)
      ensures reliable && path !in old(files) ==> ok
    {
      if !reliable { if * { return false; } }
      if path in files { return false; }
      ops := ops + [Wrote(path, content)];
      files := files[path := content];
      ok := true;
    }

    method Rename(source: string, target: string) returns (ok: bool)
      modifies this
      ensures ok ==> source in old(files) && files == (old(files) - {source})[target := old(files)[source]]
      ensures ok ==> ops == old(ops) + [Renamed(source, target)]
      ensures !ok ==> files == old(files) && ops == old(ops)
      ensures reliable && source in old(files) ==> ok
    {
      if !reliable { if * { return false; } }
      if source !in files { return false; }
      ops := ops + [Renamed(source, target)];
      files := (files - {source})[target := files[source]];
      ok := true;
    }

    method Remove(path: string) returns (ok: bool)
      modifies this
      ensures ok ==> path in old(files) && files == old(files) - {path} && ops == old(ops) + [Removed(path)]
      ensures !ok ==> files == old(files) && ops == old(ops)
      ensures reliable && path in old(files) ==> ok
    {
      if !reliable { if * { return false; } }
      if path !in files { return false; }
      ops := ops + [Removed(path)];
      files := files - {path};
      ok := true;
    }
  }
}
