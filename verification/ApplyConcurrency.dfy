/** Any number of applies running at once under sorted per-path locks: a transition system
    whose steps are the lock operations and the file operations of every apply. */
module ApplyConcurrency {
  import opened Wrappers
  import opened Ordering
  import opened ChangeTypes

  // ---------------------------------------------------------------- lock keys

  datatype Key = Key(target: string, scope: string, path: string)

  /** Tuples compare component by component. */
  predicate KeyLess(a: Key, b: Key) {
    || StrLess(a.target, b.target)
    || (a.target == b.target && (StrLess(a.scope, b.scope) || (a.scope == b.scope && StrLess(a.path, b.path))))
  }

  predicate KeyLeq(a: Key, b: Key) {
    a == b || KeyLess(a, b)
  }

  lemma {:induction false} KeyLessIrreflexive(a: Key)
    ensures !KeyLess(a, a)
  {
    StrLessIrreflexive(a.target);
    StrLessIrreflexive(a.scope);
    StrLessIrreflexive(a.path);
  }

  lemma {:induction false} KeyLessTransitive(a: Key, b: Key, c: Key)
    requires KeyLess(a, b) && KeyLess(b, c)
    ensures KeyLess(a, c)
  {
    if StrLess(a.target, b.target) && StrLess(b.target, c.target) { StrLessTransitive(a.target, b.target, c.target); }
    if StrLess(a.scope, b.scope) && StrLess(b.scope, c.scope) { StrLessTransitive(a.scope, b.scope, c.scope); }
    if StrLess(a.path, b.path) && StrLess(b.path, c.path) { StrLessTransitive(a.path, b.path, c.path); }
  }

  lemma {:induction false} KeyLeqIsTotalOrder()
    ensures TotalOrder(KeyLeq)
  {
    forall a, b ensures KeyLeq(a, b) || KeyLeq(b, a) {
      StrLessTotal(a.target, b.target);
      StrLessTotal(a.scope, b.scope);
      StrLessTotal(a.path, b.path);
    }
    forall a, b | KeyLeq(a, b) && KeyLeq(b, a) ensures a == b {
      if a != b { KeyLessTransitive(a, b, a); KeyLessIrreflexive(a); }
    }
    forall a, b, c | KeyLeq(a, b) && KeyLeq(b, c) ensures KeyLeq(a, c) {
      if a != b && b != c { KeyLessTransitive(a, b, c); }
    }
  }

  predicate Ascending(ks: seq<Key>) {
    forall i, j | 0 <= i < j < |ks| :: KeyLess(ks[i], ks[j])
  }

  /** Drop repetitions from a sorted list. */
  function Dedup(ks: seq<Key>): seq<Key> {
    if |ks| < 2 then ks
    else if ks[0] == ks[1] then Dedup(ks[1..])
    else [ks[0]] + Dedup(ks[1..])
  }

  /** `sorted({...})`: the order in which an apply takes its locks. */
  function AcquisitionOrder(ks: seq<Key>): seq<Key> {
    Dedup(Sort(ks, KeyLeq))
  }

  lemma {:induction false} DedupAscends(ks: seq<Key>)
    requires SortedBy(ks, KeyLeq)
    ensures Ascending(Dedup(ks)) && (forall k :: k in Dedup(ks) <==> k in ks)
  {
    if |ks| >= 2 {
      DedupAscends(ks[1..]);
      var rest := Dedup(ks[1..]);
      assert ks == [ks[0]] + ks[1..];
      if ks[0] != ks[1] {
        forall k | k in rest ensures KeyLess(ks[0], k) {
          assert k in ks[1..] && KeyLeq(ks[1], k);
          if k != ks[1] { KeyLessTransitive(ks[0], ks[1], k); }
        }
      }
    }
  }

  /** Every key is taken once, in strictly ascending order. */
  lemma {:induction false} AcquisitionOrderAscends(ks: seq<Key>)
    ensures Ascending(AcquisitionOrder(ks)) && (forall k :: k in AcquisitionOrder(ks) <==> k in ks)
  {
    KeyLeqIsTotalOrder();
    SortSorted(ks, KeyLeq);
    DedupAscends(Sort(ks, KeyLeq));
    SameElements(Sort(ks, KeyLeq), ks);
  }

  // ---------------------------------------------------------------- the system

  /** A file's bytes, or None when it is absent. */
  type Content = Option<Bytes>

  datatype Phase =
    | Acquiring(held: nat)
    | Working(failing: bool, read: map<Key, Content>, planned: Option<map<Key, Bytes>>, done: set<Key>)
    | Releasing(held: nat, applied: bool)
    | Returned(applied: bool)

  /** One apply: its lock keys in acquisition order, the digest each file must have (None
      for a file to be created), and where it is. */
  datatype Apply = Apply(keys: seq<Key>, expected: map<Key, Option<string>>, phase: Phase)

  /** What one apply found and left, recorded when its work is over. */
  datatype Visit = Visit(who: nat, applied: bool, base: map<Key, Content>, left: map<Key, Content>)

  datatype System = System(applies: seq<Apply>, owner: map<Key, nat>, files: map<Key, Bytes>, visits: seq<Visit>)

  datatype Action =
    | Acquire
    | Enter
    | ReadFile(key: Key)
    | Compute(contents: map<Key, Bytes>)
    | RenameInto(key: Key)
    | Fault
    | Undo(key: Key)
    | Finish
    | Release
    | Return

  function At(files: map<Key, Bytes>, k: Key): Content {
    if k in files then Some(files[k]) else None
  }

  function Put(files: map<Key, Bytes>, k: Key, c: Content): map<Key, Bytes> {
    if c.Some? then files[k := c.value] else files - {k}
  }

  predicate Expected(sha: Bytes -> string, expected: Option<string>, found: Content) {
    if expected.None? then found.None? else found.Some? && sha(found.value) == expected.value
  }

  function Keys(a: Apply): set<Key> {
    set k | k in a.keys
  }

  function Left(files: map<Key, Bytes>, read: map<Key, Content>): map<Key, Content> {
    map k | k in read :: At(files, k)
  }

  predicate Enabled(sha: Bytes -> string, s: System, p: nat, act: Action)
    requires p < |s.applies|
  {
    var a := s.applies[p];
    match act
    case Acquire => a.phase.Acquiring? && a.phase.held < |a.keys| && a.keys[a.phase.held] !in s.owner
    case Enter => a.phase.Acquiring? && a.phase.held == |a.keys|
    case ReadFile(k) =>
      && a.phase.Working? && !a.phase.failing && k in Keys(a) && k !in a.phase.read
      && k in a.expected && Expected(sha, a.expected[k], At(s.files, k))
    case Compute(contents) =>
      a.phase.Working? && !a.phase.failing && a.phase.read.Keys == Keys(a) && a.phase.planned.None? &&
      contents.Keys == Keys(a)
    case RenameInto(k) =>
      a.phase.Working? && !a.phase.failing && a.phase.planned.Some? && k in a.phase.planned.value &&
      k in a.phase.read && k !in a.phase.done
    case Fault => a.phase.Working? && !a.phase.failing
    case Undo(k) => a.phase.Working? && a.phase.failing && k in a.phase.done && k in a.phase.read
    case Finish =>
      a.phase.Working? && (a.phase.failing || (a.phase.planned.Some? && a.phase.done == Keys(a)))
    case Release => a.phase.Releasing? && 0 < a.phase.held <= |a.keys|
    case Return => a.phase.Releasing? && a.phase.held == 0
  }

  function Goto(s: System, p: nat, phase: Phase): seq<Apply>
    requires p < |s.applies|
  {
    s.applies[p := s.applies[p].(phase := phase)]
  }

  /** One step of apply `p`. */
  function Step(sha: Bytes -> string, s: System, p: nat, act: Action): System
    requires p < |s.applies| && Enabled(sha, s, p, act)
  {
    var a := s.applies[p];
    var w := a.phase;
    match act
    case Acquire => s.(applies := Goto(s, p, Acquiring(w.held + 1)), owner := s.owner[a.keys[w.held] := p])
    case Enter => s.(applies := Goto(s, p, Working(false, map[], None, {})))
    case ReadFile(k) => s.(applies := Goto(s, p, w.(read := w.read[k := At(s.files, k)])))
    case Compute(contents) => s.(applies := Goto(s, p, w.(planned := Some(contents))))
    case RenameInto(k) => s.(applies := Goto(s, p, w.(done := w.done + {k})), files := s.files[k := w.planned.value[k]])
    case Fault => s.(applies := Goto(s, p, w.(failing := true)))
    case Undo(k) => s.(applies := Goto(s, p, w.(done := w.done - {k})), files := Put(s.files, k, w.read[k]))
    case Finish =>
      s.(applies := Goto(s, p, Releasing(|a.keys|, !w.failing)),
         visits := s.visits + [Visit(p, !w.failing, w.read, Left(s.files, w.read))])
    case Release => s.(applies := Goto(s, p, Releasing(w.held - 1, w.applied)), owner := s.owner - {a.keys[w.held - 1]})
    case Return => s.(applies := Goto(s, p, Returned(w.applied)))
  }

  ghost predicate Starts(s: System) {
    && s.owner == map[] && s.visits == []
    && forall p | 0 <= p < |s.applies| :: s.applies[p].phase == Acquiring(0) && Ascending(s.applies[p].keys)
  }

  datatype Move = Move(who: nat, act: Action)

  /** The system after these steps, in any interleaving of the applies; None when one of them is not possible. */
  function After(sha: Bytes -> string, s: System, run: seq<Move>): Option<System> {
    if run == [] then Some(s)
    else
      var before := After(sha, s, run[..|run| - 1]);
      var m := run[|run| - 1];
      if before.Some? && m.who < |before.value.applies| && Enabled(sha, before.value, m.who, m.act)
      then Some(Step(sha, before.value, m.who, m.act)) else None
  }

  // ---------------------------------------------------------------- mutual exclusion

  /** How many of its keys an apply holds: the first `Held` in acquisition order. */
  function Held(a: Apply): nat {
    match a.phase
    case Acquiring(held) => held
    case Working(_, _, _, _) => |a.keys|
    case Releasing(held, _) => held
    case Returned(_) => 0
  }

  ghost predicate Holds(a: Apply, k: Key) {
    exists i | 0 <= i < Held(a) && i < |a.keys| :: a.keys[i] == k
  }

  /** The lock table says exactly who holds what. */
  ghost predicate LocksAgree(s: System) {
    && (forall p | 0 <= p < |s.applies| :: Ascending(s.applies[p].keys) && Held(s.applies[p]) <= |s.applies[p].keys|)
    && (forall k | k in s.owner :: s.owner[k] < |s.applies| && Holds(s.applies[s.owner[k]], k))
    && (forall p, i | 0 <= p < |s.applies| && 0 <= i < Held(s.applies[p]) ::
          s.applies[p].keys[i] in s.owner && s.owner[s.applies[p].keys[i]] == p)
  }

  lemma {:induction false} AscendingDistinct(ks: seq<Key>, i: nat, j: nat)
    requires Ascending(ks) && i < |ks| && j < |ks| && ks[i] == ks[j]
    ensures i == j
  {
    KeyLessIrreflexive(ks[i]);
  }

  lemma {:induction false} StepKeepsLocks(sha: Bytes -> string, s: System, p: nat, act: Action)
    requires LocksAgree(s) && p < |s.applies| && Enabled(sha, s, p, act)
    ensures LocksAgree(Step(sha, s, p, act))
  {
    var t := Step(sha, s, p, act);
    var a, b := s.applies[p], t.applies[p];
    if act.Acquire? {
      AcquireKeepsLocks(s, p, t);
    } else if act.Release? {
      ReleaseKeepsLocks(s, p, t);
    } else {
      assert Held(b) == Held(a);
      SameHeldKeepsLocks(s, p, t);
    }
  }

  lemma {:induction false} HoldsStill(a: Apply, b: Apply, k: Key)
    requires Holds(a, k) && b.keys == a.keys && Held(a) <= Held(b)
    ensures Holds(b, k)
  {
    var i :| 0 <= i < Held(a) && i < |a.keys| && a.keys[i] == k;
    assert b.keys[i] == k;
  }

  lemma {:induction false} SameHeldKeepsLocks(s: System, p: nat, t: System)
    requires LocksAgree(s) && p < |s.applies| && |t.applies| == |s.applies| && t.owner == s.owner
    requires t.applies[p].keys == s.applies[p].keys && Held(t.applies[p]) == Held(s.applies[p])
    requires forall q | 0 <= q < |s.applies| && q != p :: t.applies[q] == s.applies[q]
    ensures LocksAgree(t)
  {
    forall k | k in t.owner ensures t.owner[k] < |t.applies| && Holds(t.applies[t.owner[k]], k) {
      HoldsStill(s.applies[s.owner[k]], t.applies[s.owner[k]], k);
    }
  }

  lemma {:induction false} AcquireKeepsLocks(s: System, p: nat, t: System)
    requires LocksAgree(s) && p < |s.applies|
    requires s.applies[p].phase.Acquiring? && Held(s.applies[p]) < |s.applies[p].keys|
    requires s.applies[p].keys[Held(s.applies[p])] !in s.owner
    requires t.applies == Goto(s, p, Acquiring(Held(s.applies[p]) + 1)) &&
             t.owner == s.owner[s.applies[p].keys[Held(s.applies[p])] := p]
    ensures LocksAgree(t)
  {
    var a, h := s.applies[p], Held(s.applies[p]);
    forall k | k in t.owner ensures t.owner[k] < |t.applies| && Holds(t.applies[t.owner[k]], k) {
      if k == a.keys[h] {
        assert t.applies[p].keys[h] == k;
      } else {
        HoldsStill(s.applies[s.owner[k]], t.applies[s.owner[k]], k);
      }
    }
    forall q, i | 0 <= q < |t.applies| && 0 <= i < Held(t.applies[q])
      ensures t.applies[q].keys[i] in t.owner && t.owner[t.applies[q].keys[i]] == q {
      AcquiredOwns(s, p, q, i);
    }
  }

  lemma {:induction false} AcquiredOwns(s: System, p: nat, q: nat, i: nat)
    requires LocksAgree(s) && p < |s.applies| && q < |s.applies| && i < |s.applies[q].keys|
    requires Held(s.applies[p]) < |s.applies[p].keys| && s.applies[p].keys[Held(s.applies[p])] !in s.owner
    requires i < Held(s.applies[q]) + if q == p then 1 else 0
    ensures var owner := s.owner[s.applies[p].keys[Held(s.applies[p])] := p];
            s.applies[q].keys[i] in owner && owner[s.applies[q].keys[i]] == q
  {
    if i < Held(s.applies[q]) { assert s.applies[q].keys[i] in s.owner && s.owner[s.applies[q].keys[i]] == q; }
  }

  lemma {:induction false} ReleaseKeepsLocks(s: System, p: nat, t: System)
    requires LocksAgree(s) && p < |s.applies|
    requires s.applies[p].phase.Releasing? && 0 < Held(s.applies[p])
    requires t.applies == Goto(s, p, s.applies[p].phase.(held := Held(s.applies[p]) - 1))
    requires t.owner == s.owner - {s.applies[p].keys[Held(s.applies[p]) - 1]}
    ensures LocksAgree(t)
  {
    var a, h := s.applies[p], Held(s.applies[p]) - 1;
    forall k | k in t.owner ensures t.owner[k] < |t.applies| && Holds(t.applies[t.owner[k]], k) {
      var q := s.owner[k];
      var i :| 0 <= i < Held(s.applies[q]) && i < |s.applies[q].keys| && s.applies[q].keys[i] == k;
      assert q == p ==> i != h;
      assert t.applies[q].keys[i] == k;
    }
    forall q, i | 0 <= q < |t.applies| && 0 <= i < Held(t.applies[q])
      ensures t.applies[q].keys[i] in t.owner && t.owner[t.applies[q].keys[i]] == q {
      assert s.applies[q].keys[i] in s.owner && s.owner[s.applies[q].keys[i]] == q;
      assert s.applies[p].keys[h] in s.owner && s.owner[s.applies[p].keys[h]] == p;
      if q == p && s.applies[p].keys[i] == a.keys[h] { AscendingDistinct(a.keys, i, h); }
    }
  }

  /** The lock table does not let two applies that share a key into the transaction body. */
  lemma {:induction false} SharersExclude(s: System, p: nat, q: nat, k: Key)
    requires LocksAgree(s) && p < |s.applies| && q < |s.applies|
    requires s.applies[p].phase.Working? && s.applies[q].phase.Working? && k in Keys(s.applies[p]) &&
             k in Keys(s.applies[q])
    ensures p == q
  {
    var i :| 0 <= i < |s.applies[p].keys| && s.applies[p].keys[i] == k;
    var j :| 0 <= j < |s.applies[q].keys| && s.applies[q].keys[j] == k;
  }

  // ---------------------------------------------------------------- progress

  ghost predicate Unfinished(a: Apply) {
    !a.phase.Returned?
  }

  /** Waiting for a key that someone holds. */
  ghost predicate Blocked(s: System, a: Apply) {
    a.phase.Acquiring? && a.phase.held < |a.keys| && a.keys[a.phase.held] in s.owner
  }

  ghost predicate CanStep(sha: Bytes -> string, s: System, p: nat) {
    p < |s.applies| && exists act :: Enabled(sha, s, p, act)
  }

  lemma {:induction false} UnblockedCanStep(sha: Bytes -> string, s: System, p: nat)
    requires LocksAgree(s) && p < |s.applies| && Unfinished(s.applies[p]) && !Blocked(s, s.applies[p])
    ensures CanStep(sha, s, p)
  {
    var a := s.applies[p];
    var act :=
      match a.phase
      case Acquiring(held) => if held < |a.keys| then Acquire else Enter
      case Working(failing, _, _, _) => if failing then Finish else Fault
      case Releasing(held, _) => if held > 0 then Release else Return
      case Returned(_) => Return;
    assert Enabled(sha, s, p, act);
  }

  /** Whoever blocks an apply waits, if at all, for a greater key. */
  lemma {:induction false} HolderWaitsHigher(s: System, p: nat) returns (q: nat)
    requires LocksAgree(s) && p < |s.applies| && Blocked(s, s.applies[p])
    ensures q < |s.applies| && Unfinished(s.applies[q])
    ensures Blocked(s, s.applies[q]) ==>
              KeyLess(s.applies[p].keys[s.applies[p].phase.held], s.applies[q].keys[s.applies[q].phase.held])
  {
    var k := s.applies[p].keys[s.applies[p].phase.held];
    q := s.owner[k];
    assert Holds(s.applies[q], k);
  }

  /** The applies blocked on keys above a given one. */
  ghost function WaitingAbove(s: System, k: Key): set<nat> {
    set p | 0 <= p < |s.applies| && Blocked(s, s.applies[p]) && KeyLess(k, s.applies[p].keys[s.applies[p].phase.held])
  }

  lemma {:induction false} ChainEnds(sha: Bytes -> string, s: System, p: nat)
    requires LocksAgree(s) && p < |s.applies| && Unfinished(s.applies[p])
    ensures exists q: nat :: CanStep(sha, s, q)
    decreases if Blocked(s, s.applies[p]) then 1 + |WaitingAbove(s, s.applies[p].keys[s.applies[p].phase.held])| else 0
  {
    if !Blocked(s, s.applies[p]) {
      UnblockedCanStep(sha, s, p);
    } else {
      var k := s.applies[p].keys[s.applies[p].phase.held];
      var q := HolderWaitsHigher(s, p);
      if Blocked(s, s.applies[q]) {
        var l := s.applies[q].keys[s.applies[q].phase.held];
        FewerAbove(s, k, l, q);
      }
      ChainEnds(sha, s, q);
    }
  }

  lemma {:induction false} FewerAbove(s: System, k: Key, l: Key, q: nat)
    requires KeyLess(k, l) && q in WaitingAbove(s, k) && s.applies[q].keys[s.applies[q].phase.held] == l
    ensures |WaitingAbove(s, l)| < |WaitingAbove(s, k)|
  {
    var above, higher := WaitingAbove(s, k), WaitingAbove(s, l);
    forall p | p in higher ensures p in above {
      KeyLessTransitive(k, l, s.applies[p].keys[s.applies[p].phase.held]);
    }
    KeyLessIrreflexive(l);
    assert q !in higher;
    ProperSubsetIsSmaller(higher, above, q);
  }

  lemma {:induction false} ProperSubsetIsSmaller(a: set<nat>, b: set<nat>, x: nat)
    requires a <= b && x in b && x !in a
    ensures |a| < |b|
  {
    SubsetIsNoLarger(a, b - {x});
  }

  lemma {:induction false} SubsetIsNoLarger(a: set<nat>, b: set<nat>)
    requires a <= b
    ensures |a| <= |b|
    decreases a
  {
    if a != {} {
      var x :| x in a;
      SubsetIsNoLarger(a - {x}, b - {x});
    }
  }

  /** How many steps an apply can still take at most. */
  function Rank(a: Apply): nat {
    var n, m := |a.keys|, |Keys(a)|;
    match a.phase
    case Acquiring(held) => n + 5 + 3 * m + if held <= n then n - held else 0
    case Working(failing, read, planned, done) =>
      if failing then n + 2 + |done * Keys(a)|
      else n + 3 + m + |Keys(a) - read.Keys| + |Keys(a) - done| + if planned.None? then 1 else 0
    case Releasing(held, _) => held + 1
    case Returned(_) => 0
  }

  function TotalRank(applies: seq<Apply>): nat {
    if applies == [] then 0 else TotalRank(applies[..|applies| - 1]) + Rank(applies[|applies| - 1])
  }

  lemma {:induction false} TotalRankUpdate(applies: seq<Apply>, p: nat, a: Apply)
    requires p < |applies|
    ensures TotalRank(applies[p := a]) == TotalRank(applies) - Rank(applies[p]) + Rank(a)
  {
    var n := |applies| - 1;
    if p == n {
      assert applies[p := a][..n] == applies[..n];
    } else {
      assert applies[p := a][..n] == applies[..n][p := a];
      TotalRankUpdate(applies[..n], p, a);
    }
  }

  lemma {:induction false} SmallerWithout(a: set<Key>, k: Key)
    requires k in a
    ensures |a - {k}| == |a| - 1
  {}

  lemma {:induction false} NoLarger(a: set<Key>, b: set<Key>)
    requires a <= b
    ensures |a| <= |b|
  {
    assert b == a + (b - a);
  }

  /** Only keys of its own are read and renamed. */
  ghost predicate OwnKeysOnly(a: Apply) {
    a.phase.Working? ==> a.phase.done <= a.phase.read.Keys <= Keys(a)
  }

  lemma {:induction false} ReadRanksLower(a: Apply, b: Apply, k: Key)
    requires a.phase.Working? && !a.phase.failing && OwnKeysOnly(a) && k in Keys(a) && k !in a.phase.read
    requires b.keys == a.keys && b.phase.Working? && b.phase == a.phase.(read := b.phase.read) &&
             b.phase.read.Keys == a.phase.read.Keys + {k}
    ensures Rank(b) < Rank(a)
  {
    assert Keys(b) - b.phase.read.Keys == (Keys(a) - a.phase.read.Keys) - {k};
    SmallerWithout(Keys(a) - a.phase.read.Keys, k);
  }

  lemma {:induction false} RenameRanksLower(a: Apply, b: Apply, k: Key)
    requires a.phase.Working? && !a.phase.failing && OwnKeysOnly(a) && k in Keys(a) && k !in a.phase.done
    requires b.keys == a.keys && b.phase == a.phase.(done := a.phase.done + {k})
    ensures Rank(b) < Rank(a)
  {
    assert Keys(b) - b.phase.done == (Keys(a) - a.phase.done) - {k};
    SmallerWithout(Keys(a) - a.phase.done, k);
  }

  lemma {:induction false} UndoRanksLower(a: Apply, b: Apply, k: Key)
    requires a.phase.Working? && a.phase.failing && OwnKeysOnly(a) && k in a.phase.done
    requires b.keys == a.keys && b.phase == a.phase.(done := a.phase.done - {k})
    ensures Rank(b) < Rank(a)
  {
    assert b.phase.done * Keys(b) == (a.phase.done * Keys(a)) - {k};
    SmallerWithout(a.phase.done * Keys(a), k);
  }

  lemma {:induction false} FaultRanksLower(a: Apply, b: Apply)
    requires a.phase.Working? && !a.phase.failing && b.keys == a.keys && b.phase == a.phase.(failing := true)
    ensures Rank(b) < Rank(a)
  {
    NoLarger(a.phase.done * Keys(a), Keys(a));
    assert Keys(b) == Keys(a);
  }

  lemma {:induction false} EnterRanksLower(a: Apply, b: Apply)
    requires a.phase.Acquiring? && b.keys == a.keys && b.phase == Working(false, map[], None, {})
    ensures Rank(b) < Rank(a)
  {
    assert b.phase.read.Keys == {} && Keys(b) - {} == Keys(a);
  }

  /** Every step brings its apply closer to returning. */
  lemma {:induction false} StepRanksLower(sha: Bytes -> string, s: System, p: nat, act: Action)
    requires p < |s.applies| && Enabled(sha, s, p, act) && OwnKeysOnly(s.applies[p])
    ensures Rank(Step(sha, s, p, act).applies[p]) < Rank(s.applies[p])
  {
    var a, b := s.applies[p], Step(sha, s, p, act).applies[p];
    match act {
      case ReadFile(k) => ReadRanksLower(a, b, k);
      case RenameInto(k) => RenameRanksLower(a, b, k);
      case Undo(k) => UndoRanksLower(a, b, k);
      case Enter => EnterRanksLower(a, b);
      case Fault => FaultRanksLower(a, b);
      case _ => OtherRanksLower(sha, s, p, act);
    }
  }

  lemma {:induction false} OtherRanksLower(sha: Bytes -> string, s: System, p: nat, act: Action)
    requires p < |s.applies| && Enabled(sha, s, p, act)
    requires act.Acquire? || act.Compute? || act.Finish? || act.Release? || act.Return?
    ensures Rank(Step(sha, s, p, act).applies[p]) < Rank(s.applies[p])
  {
    assert Keys(Step(sha, s, p, act).applies[p]) == Keys(s.applies[p]);
  }

  lemma {:induction false} StepRanksTotalLower(sha: Bytes -> string, s: System, p: nat, act: Action)
    requires p < |s.applies| && Enabled(sha, s, p, act) && OwnKeysOnly(s.applies[p])
    ensures TotalRank(Step(sha, s, p, act).applies) < TotalRank(s.applies)
  {
    var b := Step(sha, s, p, act).applies[p];
    StepRanksLower(sha, s, p, act);
    assert Step(sha, s, p, act).applies == s.applies[p := b];
    TotalRankUpdate(s.applies, p, b);
  }

  lemma {:induction false} StepKeepsOwnKeys(sha: Bytes -> string, s: System, p: nat, act: Action)
    requires p < |s.applies| && Enabled(sha, s, p, act) && OwnKeysOnly(s.applies[p])
    ensures OwnKeysOnly(Step(sha, s, p, act).applies[p])
  {}

  ghost predicate Orderly(s: System) {
    LocksAgree(s) && forall p | 0 <= p < |s.applies| :: OwnKeysOnly(s.applies[p])
  }

  lemma {:induction false} StepStaysOrderly(sha: Bytes -> string, s: System, p: nat, act: Action)
    requires Orderly(s) && p < |s.applies| && Enabled(sha, s, p, act)
    ensures Orderly(Step(sha, s, p, act)) && |Step(sha, s, p, act).applies| == |s.applies|
    ensures TotalRank(Step(sha, s, p, act).applies) < TotalRank(s.applies)
  {
    StepKeepsLocks(sha, s, p, act);
    StepRanksTotalLower(sha, s, p, act);
    StepKeepsOwnKeys(sha, s, p, act);
  }

  lemma {:induction false} StartsOrderly(s: System)
    requires Starts(s)
    ensures Orderly(s)
  {}

  lemma {:induction false} RunsStayOrderly(sha: Bytes -> string, s: System, run: seq<Move>)
    requires Starts(s) && After(sha, s, run).Some?
    ensures Orderly(After(sha, s, run).value) && |After(sha, s, run).value.applies| == |s.applies|
    ensures |run| + TotalRank(After(sha, s, run).value.applies) <= TotalRank(s.applies)
  {
    if run == [] {
      StartsOrderly(s);
    } else {
      var m, before := run[|run| - 1], After(sha, s, run[..|run| - 1]).value;
      RunsStayOrderly(sha, s, run[..|run| - 1]);
      StepStaysOrderly(sha, before, m.who, m.act);
      assert After(sha, s, run).value == Step(sha, before, m.who, m.act);
    }
  }

  /** Over every run two applies that share a lock key are never both inside the transaction body. */
  lemma {:induction false} MutualExclusion(sha: Bytes -> string, s: System, run: seq<Move>, t: System, p: nat, q: nat,
                                           k: Key)
    requires Starts(s) && After(sha, s, run) == Some(t) && p < |t.applies| && q < |t.applies|
    requires t.applies[p].phase.Working? && t.applies[q].phase.Working?
    requires k in Keys(t.applies[p]) && k in Keys(t.applies[q])
    ensures p == q
  {
    RunsStayOrderly(sha, s, run);
    SharersExclude(t, p, q, k);
  }

  /** No interleaving deadlocks: as long as an apply has not returned, some apply can step;
      and no run is longer than the applies together have steps. */
  lemma {:induction false} EveryRunCanFinish(sha: Bytes -> string, s: System, run: seq<Move>)
    requires Starts(s) && After(sha, s, run).Some?
    ensures |run| <= TotalRank(s.applies)
    ensures var t := After(sha, s, run).value;
            (exists q: nat :: CanStep(sha, t, q)) <==> exists p | 0 <= p < |t.applies| :: Unfinished(t.applies[p])
  {
    RunsStayOrderly(sha, s, run);
    var t := After(sha, s, run).value;
    if p :| 0 <= p < |t.applies| && Unfinished(t.applies[p]) {
      ChainEnds(sha, t, p);
    }
    if q: nat :| CanStep(sha, t, q) {
      assert Unfinished(t.applies[q]);
    }
  }

  // ---------------------------------------------------------------- no lost update

  /** What the last visit that touched `k` left there. */
  function LastLeft(visits: seq<Visit>, k: Key, init: map<Key, Bytes>): Content {
    if visits == [] then At(init, k)
    else
      var last := visits[|visits| - 1];
      if k in last.left then last.left[k] else LastLeft(visits[..|visits| - 1], k, init)
  }

  ghost predicate Reading(a: Apply, k: Key) {
    a.phase.Working? && k in a.phase.read
  }

  ghost predicate IsApplied(a: Apply) {
    (a.phase.Releasing? || a.phase.Returned?) && a.phase.applied
  }

  /** What an apply that has read `k` knows about it. */
  ghost predicate ReadSettled(sha: Bytes -> string, s: System, init: map<Key, Bytes>, p: nat, k: Key)
    requires p < |s.applies| && Reading(s.applies[p], k)
  {
    var a := s.applies[p];
    var w := a.phase;
    && k in Keys(a) && w.read[k] == LastLeft(s.visits, k, init)
    && k in a.expected && Expected(sha, a.expected[k], w.read[k])
    && (k in w.done ==> w.planned.Some? && k in w.planned.value)
    && At(s.files, k) == if k in w.done then Some(w.planned.value[k]) else w.read[k]
  }

  ghost predicate FilesSettled(sha: Bytes -> string, s: System, init: map<Key, Bytes>) {
    && (forall p, k | 0 <= p < |s.applies| && Reading(s.applies[p], k) :: ReadSettled(sha, s, init, p, k))
    && (forall k :: (forall p | 0 <= p < |s.applies| :: !Reading(s.applies[p], k)) ==>
        At(s.files, k) == LastLeft(s.visits, k, init))
  }

  /** A visit found what the visit before it left, and left either that or new bytes. */
  ghost predicate VisitSound(sha: Bytes -> string, applies: seq<Apply>, visits: seq<Visit>, i: nat,
                             init: map<Key, Bytes>)
    requires i < |visits|
  {
    var v := visits[i];
    && v.who < |applies| && (applies[v.who].phase.Releasing? || applies[v.who].phase.Returned?)
    && v.base.Keys == v.left.Keys <= Keys(applies[v.who])
    && (forall k | k in v.base :: v.base[k] == LastLeft(visits[..i], k, init))
    && (forall k | k in v.base :: v.left[k] == v.base[k] || v.left[k].Some?)
    && (forall k | k in v.base :: k in applies[v.who].expected && Expected(sha, applies[v.who].expected[k], v.base[k]))
    && (v.applied ==> v.base.Keys == Keys(applies[v.who]) && forall k | k in v.left :: v.left[k].Some?)
  }

  ghost predicate VisitsSettled(sha: Bytes -> string, s: System, init: map<Key, Bytes>) {
    && (forall i | 0 <= i < |s.visits| :: VisitSound(sha, s.applies, s.visits, i, init))
    && (forall i, j | 0 <= i < j < |s.visits| :: s.visits[i].who != s.visits[j].who)
    && (forall p | 0 <= p < |s.applies| && IsApplied(s.applies[p]) :: Visited(s.visits, p))
  }

  ghost predicate Visited(visits: seq<Visit>, p: nat) {
    exists i | 0 <= i < |visits| :: visits[i].who == p && visits[i].applied
  }

  lemma {:induction false} OtherReaderStays(sha: Bytes -> string, s: System, p: nat, act: Action, init: map<Key, Bytes>,
                                            q: nat, k: Key)
    requires Orderly(s) && FilesSettled(sha, s, init) && p < |s.applies| && Enabled(sha, s, p, act)
    requires act.ReadFile? || act.RenameInto? || act.Undo?
    requires q < |s.applies| && q != p && Reading(s.applies[q], k)
    ensures ReadSettled(sha, Step(sha, s, p, act), init, q, k)
  {
    assert ReadSettled(sha, s, init, q, k);
    assert act.key in Keys(s.applies[p]);
    OthersNotReading(sha, s, p, q, act.key, init);
    assert act.key != k;
  }

  lemma {:induction false} OwnReadStays(sha: Bytes -> string, s: System, p: nat, act: Action, init: map<Key, Bytes>,
                                        k: Key)
    requires Orderly(s) && FilesSettled(sha, s, init) && p < |s.applies| && Enabled(sha, s, p, act)
    requires act.ReadFile? || act.RenameInto? || act.Undo?
    requires Reading(Step(sha, s, p, act).applies[p], k)
    ensures ReadSettled(sha, Step(sha, s, p, act), init, p, k)
  {
    if Reading(s.applies[p], k) {
      assert ReadSettled(sha, s, init, p, k);
    } else {
      UnreadIsSettled(sha, s, p, k, init);
    }
  }

  lemma {:induction false} NobodyReadBefore(sha: Bytes -> string, s: System, p: nat, act: Action, k: Key)
    requires p < |s.applies| && Enabled(sha, s, p, act) && (act.ReadFile? || act.RenameInto? || act.Undo?)
    requires var t := Step(sha, s, p, act); forall q | 0 <= q < |t.applies| :: !Reading(t.applies[q], k)
    ensures forall q | 0 <= q < |s.applies| :: !Reading(s.applies[q], k)
    ensures At(Step(sha, s, p, act).files, k) == At(s.files, k)
  {
    var t := Step(sha, s, p, act);
    assert !Reading(t.applies[p], k);
    forall q | 0 <= q < |s.applies| ensures !Reading(s.applies[q], k) {
      assert !Reading(t.applies[q], k);
    }
  }

  /** A step of `p` inside the body that leaves the visits alone. */
  lemma {:induction false} WorkKeepsFiles(sha: Bytes -> string, s: System, p: nat, act: Action, init: map<Key, Bytes>)
    requires Orderly(s) && FilesSettled(sha, s, init) && p < |s.applies| && Enabled(sha, s, p, act)
    requires act.ReadFile? || act.RenameInto? || act.Undo?
    ensures FilesSettled(sha, Step(sha, s, p, act), init)
  {
    var t := Step(sha, s, p, act);
    forall q, k | 0 <= q < |t.applies| && Reading(t.applies[q], k) ensures ReadSettled(sha, t, init, q, k) {
      if q == p { OwnReadStays(sha, s, p, act, init, k); } else { OtherReaderStays(sha, s, p, act, init, q, k); }
    }
    forall k | forall q | 0 <= q < |t.applies| :: !Reading(t.applies[q], k)
      ensures At(t.files, k) == LastLeft(t.visits, k, init)
    {
      NobodyReadBefore(sha, s, p, act, k);
    }
  }

  /** Nobody else has a key in work that `p` holds inside the body. */
  lemma {:induction false} OthersNotReading(sha: Bytes -> string, s: System, p: nat, q: nat, k: Key,
                                            init: map<Key, Bytes>)
    requires Orderly(s) && FilesSettled(sha, s, init) && p < |s.applies| && q < |s.applies| && q != p
    requires s.applies[p].phase.Working? && k in Keys(s.applies[p])
    ensures !Reading(s.applies[q], k)
  {
    if Reading(s.applies[q], k) {
      assert ReadSettled(sha, s, init, q, k);
      SharersExclude(s, p, q, k);
    }
  }

  /** Before an apply reads a key of its own nobody has it in work. */
  lemma {:induction false} UnreadIsSettled(sha: Bytes -> string, s: System, p: nat, k: Key, init: map<Key, Bytes>)
    requires Orderly(s) && FilesSettled(sha, s, init) && p < |s.applies|
    requires s.applies[p].phase.Working? && k in Keys(s.applies[p]) && k !in s.applies[p].phase.read
    ensures At(s.files, k) == LastLeft(s.visits, k, init)
  {
    forall q | 0 <= q < |s.applies| ensures !Reading(s.applies[q], k) {
      if q != p { OthersNotReading(sha, s, p, q, k, init); }
    }
  }

  /** A step that touches neither files nor what anyone has read. */
  lemma {:induction false} OtherStepsKeepFiles(sha: Bytes -> string, s: System, p: nat, act: Action,
                                               init: map<Key, Bytes>)
    requires FilesSettled(sha, s, init) && p < |s.applies| && Enabled(sha, s, p, act)
    requires !(act.ReadFile? || act.RenameInto? || act.Undo? || act.Finish?)
    requires OwnKeysOnly(s.applies[p])
    ensures FilesSettled(sha, Step(sha, s, p, act), init)
  {
    var t := Step(sha, s, p, act);
    assert t.files == s.files && t.visits == s.visits;
    forall q, k | 0 <= q < |t.applies| && Reading(t.applies[q], k) ensures ReadSettled(sha, t, init, q, k) {
      assert Reading(s.applies[q], k) && ReadSettled(sha, s, init, q, k);
    }
    forall k | forall q | 0 <= q < |t.applies| :: !Reading(t.applies[q], k)
      ensures At(t.files, k) == LastLeft(t.visits, k, init)
    {
      forall q | 0 <= q < |s.applies| ensures !Reading(s.applies[q], k) {
        assert !Reading(t.applies[q], k);
      }
    }
  }

  lemma {:induction false} NotRead(sha: Bytes -> string, s: System, p: nat, q: nat, k: Key, init: map<Key, Bytes>)
    requires Orderly(s) && FilesSettled(sha, s, init) && p < |s.applies| && q < |s.applies| && q != p
    requires s.applies[p].phase.Working? && Reading(s.applies[q], k)
    ensures k !in s.applies[p].phase.read
  {
    if k in s.applies[p].phase.read { OthersNotReading(sha, s, p, q, k, init); }
  }

  lemma {:induction false} FinishKeepsFiles(sha: Bytes -> string, s: System, p: nat, init: map<Key, Bytes>)
    requires Orderly(s) && FilesSettled(sha, s, init) && p < |s.applies| && Enabled(sha, s, p, Finish)
    ensures FilesSettled(sha, Step(sha, s, p, Finish), init)
  {
    var t, read := Step(sha, s, p, Finish), s.applies[p].phase.read;
    assert t.visits[..|s.visits|] == s.visits;
    forall k ensures LastLeft(t.visits, k, init) == if k in read then At(s.files, k) else LastLeft(s.visits, k, init) {}
    forall q, k | 0 <= q < |t.applies| && Reading(t.applies[q], k) ensures ReadSettled(sha, t, init, q, k) {
      assert Reading(s.applies[q], k) && ReadSettled(sha, s, init, q, k);
      NotRead(sha, s, p, q, k, init);
    }
    forall k | forall q | 0 <= q < |t.applies| :: !Reading(t.applies[q], k)
      ensures At(t.files, k) == LastLeft(t.visits, k, init)
    {
      if k !in read {
        forall q | 0 <= q < |s.applies| ensures !Reading(s.applies[q], k) {
          assert !Reading(t.applies[q], k);
        }
      }
    }
  }

  lemma {:induction false} StepKeepsVisits(sha: Bytes -> string, s: System, p: nat, act: Action, init: map<Key, Bytes>)
    requires Orderly(s) && FilesSettled(sha, s, init) && VisitsSettled(sha, s, init) && p < |s.applies| &&
             Enabled(sha, s, p, act)
    requires !act.Finish?
    ensures VisitsSettled(sha, Step(sha, s, p, act), init)
  {
    var t := Step(sha, s, p, act);
    assert t.visits == s.visits;
    forall i | 0 <= i < |t.visits| ensures VisitSound(sha, t.applies, t.visits, i, init) {
      assert VisitSound(sha, s.applies, s.visits, i, init);
      assert Keys(t.applies[s.visits[i].who]) == Keys(s.applies[s.visits[i].who]);
    }
    forall q | 0 <= q < |t.applies| && IsApplied(t.applies[q]) ensures Visited(t.visits, q) {
      assert IsApplied(s.applies[q]);
    }
  }

  /** The visit recorded when an apply finishes. */
  lemma {:induction false} NewVisitSound(sha: Bytes -> string, s: System, p: nat, init: map<Key, Bytes>)
    requires Orderly(s) && FilesSettled(sha, s, init) && p < |s.applies| && Enabled(sha, s, p, Finish)
    ensures VisitSound(sha, Step(sha, s, p, Finish).applies, Step(sha, s, p, Finish).visits, |s.visits|, init)
  {
    var t, w, n := Step(sha, s, p, Finish), s.applies[p].phase, |s.visits|;
    assert t.visits[..n] == s.visits;
    assert Keys(t.applies[p]) == Keys(s.applies[p]);
    assert OwnKeysOnly(s.applies[p]);
    forall k | k in w.read ensures ReadSettled(sha, s, init, p, k) && t.visits[n].left[k] == At(s.files, k) {
      assert Reading(s.applies[p], k);
    }
  }

  lemma {:induction false} FinishKeepsVisits(sha: Bytes -> string, s: System, p: nat, init: map<Key, Bytes>)
    requires Orderly(s) && FilesSettled(sha, s, init) && VisitsSettled(sha, s, init) && p < |s.applies| &&
             Enabled(sha, s, p, Finish)
    ensures VisitsSettled(sha, Step(sha, s, p, Finish), init)
  {
    var t, n := Step(sha, s, p, Finish), |s.visits|;
    forall i | 0 <= i < |t.visits| ensures VisitSound(sha, t.applies, t.visits, i, init) {
      if i < n {
        assert VisitSound(sha, s.applies, s.visits, i, init) && t.visits[..i] == s.visits[..i];
        assert Keys(t.applies[s.visits[i].who]) == Keys(s.applies[s.visits[i].who]);
      } else {
        NewVisitSound(sha, s, p, init);
      }
    }
    forall i | 0 <= i < n ensures t.visits[i].who != p {
      assert VisitSound(sha, s.applies, s.visits, i, init);
    }
    forall q | 0 <= q < |t.applies| && IsApplied(t.applies[q]) ensures Visited(t.visits, q) {
      if q == p {
        assert t.visits[n].who == p && t.visits[n].applied;
      } else {
        assert IsApplied(s.applies[q]) && Visited(s.visits, q);
        var i :| 0 <= i < n && s.visits[i].who == q && s.visits[i].applied;
        assert t.visits[i] == s.visits[i];
      }
    }
  }

  /** Every reachable system is settled: what an apply has read is what the last visitor of
      the file left, and every visit began where the one before it ended. */
  lemma {:induction false} RunsStaySettled(sha: Bytes -> string, s: System, run: seq<Move>)
    requires Starts(s) && After(sha, s, run).Some?
    ensures FilesSettled(sha, After(sha, s, run).value, s.files) &&
            VisitsSettled(sha, After(sha, s, run).value, s.files)
  {
    if run != [] {
      var init := run[..|run| - 1];
      var m, before := run[|run| - 1], After(sha, s, init).value;
      RunsStaySettled(sha, s, init);
      RunsStayOrderly(sha, s, init);
      if m.act.Finish? {
        FinishKeepsFiles(sha, before, m.who, s.files);
        FinishKeepsVisits(sha, before, m.who, s.files);
      } else {
        StepKeepsVisits(sha, before, m.who, m.act, s.files);
        if m.act.ReadFile? || m.act.RenameInto? || m.act.Undo? { WorkKeepsFiles(sha, before, m.who, m.act, s.files); }
        else { OtherStepsKeepFiles(sha, before, m.who, m.act, s.files); }
      }
    }
  }

  /** Between a visit that changed a file and a later one that finds the first one's base
      again, some visit put that content back. */
  lemma {:induction false} SomeonePutItBack(sha: Bytes -> string, s: System, i: nat, j: nat, k: Key,
                                            init: map<Key, Bytes>)
    requires VisitsSettled(sha, s, init) && i < j <= |s.visits|
    requires k in s.visits[i].left && k in s.visits[i].base && s.visits[i].left[k] != s.visits[i].base[k]
    requires LastLeft(s.visits[..j], k, init) == s.visits[i].base[k]
    ensures exists m | i < m < j :: PutsBack(s.visits[m], k, s.visits[i].base[k])
    decreases j
  {
    assert s.visits[..j][..j - 1] == s.visits[..j - 1];
    var last, b := s.visits[j - 1], s.visits[i].base[k];
    assert VisitSound(sha, s.applies, s.visits, j - 1, init);
    if k !in last.left || last.base[k] == b {
      SomeonePutItBack(sha, s, i, j - 1, k, init);
      var m :| i < m < j - 1 && PutsBack(s.visits[m], k, b);
    } else {
      assert PutsBack(last, k, b);
    }
  }

  /** The visit found something else in `k` and left `c` there, by writing new bytes. */
  ghost predicate PutsBack(v: Visit, k: Key, c: Content) {
    k in v.base && k in v.left && v.base[k] != c && v.left[k] == c && c.Some?
  }

  ghost predicate CollisionFree(sha: Bytes -> string) {
    forall a, b :: sha(a) == sha(b) ==> a == b
  }

  /** Two requests prepared against the same digest of the same file, or both creating it. */
  ghost predicate SameBase(a: Apply, b: Apply, k: Key) {
    k in Keys(a) && k in Keys(b) && k in a.expected && k in b.expected && a.expected[k] == b.expected[k]
  }

  /** Visits `i` and `j` are those of `p` and `q`, in whichever order, and began from the same content of `k`. */
  ghost predicate Pair(vs: seq<Visit>, i: nat, j: nat, p: nat, q: nat, k: Key) {
    && i < j < |vs| && {vs[i].who, vs[j].who} == {p, q} && vs[i].applied && vs[j].applied
    && k in vs[i].base && k in vs[i].left && k in vs[j].base && vs[j].base[k] == vs[i].base[k] && vs[i].left[k].Some?
  }

  /** Some visit of an apply other than `p` and `q` put `c` back into `k` between visits `i` and `j`. */
  ghost predicate ThirdPutBack(t: System, i: nat, j: nat, p: nat, q: nat, k: Key, c: Content) {
    exists m | i < m < j && m < |t.visits| ::
      var r := t.visits[m].who;
      r != p && r != q && r < |t.applies| && k in Keys(t.applies[r]) && PutsBack(t.visits[m], k, c)
  }

  lemma {:induction false} VisitOfApplied(sha: Bytes -> string, t: System, init: map<Key, Bytes>, a: nat, k: Key)
    requires VisitsSettled(sha, t, init) && a < |t.visits| && t.visits[a].applied
    ensures var v := t.visits[a];
            v.who < |t.applies| &&
            (k in Keys(t.applies[v.who]) ==>
               k in v.base && k in v.left && v.left[k].Some? && k in t.applies[v.who].expected &&
               Expected(sha, t.applies[v.who].expected[k], v.base[k]))
  {
    assert VisitSound(sha, t.applies, t.visits, a, init);
  }

  lemma {:induction false} AppliedPair(sha: Bytes -> string, t: System, init: map<Key, Bytes>, p: nat, q: nat, k: Key)
      returns (i: nat, j: nat)
    requires VisitsSettled(sha, t, init) && CollisionFree(sha)
    requires p < |t.applies| && q < |t.applies| && p != q
    requires IsApplied(t.applies[p]) && IsApplied(t.applies[q]) && SameBase(t.applies[p], t.applies[q], k)
    ensures Pair(t.visits, i, j, p, q, k) && Expected(sha, t.applies[p].expected[k], t.visits[i].base[k])
  {
    var vs := t.visits;
    assert Visited(vs, p) && Visited(vs, q);
    var a :| 0 <= a < |vs| && vs[a].who == p && vs[a].applied;
    var b :| 0 <= b < |vs| && vs[b].who == q && vs[b].applied;
    VisitOfApplied(sha, t, init, a, k);
    VisitOfApplied(sha, t, init, b, k);
    i, j := if a < b then a else b, if a < b then b else a;
  }

  /** No lost update. When two such requests are both applied, then over every interleaving the one that
      came first left the file as it was, or a third apply put the common base back in between. */
  lemma {:induction false} NoLostUpdate(sha: Bytes -> string, s: System, run: seq<Move>, t: System, p: nat, q: nat,
                                        k: Key) returns (i: nat, j: nat)
    requires Starts(s) && After(sha, s, run) == Some(t) && CollisionFree(sha)
    requires p < |t.applies| && q < |t.applies| && p != q
    requires IsApplied(t.applies[p]) && IsApplied(t.applies[q]) && SameBase(t.applies[p], t.applies[q], k)
    ensures Pair(t.visits, i, j, p, q, k) && Expected(sha, t.applies[p].expected[k], t.visits[i].base[k])
    ensures t.visits[i].left[k] == t.visits[i].base[k] || ThirdPutBack(t, i, j, p, q, k, t.visits[i].base[k])
  {
    RunsStaySettled(sha, s, run);
    i, j := AppliedPair(sha, t, s.files, p, q, k);
    var vs := t.visits;
    if vs[i].left[k] != vs[i].base[k] {
      assert VisitSound(sha, t.applies, vs, j, s.files);
      SomeonePutItBack(sha, t, i, j, k, s.files);
      var m :| i < m < j && PutsBack(vs[m], k, vs[i].base[k]);
      assert vs[i].who != vs[m].who && vs[m].who != vs[j].who;
      assert VisitSound(sha, t.applies, vs, m, s.files);
    }
  }

  /** Two applies that create the same absent file are never both applied. */
  lemma {:induction false} NoDoubleCreate(sha: Bytes -> string, s: System, run: seq<Move>, t: System, p: nat, q: nat,
                                          k: Key)
    requires Starts(s) && After(sha, s, run) == Some(t) && CollisionFree(sha)
    requires p < |t.applies| && q < |t.applies| && p != q
    requires SameBase(t.applies[p], t.applies[q], k) && t.applies[p].expected[k] == None
    ensures !(IsApplied(t.applies[p]) && IsApplied(t.applies[q]))
  {
    if IsApplied(t.applies[p]) && IsApplied(t.applies[q]) {
      var _, _ := NoLostUpdate(sha, s, run, t, p, q, k);
    }
  }

  /** Without a third apply on the file, two applies from one base are both applied only if
      the first of them changed nothing. */
  lemma {:induction false} NoLostUpdateOfTwo(sha: Bytes -> string, s: System, run: seq<Move>, t: System, p: nat, q: nat,
                                             k: Key) returns (i: nat, j: nat)
    requires Starts(s) && After(sha, s, run) == Some(t) && CollisionFree(sha)
    requires p < |t.applies| && q < |t.applies| && p != q
    requires IsApplied(t.applies[p]) && IsApplied(t.applies[q]) && SameBase(t.applies[p], t.applies[q], k)
    requires forall r | 0 <= r < |t.applies| && r != p && r != q :: k !in Keys(t.applies[r])
    ensures Pair(t.visits, i, j, p, q, k) && t.visits[i].left[k] == t.visits[i].base[k]
  {
    i, j := NoLostUpdate(sha, s, run, t, p, q, k);
  }

  // ---------------------------------------------------------------- the exception is real

  lemma {:induction false} Extend(sha: Bytes -> string, s: System, run: seq<Move>, t: System, m: Move)
    requires After(sha, s, run) == Some(t) && m.who < |t.applies| && Enabled(sha, t, m.who, m.act)
    ensures After(sha, s, run + [m]) == Some(Step(sha, t, m.who, m.act))
  {
    assert (run + [m])[..|run|] == run;
  }

  lemma {:induction false} AfterAppend(sha: Bytes -> string, s: System, a: seq<Move>, t: System, b: seq<Move>)
    requires After(sha, s, a) == Some(t)
    ensures After(sha, s, a + b) == After(sha, t, b)
    decreases |b|
  {
    if b == [] {
      assert a + b == a;
    } else {
      AfterAppend(sha, s, a, t, b[..|b| - 1]);
      assert (a + b)[..|a + b| - 1] == a + b[..|b| - 1];
    }
  }

  function Prepare(p: nat, k: Key, c: Bytes): seq<Move> {
    [Move(p, Acquire)] + [Move(p, Enter)] + [Move(p, ReadFile(k))] + [Move(p, Compute(map[k := c]))]
  }

  function Leave(p: nat, k: Key): seq<Move> {
    [Move(p, RenameInto(k))] + [Move(p, Finish)] + [Move(p, Release)] + [Move(p, Return)]
  }

  /** One apply on one file, alone and without a fault. */
  function SoloRun(p: nat, k: Key, c: Bytes): seq<Move> {
    Prepare(p, k, c) + Leave(p, k)
  }

  function SoloEnd(s: System, p: nat, k: Key, c: Bytes): System
    requires p < |s.applies|
  {
    System(Goto(s, p, Returned(true)), s.owner, s.files[k := c],
           s.visits + [Visit(p, true, map[k := At(s.files, k)], map[k := Some(c)])])
  }

  /** The four steps from taking the lock to knowing the new bytes. */
  lemma {:induction false} SoloHalf(sha: Bytes -> string, s: System, p: nat, k: Key, c: Bytes) returns (t: System)
    requires p < |s.applies| && s.applies[p].keys == [k] && s.applies[p].phase == Acquiring(0) && k !in s.owner
    requires k in s.applies[p].expected && Expected(sha, s.applies[p].expected[k], At(s.files, k))
    ensures After(sha, s, Prepare(p, k, c)) == Some(t)
    ensures t == s.(applies := Goto(s, p, Working(false, map[k := At(s.files, k)], Some(map[k := c]), {})),
                    owner := s.owner[k := p])
  {
    assert k in [k];
    var one := Step(sha, s, p, Acquire);
    Extend(sha, s, [], s, Move(p, Acquire));
    assert [] + [Move(p, Acquire)] == [Move(p, Acquire)];
    var two := Step(sha, one, p, Enter);
    Extend(sha, s, [Move(p, Acquire)], one, Move(p, Enter));
    var three := Step(sha, two, p, ReadFile(k));
    Extend(sha, s, [Move(p, Acquire)] + [Move(p, Enter)], two, Move(p, ReadFile(k)));
    assert three.applies[p].phase.read.Keys == Keys(three.applies[p]);
    t := Step(sha, three, p, Compute(map[k := c]));
    Extend(sha, s, [Move(p, Acquire)] + [Move(p, Enter)] + [Move(p, ReadFile(k))], three,
           Move(p, Compute(map[k := c])));
    assert t.applies == Goto(s, p, Working(false, map[k := At(s.files, k)], Some(map[k := c]), {}));
  }

  /** The rename and the end of the work. */
  lemma {:induction false} SoloCommit(sha: Bytes -> string, s: System, p: nat, k: Key, c: Bytes, base: Content)
      returns (t: System)
    requires p < |s.applies| && s.applies[p].keys == [k]
    requires s.applies[p].phase == Working(false, map[k := base], Some(map[k := c]), {})
    ensures After(sha, s, [Move(p, RenameInto(k))] + [Move(p, Finish)]) == Some(t)
    ensures t == System(Goto(s, p, Releasing(1, true)), s.owner, s.files[k := c],
                        s.visits + [Visit(p, true, map[k := base], map[k := Some(c)])])
  {
    assert k in [k];
    var one := Step(sha, s, p, RenameInto(k));
    Extend(sha, s, [], s, Move(p, RenameInto(k)));
    assert [] + [Move(p, RenameInto(k))] == [Move(p, RenameInto(k))];
    assert one.applies[p].phase.done == Keys(one.applies[p]);
    t := Step(sha, one, p, Finish);
    Extend(sha, s, [Move(p, RenameInto(k))], one, Move(p, Finish));
    assert Left(one.files, one.applies[p].phase.read) == map[k := Some(c)];
    assert t.applies == Goto(s, p, Releasing(1, true));
  }

  /** The four steps from the rename to the return. */
  lemma {:induction false} SoloRest(sha: Bytes -> string, s: System, p: nat, k: Key, c: Bytes, base: Content)
      returns (t: System)
    requires p < |s.applies| && s.applies[p].keys == [k]
    requires s.applies[p].phase == Working(false, map[k := base], Some(map[k := c]), {})
    ensures After(sha, s, Leave(p, k)) == Some(t)
    ensures t == System(Goto(s, p, Returned(true)), s.owner - {k}, s.files[k := c],
                        s.visits + [Visit(p, true, map[k := base], map[k := Some(c)])])
  {
    var two := SoloCommit(sha, s, p, k, c, base);
    var three := Step(sha, two, p, Release);
    Extend(sha, s, [Move(p, RenameInto(k))] + [Move(p, Finish)], two, Move(p, Release));
    t := Step(sha, three, p, Return);
    Extend(sha, s, [Move(p, RenameInto(k))] + [Move(p, Finish)] + [Move(p, Release)], three, Move(p, Return));
    assert t.applies == Goto(s, p, Returned(true));
  }

  lemma {:induction false} Solo(sha: Bytes -> string, s: System, p: nat, k: Key, c: Bytes)
    requires p < |s.applies| && s.applies[p].keys == [k] && s.applies[p].phase == Acquiring(0) && k !in s.owner
    requires k in s.applies[p].expected && Expected(sha, s.applies[p].expected[k], At(s.files, k))
    ensures After(sha, s, SoloRun(p, k, c)) == Some(SoloEnd(s, p, k, c))
  {
    var half := SoloHalf(sha, s, p, k, c);
    var end := SoloRest(sha, half, p, k, c, At(s.files, k));
    AfterAppend(sha, s, Prepare(p, k, c), half, Leave(p, k));
    assert s.owner[k := p] - {k} == s.owner;
    assert Goto(half, p, Returned(true)) == Goto(s, p, Returned(true));
  }

  /** An apply that runs alone after `run`. */
  lemma {:induction false} ThenSolo(sha: Bytes -> string, s: System, run: seq<Move>, m: System, p: nat, k: Key,
                                    c: Bytes)
    requires After(sha, s, run) == Some(m)
    requires p < |m.applies| && m.applies[p].keys == [k] && m.applies[p].phase == Acquiring(0) && k !in m.owner
    requires k in m.applies[p].expected && Expected(sha, m.applies[p].expected[k], At(m.files, k))
    ensures After(sha, s, run + SoloRun(p, k, c)) == Some(SoloEnd(m, p, k, c))
  {
    Solo(sha, m, p, k, c);
    AfterAppend(sha, s, run, m, SoloRun(p, k, c));
  }

  /** The next of several applies on one file, prepared against what the file holds. */
  lemma {:induction false} NextSolo(sha: Bytes -> string, s: System, run: seq<Move>, m: System, p: nat, k: Key,
                                    base: Bytes, c: Bytes) returns (t: System)
    requires After(sha, s, run) == Some(m) && p < |m.applies| && m.owner == map[]
    requires m.applies[p] == Apply([k], map[k := Some(sha(base))], Acquiring(0)) && k in m.files && m.files[k] == base
    ensures t == SoloEnd(m, p, k, c) && After(sha, s, run + SoloRun(p, k, c)) == Some(t)
    ensures t.owner == map[] && k in t.files && t.files[k] == c && |t.applies| == |m.applies|
    ensures forall q | 0 <= q < |m.applies| && q != p :: t.applies[q] == m.applies[q]
  {
    t := SoloEnd(m, p, k, c);
    ThenSolo(sha, s, run, m, p, k, c);
  }

  /** A third apply that puts the base back really does let both others be applied, whatever
      the two write: from `b`, the first writes `c`, the third writes `b`, the second writes `d`. */
  lemma {:induction false} BaseCanComeBack(sha: Bytes -> string, k: Key, b: Bytes, c: Bytes, d: Bytes)
    returns (s: System, run: seq<Move>, t: System)
    requires b != c
    ensures Starts(s) && After(sha, s, run) == Some(t) && |t.applies| == 3
    ensures IsApplied(t.applies[0]) && IsApplied(t.applies[2]) && SameBase(t.applies[0], t.applies[2], k)
    ensures Pair(t.visits, 0, 2, 0, 2, k) && t.visits[0].left[k] != t.visits[0].base[k]
  {
    s := Trio(k, sha(b), sha(c), b);
    var s1 := NextSolo(sha, s, [], s, 0, k, b, c);
    run := [] + SoloRun(0, k, c);
    var s2 := NextSolo(sha, s, run, s1, 1, k, c, b);
    run := run + SoloRun(1, k, b);
    t := NextSolo(sha, s, run, s2, 2, k, b, d);
    run := run + SoloRun(2, k, d);
    TrioEnds(s, k, b, c, d, sha);
  }

  /** Three applies on one file: the first and the last prepared against `b`, the second against `c`. */
  function Trio(k: Key, shaB: string, shaC: string, b: Bytes): System {
    System([Apply([k], map[k := Some(shaB)], Acquiring(0)), Apply([k], map[k := Some(shaC)], Acquiring(0)),
            Apply([k], map[k := Some(shaB)], Acquiring(0))],
           map[], map[k := b], [])
  }

  lemma {:induction false} TrioEnds(s: System, k: Key, b: Bytes, c: Bytes, d: Bytes, sha: Bytes -> string)
    requires s == Trio(k, sha(b), sha(c), b) && b != c
    ensures var t := SoloEnd(SoloEnd(SoloEnd(s, 0, k, c), 1, k, b), 2, k, d);
            |t.applies| == 3 && IsApplied(t.applies[0]) && IsApplied(t.applies[2]) &&
            SameBase(t.applies[0], t.applies[2], k) &&
            Pair(t.visits, 0, 2, 0, 2, k) && t.visits[0].left[k] != t.visits[0].base[k]
  {
    assert k in [k];
  }
}
