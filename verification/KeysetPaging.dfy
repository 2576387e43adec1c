/** Keyset paging: rows in (created_at, id) order, read a page at a time from the key of the
    last row seen, while other connections insert rows. */
module KeysetPaging {
  import opened Wrappers
  import opened Ordering
  import opened Stamps

  /** The columns that queries filter on. */
  datatype Columns = Columns(status: string, target: Option<string>, session: Option<string>,
                             investigation: Option<string>)

  datatype Entry = Entry(id: string, created: Instant, columns: Columns)

  type Key = (string, string)

  /** Rows are ordered by the stored text of their stamp, then by id. */
  function KeyOf(e: Entry): Key {
    (IsoFormat(e.created), e.id)
  }

  predicate EntryLeq(a: Entry, b: Entry) {
    PairLeq(KeyOf(a), KeyOf(b))
  }

  predicate KeyLess(a: Key, b: Key) {
    PairLeq(a, b) && a != b
  }

  /** Ordering by the stored text is ordering by time, oldest first, then by id. */
  lemma {:induction false} OldestFirst(a: Entry, b: Entry)
    ensures EntryLeq(a, b) <==> Before(a.created, b.created) || (a.created == b.created && StrLeq(a.id, b.id))
  {
    TextOrderIsTimeOrder(a.created, b.created);
    if IsoFormat(a.created) == IsoFormat(b.created) { IsoFormatInjective(a.created, b.created); }
    StrLessIrreflexive(IsoFormat(a.created));
  }

  lemma {:induction false} EntryLeqIsTotal()
    ensures TotalPreorder<Entry>(EntryLeq)
  {
    PairLeqIsTotalOrder();
  }

  /** Ids are a primary key. */
  ghost predicate UniqueIds(rows: seq<Entry>) {
    forall i, j | 0 <= i < j < |rows| :: rows[i].id != rows[j].id
  }

  ghost predicate Strict(s: seq<Entry>) {
    forall i, j | 0 <= i < j < |s| :: KeyLess(KeyOf(s[i]), KeyOf(s[j]))
  }

  predicate IsAbove(after: Option<Key>, k: Key) {
    after.Some? ==> KeyLess(after.value, k)
  }

  predicate Matches(keep: Entry -> bool, after: Option<Key>, e: Entry) {
    keep(e) && IsAbove(after, KeyOf(e))
  }

  /** The rows a WHERE clause keeps. */
  function Kept(rows: seq<Entry>, keep: Entry -> bool, after: Option<Key>): seq<Entry> {
    if rows == [] then []
    else Kept(rows[..|rows| - 1], keep, after) + if Matches(keep, after, rows[|rows| - 1]) then [rows[|rows| - 1]]
         else []
  }

  /** The whole ordered result, of which a page is a prefix. */
  function Query(rows: seq<Entry>, keep: Entry -> bool, after: Option<Key>): seq<Entry> {
    Sort(Kept(rows, keep, after), EntryLeq)
  }

  lemma {:induction false} KeptExact(rows: seq<Entry>, keep: Entry -> bool, after: Option<Key>)
    ensures forall e :: e in Kept(rows, keep, after) <==> e in rows && Matches(keep, after, e)
  {
    if rows != [] {
      KeptExact(rows[..|rows| - 1], keep, after);
      assert rows == rows[..|rows| - 1] + [rows[|rows| - 1]];
    }
  }

  lemma {:induction false} KeptUnique(rows: seq<Entry>, keep: Entry -> bool, after: Option<Key>)
    requires UniqueIds(rows)
    ensures UniqueIds(Kept(rows, keep, after))
  {
    if rows != [] {
      var init, last := rows[..|rows| - 1], rows[|rows| - 1];
      KeptUnique(init, keep, after);
      KeptExact(init, keep, after);
      forall i | 0 <= i < |Kept(init, keep, after)| ensures Kept(init, keep, after)[i].id != last.id {
        assert Kept(init, keep, after)[i] in Kept(init, keep, after);
      }
    }
  }

  lemma {:induction false} UniqueCounts(rows: seq<Entry>, e: Entry)
    requires UniqueIds(rows)
    ensures multiset(rows)[e] <= 1
  {
    if rows != [] {
      var init, last := rows[..|rows| - 1], rows[|rows| - 1];
      UniqueCounts(init, e);
      assert rows == init + [last];
      if e in init { assert exists i :: 0 <= i < |init| && init[i] == e; }
    }
  }

  lemma {:induction false} TwiceCounts(s: seq<Entry>, i: nat, j: nat)
    requires i < j < |s| && s[i] == s[j]
    ensures multiset(s)[s[i]] >= 2
  {
    assert s == s[..j] + [s[j]] + s[j + 1..];
    assert s[i] in s[..j];
  }

  /** A query returns exactly the matching rows, in strictly ascending key order. */
  lemma {:induction false} QueryExact(rows: seq<Entry>, keep: Entry -> bool, after: Option<Key>)
    requires UniqueIds(rows)
    ensures forall e :: e in Query(rows, keep, after) <==> e in rows && Matches(keep, after, e)
    ensures Strict(Query(rows, keep, after))
  {
    var kept, q := Kept(rows, keep, after), Query(rows, keep, after);
    KeptExact(rows, keep, after);
    KeptUnique(rows, keep, after);
    EntryLeqIsTotal();
    SortSorted(kept, EntryLeq);
    SameElements(q, kept);
    assert forall e :: e in q <==> e in kept;
    forall i, j | 0 <= i < j < |q| ensures KeyLess(KeyOf(q[i]), KeyOf(q[j])) {
      assert EntryLeq(q[i], q[j]);
      if KeyOf(q[i]) == KeyOf(q[j]) {
        SameRow(rows, q[i], q[j]);
        TwiceCounts(q, i, j);
        UniqueCounts(kept, q[i]);
      }
    }
  }

  lemma {:induction false} SameRow(rows: seq<Entry>, a: Entry, b: Entry)
    requires UniqueIds(rows) && a in rows && b in rows && a.id == b.id
    ensures a == b
  {}

  lemma {:induction false} KeyLessAsymmetric(a: Key, b: Key)
    requires KeyLess(a, b)
    ensures !KeyLess(b, a)
  {
    PairLeqIsTotalOrder();
  }

  /** Strictly ascending lists of the same rows are equal. */
  lemma {:induction false} StrictSame(a: seq<Entry>, b: seq<Entry>)
    requires Strict(a) && Strict(b) && forall e :: e in a <==> e in b
    ensures a == b
  {
    assert a != [] ==> a[0] in b;
    assert b != [] ==> b[0] in a;
    if a != [] && b != [] {
      var i :| 0 <= i < |b| && b[i] == a[0];
      var j :| 0 <= j < |a| && a[j] == b[0];
      if i > 0 && j > 0 { KeyLessAsymmetric(KeyOf(b[0]), KeyOf(b[i])); }
      assert a[0] == b[0];
      forall e ensures e in a[1..] <==> e in b[1..] {
        TailElements(a, e);
        TailElements(b, e);
      }
      StrictSame(a[1..], b[1..]);
    }
  }

  lemma {:induction false} TailElements(s: seq<Entry>, e: Entry)
    requires Strict(s) && s != []
    ensures e in s[1..] <==> e in s && e != s[0]
  {
    if e in s && e != s[0] {
      var i :| 0 <= i < |s| && s[i] == e;
      assert s[1..][i - 1] == e;
    }
    if e in s[1..] {
      var i :| 0 <= i < |s[1..]| && s[1..][i] == e;
      assert s[i + 1] == e && KeyLess(KeyOf(s[0]), KeyOf(s[i + 1]));
    }
  }

  // ---------------------------------------------------------------- following the pages

  ghost predicate HasId(rows: seq<Entry>, id: string) {
    exists i | 0 <= i < |rows| :: rows[i].id == id
  }

  ghost predicate HasKey(rows: seq<Entry>, k: Key) {
    exists e | e in rows :: KeyOf(e) == k
  }

  /** Every row of `rows` is still there under its key, whatever its columns say by now. */
  ghost predicate KeysKept(rows: seq<Entry>, later: seq<Entry>) {
    forall e | e in rows :: HasKey(later, KeyOf(e))
  }

  ghost predicate MatchesIn(rows: seq<Entry>, id: string, keep: Entry -> bool) {
    exists e | e in rows :: e.id == id && keep(e)
  }

  /** The row matched in every state the table went through. */
  ghost predicate Throughout(states: seq<seq<Entry>>, id: string, keep: Entry -> bool) {
    forall k | 0 <= k < |states| :: MatchesIn(states[k], id, keep)
  }

  ghost predicate SeenIn(states: seq<seq<Entry>>, e: Entry) {
    exists k | 0 <= k < |states| :: e in states[k]
  }

  /** Every listed row matched in some state and does not lie above the cursor. */
  ghost predicate Below(items: seq<Entry>, states: seq<seq<Entry>>, keep: Entry -> bool, after: Option<Key>) {
    forall e | e in items :: SeenIn(states, e) && keep(e) && !IsAbove(after, KeyOf(e))
  }

  /** Every row that matched throughout and does not lie above the cursor is listed. */
  ghost predicate Covered(items: seq<Entry>, states: seq<seq<Entry>>, keep: Entry -> bool, after: Option<Key>)
    requires states != []
  {
    forall e | e in states[|states| - 1] && keep(e) && Throughout(states, e.id, keep) && !IsAbove(after, KeyOf(e)) ::
        HasId(items, e.id)
  }

  /** What has been listed when the cursor stands at `after`, over the states the table went through: rows in
      order, none twice, each of them matching when it was read, and every row that matched
      throughout and does not lie above the cursor. */
  ghost predicate Listed(items: seq<Entry>, states: seq<seq<Entry>>, keep: Entry -> bool, after: Option<Key>) {
    && states != [] && Strict(items) && KeysKept(items, states[|states| - 1])
    && Below(items, states, keep, after)
    && Covered(items, states, keep, after)
    && after == if items == [] then None else Some(KeyOf(items[|items| - 1]))
  }

  /** In order, nothing twice, nothing that did not match when it was read, and everything that matched throughout. */
  ghost predicate Complete(items: seq<Entry>, states: seq<seq<Entry>>, keep: Entry -> bool) {
    && Strict(items)
    && (forall e | e in items :: SeenIn(states, e) && keep(e))
    && (forall id | Throughout(states, id, keep) :: HasId(items, id))
  }

  /** The list under way, or finished. */
  ghost predicate Going(items: seq<Entry>, states: seq<seq<Entry>>, keep: Entry -> bool, after: Option<Key>,
                        more: bool) {
    if more then Listed(items, states, keep, after) else Complete(items, states, keep)
  }

  /** Rows inserted, and columns updated, between two pages. */
  lemma {:induction false} ListedEvolves(items: seq<Entry>, states: seq<seq<Entry>>, later: seq<seq<Entry>>,
                                         keep: Entry -> bool, after: Option<Key>)
    requires Listed(items, states, keep, after) && states <= later && UniqueIds(later[|later| - 1])
    requires KeysKept(states[|states| - 1], later[|later| - 1])
    ensures Listed(items, later, keep, after)
  {
    var now, was := later[|later| - 1], states[|states| - 1];
    forall e | e in items ensures HasKey(now, KeyOf(e)) && SeenIn(later, e) {
      var f :| f in was && KeyOf(f) == KeyOf(e);
      assert HasKey(now, KeyOf(f));
      var k :| 0 <= k < |states| && e in states[k];
      assert later[k] == states[k];
    }
    forall e | e in now && keep(e) && Throughout(later, e.id, keep) && !IsAbove(after, KeyOf(e))
        ensures HasId(items, e.id) {
      MatchedBefore(states, later, e, keep);
    }
  }

  /** A row that has matched throughout had the same key in the earlier state. */
  lemma {:induction false} MatchedBefore(states: seq<seq<Entry>>, later: seq<seq<Entry>>, e: Entry, keep: Entry -> bool)
    requires states != [] && states <= later && UniqueIds(later[|later| - 1]) &&
             KeysKept(states[|states| - 1], later[|later| - 1])
    requires e in later[|later| - 1] && Throughout(later, e.id, keep)
    ensures Throughout(states, e.id, keep)
    ensures exists f | f in states[|states| - 1] :: f.id == e.id && keep(f) && KeyOf(f) == KeyOf(e)
  {
    forall k | 0 <= k < |states| ensures MatchesIn(states[k], e.id, keep) { assert later[k] == states[k]; }
    var was, now := states[|states| - 1], later[|later| - 1];
    assert MatchesIn(was, e.id, keep);
    var f :| f in was && f.id == e.id && keep(f);
    assert HasKey(now, KeyOf(f));
    var g :| g in now && KeyOf(g) == KeyOf(f);
    SameRow(now, g, e);
  }

  lemma {:induction false} NotAbove(after: Key, k: Key)
    ensures !IsAbove(Some(after), k) <==> PairLeq(k, after)
  {
    PairLeqIsTotalOrder();
  }

  lemma {:induction false} StrictAppend(a: seq<Entry>, b: seq<Entry>)
    requires Strict(a) && Strict(b) && forall i, j | 0 <= i < |a| && 0 <= j < |b| :: KeyLess(KeyOf(a[i]), KeyOf(b[j]))
    ensures Strict(a + b)
  {}

  /** `a <= b < c`, or `a < b <= c`, gives `a < c`. */
  lemma {:induction false} KeyBetween(a: Key, b: Key, c: Key)
    requires (PairLeq(a, b) && KeyLess(b, c)) || (KeyLess(a, b) && PairLeq(b, c))
    ensures KeyLess(a, c) && PairLeq(a, c)
  {
    PairLeqIsTotalOrder();
  }

  lemma {:induction false} PageBelowLast(q: seq<Entry>, n: nat, i: nat)
    requires Strict(q) && i < n <= |q|
    ensures PairLeq(KeyOf(q[i]), KeyOf(q[n - 1]))
  {
    PairLeqIsTotalOrder();
    if i < n - 1 { assert KeyLess(KeyOf(q[i]), KeyOf(q[n - 1])); }
  }

  /** The ordered result of a query, described instead of computed. */
  ghost predicate IsResult(q: seq<Entry>, rows: seq<Entry>, keep: Entry -> bool, after: Option<Key>) {
    Strict(q) && forall e :: e in q <==> e in rows && Matches(keep, after, e)
  }

  /** What was listed lies at or below the cursor, what a query returns lies above it. */
  lemma {:induction false} ListedBelowQuery(items: seq<Entry>, states: seq<seq<Entry>>, keep: Entry -> bool,
                                            after: Option<Key>, q: seq<Entry>, x: Entry, y: Entry)
    requires Listed(items, states, keep, after) && IsResult(q, states[|states| - 1], keep, after) && x in items &&
             y in q
    ensures KeyLess(KeyOf(x), KeyOf(y))
  {
    assert Matches(keep, after, y) && !IsAbove(after, KeyOf(x));
    NotAbove(after.value, KeyOf(x));
    KeyBetween(KeyOf(x), after.value, KeyOf(y));
  }

  lemma {:induction false} ListedBelow(items: seq<Entry>, states: seq<seq<Entry>>, keep: Entry -> bool,
                                       after: Option<Key>, q: seq<Entry>, n: nat, e: Entry)
    requires Listed(items, states, keep, after) && IsResult(q, states[|states| - 1], keep, after) && 0 < n <= |q| &&
             e in items + q[..n]
    ensures SeenIn(states, e) && HasKey(states[|states| - 1], KeyOf(e)) && keep(e) &&
            !IsAbove(Some(KeyOf(q[n - 1])), KeyOf(e))
  {
    NotAbove(KeyOf(q[n - 1]), KeyOf(e));
    if e in items {
      assert q[n - 1] in q;
      ListedBelowQuery(items, states, keep, after, q, e, q[n - 1]);
    } else {
      var i :| 0 <= i < n && q[i] == e;
      assert q[i] in q && Matches(keep, after, q[i]);
      PageBelowLast(q, n, i);
    }
  }

  lemma {:induction false} AboveRest(q: seq<Entry>, n: nat, i: nat)
    requires Strict(q) && 0 < n <= |q| && i < |q|
    ensures i >= n ==> KeyLess(KeyOf(q[n - 1]), KeyOf(q[i]))
  {}

  lemma {:induction false} InEither(a: seq<Entry>, b: seq<Entry>, id: string)
    ensures HasId(a, id) || HasId(b, id) ==> HasId(a + b, id)
  {
    if i :| 0 <= i < |a| && a[i].id == id { assert (a + b)[i].id == id; }
    if i :| 0 <= i < |b| && b[i].id == id { assert (a + b)[|a| + i].id == id; }
  }

  /** A row that matched throughout and lies at or below the page's end is listed. */
  lemma {:induction false} NothingSkipped(items: seq<Entry>, states: seq<seq<Entry>>, keep: Entry -> bool,
                                          after: Option<Key>, q: seq<Entry>, n: nat, e: Entry)
    requires Listed(items, states, keep, after) && IsResult(q, states[|states| - 1], keep, after) && 0 < n <= |q|
    requires e in states[|states| - 1] && keep(e) && Throughout(states, e.id, keep) &&
             !IsAbove(Some(KeyOf(q[n - 1])), KeyOf(e))
    ensures HasId(items + q[..n], e.id)
  {
    if IsAbove(after, KeyOf(e)) {
      assert Matches(keep, after, e) && e in q;
      var i :| 0 <= i < |q| && q[i] == e;
      AboveRest(q, n, i);
      assert q[..n][i] == e;
    }
    InEither(items, q[..n], e.id);
  }

  lemma {:induction false} StrictStep(items: seq<Entry>, states: seq<seq<Entry>>, keep: Entry -> bool,
                                      after: Option<Key>, q: seq<Entry>, n: nat)
    requires Listed(items, states, keep, after) && IsResult(q, states[|states| - 1], keep, after) && n <= |q|
    ensures Strict(items + q[..n])
  {
    forall i, j | 0 <= i < |items| && 0 <= j < n ensures KeyLess(KeyOf(items[i]), KeyOf(q[..n][j])) {
      assert q[..n][j] == q[j] && q[j] in q;
      ListedBelowQuery(items, states, keep, after, q, items[i], q[j]);
    }
    StrictAppend(items, q[..n]);
  }

  lemma {:induction false} AllBelow(items: seq<Entry>, states: seq<seq<Entry>>, keep: Entry -> bool, after: Option<Key>,
                                    q: seq<Entry>, n: nat)
    requires Listed(items, states, keep, after) && IsResult(q, states[|states| - 1], keep, after) && 0 < n <= |q|
    ensures KeysKept(items + q[..n], states[|states| - 1])
    ensures Below(items + q[..n], states, keep, Some(KeyOf(q[n - 1])))
  {
    forall e | e in items + q[..n]
      ensures SeenIn(states, e) && HasKey(states[|states| - 1], KeyOf(e)) && keep(e) &&
              !IsAbove(Some(KeyOf(q[n - 1])), KeyOf(e))
    {
      ListedBelow(items, states, keep, after, q, n, e);
    }
  }

  lemma {:induction false} LastOfPage(items: seq<Entry>, q: seq<Entry>, n: nat)
    requires 0 < n <= |q|
    ensures var longer := items + q[..n]; longer != [] && longer[|longer| - 1] == q[n - 1]
  {}

  lemma {:induction false} AllListed(items: seq<Entry>, states: seq<seq<Entry>>, keep: Entry -> bool,
                                     after: Option<Key>, q: seq<Entry>, n: nat)
    requires Listed(items, states, keep, after) && IsResult(q, states[|states| - 1], keep, after) && 0 < n <= |q|
    ensures Covered(items + q[..n], states, keep, Some(KeyOf(q[n - 1])))
  {
    forall e | e in states[|states| - 1] && keep(e) && Throughout(states, e.id, keep) &&
        !IsAbove(Some(KeyOf(q[n - 1])), KeyOf(e))
      ensures HasId(items + q[..n], e.id)
    {
      NothingSkipped(items, states, keep, after, q, n, e);
    }
  }

  /** A non-empty page extends the list up to its own last key. */
  lemma {:induction false} ListedStep(items: seq<Entry>, states: seq<seq<Entry>>, keep: Entry -> bool,
                                      after: Option<Key>, q: seq<Entry>, n: nat)
    requires Listed(items, states, keep, after) && IsResult(q, states[|states| - 1], keep, after) && 0 < n <= |q|
    ensures Listed(items + q[..n], states, keep, Some(KeyOf(q[n - 1])))
  {
    StrictStep(items, states, keep, after, q, n);
    AllBelow(items, states, keep, after, q, n);
    AllListed(items, states, keep, after, q, n);
    LastOfPage(items, q, n);
  }

  /** When the rest of the result fits one page the list is complete. */
  lemma {:induction false} ListedAll(items: seq<Entry>, states: seq<seq<Entry>>, keep: Entry -> bool,
                                     after: Option<Key>, q: seq<Entry>)
    requires Listed(items, states, keep, after) && IsResult(q, states[|states| - 1], keep, after)
    ensures Complete(items + q, states, keep)
  {
    var whole, now := items + q, states[|states| - 1];
    assert q[..|q|] == q;
    StrictStep(items, states, keep, after, q, |q|);
    forall e | e in whole ensures SeenIn(states, e) && keep(e) {
      assert e in q ==> Matches(keep, after, e) && e in now;
    }
    forall id | Throughout(states, id, keep) ensures HasId(whole, id) {
      assert MatchesIn(now, id, keep);
      var e :| e in now && e.id == id && keep(e);
      if IsAbove(after, KeyOf(e)) {
        assert Matches(keep, after, e) && e in q;
        var i :| 0 <= i < |q| && q[i] == e;
        assert q[i].id == id;
      }
      InEither(items, q, id);
    }
  }

  /** While nobody else writes the pages together are the query itself. */
  lemma {:induction false} CompleteIsQuery(items: seq<Entry>, rows: seq<Entry>, keep: Entry -> bool, q: seq<Entry>)
    requires UniqueIds(rows) && Complete(items, [rows], keep) && IsResult(q, rows, keep, None)
    ensures items == q
  {
    forall e ensures e in items <==> e in q {
      assert Matches(keep, None, e) <==> keep(e);
      if e in q { ListedAsRead(items, rows, keep, e); }
      if e in items {
        assert SeenIn([rows], e);
        assert e in rows;
      }
    }
    StrictSame(items, q);
  }

  lemma {:induction false} ListedAsRead(items: seq<Entry>, rows: seq<Entry>, keep: Entry -> bool, e: Entry)
    requires UniqueIds(rows) && Complete(items, [rows], keep) && e in rows && keep(e)
    ensures e in items
  {
    assert MatchesIn(rows, e.id, keep);
    assert Throughout([rows], e.id, keep);
    var i :| 0 <= i < |items| && items[i].id == e.id;
    assert items[i] in items && SeenIn([rows], items[i]);
    SameRow(rows, items[i], e);
  }

  lemma {:induction false} AloneIsQuery(items: seq<Entry>, states: seq<seq<Entry>>, from: nat, keep: Entry -> bool)
    requires |states| == from + 1 && UniqueIds(states[from]) && Complete(items, states[from..], keep)
    ensures items == Query(states[from], keep, None)
  {
    assert states[from..] == [states[from]];
    QueryExact(states[from], keep, None);
    CompleteIsQuery(items, states[from], keep, Query(states[from], keep, None));
  }

  /** The result after the last row of a page is what the page left over. */
  lemma {:induction false} ResultRest(rows: seq<Entry>, keep: Entry -> bool, after: Option<Key>, q: seq<Entry>, n: nat,
                                      rest: seq<Entry>)
    requires IsResult(q, rows, keep, after) && 0 < n <= |q| && IsResult(rest, rows, keep, Some(KeyOf(q[n - 1])))
    ensures rest == q[n..]
  {
    forall e ensures e in rest <==> e in q[n..] {
      AfterLast(rows, keep, after, q, n, e);
    }
    StrictSame(rest, q[n..]);
  }

  lemma {:induction false} AfterLast(rows: seq<Entry>, keep: Entry -> bool, after: Option<Key>, q: seq<Entry>, n: nat,
                                     e: Entry)
    requires IsResult(q, rows, keep, after) && 0 < n <= |q|
    ensures e in q[n..] <==> e in rows && Matches(keep, Some(KeyOf(q[n - 1])), e)
  {
    var last := KeyOf(q[n - 1]);
    assert q[n - 1] in q && Matches(keep, after, q[n - 1]);
    if e in q[n..] {
      var i :| n <= i < |q| && q[i] == e;
      assert q[i] in q && Matches(keep, after, q[i]);
      AboveRest(q, n, i);
    }
    if e in rows && Matches(keep, Some(last), e) {
      if after.Some? { KeyBetween(after.value, last, KeyOf(e)); }
      assert Matches(keep, after, e) && e in q;
      var i :| 0 <= i < |q| && q[i] == e;
      NotAbove(last, KeyOf(e));
      if i < n { PageBelowLast(q, n, i); }
      assert q[n..][i - n] == e;
    }
  }

  /** One non-empty page: the list grows and what is left shrinks. */
  lemma {:induction false} Advance(items: seq<Entry>, states: seq<seq<Entry>>, keep: Entry -> bool, after: Option<Key>,
                                   q: seq<Entry>, n: nat)
    requires Listed(items, states, keep, after) && UniqueIds(states[|states| - 1]) &&
             IsResult(q, states[|states| - 1], keep, after) && 0 < n <= |q|
    ensures Listed(items + q[..n], states, keep, Some(KeyOf(q[n - 1])))
    ensures |Query(states[|states| - 1], keep, Some(KeyOf(q[n - 1])))| == |q| - n
  {
    var rows := states[|states| - 1];
    ListedStep(items, states, keep, after, q, n);
    QueryExact(rows, keep, Some(KeyOf(q[n - 1])));
    ResultRest(rows, keep, after, q, n, Query(rows, keep, Some(KeyOf(q[n - 1]))));
  }

  // ---------------------------------------------------------------- the stores

  datatype PageError = BadLimit | NoSuchMessage

  const LIST_PAGE_SIZE := 1000

  class Table {
    var rows: seq<Entry>
    /** Every state the table has been in, the present one last. */
    ghost var states: seq<seq<Entry>>

    ghost predicate Valid()
      reads this
    {
      UniqueIds(rows) && states != [] && states[|states| - 1] == rows
    }

    constructor ()
      ensures Valid() && rows == []
    {
      rows, states := [], [[]];
    }

    /** Another connection inserts a row. */
    method Insert(e: Entry)
      requires Valid()
      modifies this
      ensures Valid() && old(states) <= states && KeysKept(old(rows), rows)
    {
      if forall i :: 0 <= i < |rows| ==> rows[i].id != e.id {
        ghost var before := rows;
        rows := rows + [e];
        states := states + [rows];
        assert forall x | x in before :: x in rows && KeyOf(x) == KeyOf(x);
      }
    }

    /** Another connection updates columns of a row: a decision, a binding to a run. */
    method Update(i: nat, columns: Columns)
      requires Valid()
      modifies this
      ensures Valid() && old(states) <= states && KeysKept(old(rows), rows)
    {
      if i < |rows| {
        ghost var before := rows;
        rows := rows[i := rows[i].(columns := columns)];
        states := states + [rows];
        forall e | e in before ensures HasKey(rows, KeyOf(e)) {
          var k :| 0 <= k < |before| && before[k] == e;
          assert rows[k] in rows && KeyOf(rows[k]) == KeyOf(e);
        }
      }
    }

    /** Any number of inserts and updates by other connections. */
    method Others()
      requires Valid()
      modifies this
      ensures Valid() && old(states) <= states && KeysKept(old(rows), rows)
    {
      var n: nat := *;
      ghost var first := rows;
      assert forall x | x in first :: x in rows && KeyOf(x) == KeyOf(x);
      while n > 0
        invariant Valid() && old(states) <= states && KeysKept(first, rows)
      {
        var e: Entry, i: nat, columns: Columns := *, *, *;
        ghost var before := rows;
        if * { Insert(e); } else { Update(i, columns); }
        KeysKeptTransitively(first, before, rows);
        n := n - 1;
      }
    }

    /** `SELECT ... WHERE ... ORDER BY created_at, id`. */
    method Select(keep: Entry -> bool, after: Option<Key>) returns (q: seq<Entry>)
      requires Valid()
      ensures q == Query(rows, keep, after) && IsResult(q, rows, keep, after)
    {
      var found: seq<Entry> := [];
      for i := 0 to |rows|
        invariant found == Kept(rows[..i], keep, after)
      {
        assert rows[..i + 1][..i] == rows[..i];
        if Matches(keep, after, rows[i]) { found := found + [rows[i]]; }
      }
      assert rows[..|rows|] == rows;
      q := Sort(found, EntryLeq);
      QueryExact(rows, keep, after);
    }

    /** `list_page`: at most `limit` rows, and whether there are more. */
    method ListPage(keep: Entry -> bool, after: Option<Key>, limit: nat)
        returns (page: seq<Entry>, hasMore: bool, ghost q: seq<Entry>)
      requires Valid() && limit > 0
      ensures q == Query(rows, keep, after) && IsResult(q, rows, keep, after)
      ensures hasMore <==> |Query(rows, keep, after)| > limit
      ensures page == FirstOf(Query(rows, keep, after), limit)
      ensures IsPage(page, rows, keep, after, limit)
      ensures hasMore <==> exists e | e in rows :: Matches(keep, after, e) && e !in page
    {
      var found := Select(keep, after);
      q := found;
      hasMore := |found| > limit;
      page := FirstOf(found, limit);
      FirstIsPage(q, rows, keep, after, limit);
    }

    /** The page as the list takes it. */
    method PageOf(keep: Entry -> bool, after: Option<Key>, limit: nat)
        returns (page: seq<Entry>, hasMore: bool, ghost q: seq<Entry>)
      requires Valid() && limit > 0
      ensures q == Query(rows, keep, after) && IsResult(q, rows, keep, after)
      ensures hasMore <==> |Query(rows, keep, after)| > limit
      ensures page == FirstOf(Query(rows, keep, after), limit)
    {
      page, hasMore, q := ListPage(keep, after, limit);
    }

    /** How many rows are still to be listed. */
    ghost function Left(keep: Entry -> bool, after: Option<Key>): nat
      reads this
    {
      |Query(rows, keep, after)|
    }

    /** One turn of the loop. */
    method NextPage(items: seq<Entry>, keep: Entry -> bool, after: Option<Key>, limit: nat,
                    ghost since: seq<seq<Entry>>)
      returns (longer: seq<Entry>, next: Option<Key>, more: bool)
      requires Valid() && since != [] && since[|since| - 1] == rows && Listed(items, since, keep, after) && limit > 0
      ensures more ==> Listed(longer, since, keep, next) && Left(keep, next) < Left(keep, after)
      ensures !more ==> Complete(longer, since, keep)
    {
      var page, hasMore, q := PageOf(keep, after, limit);
      more := hasMore && page != [];
      longer := items + page;
      next := if more then Some(KeyOf(page[|page| - 1])) else after;
      PageTaken(items, since, keep, after, q, limit);
    }

    /** Others write while a list is under way. */
    method Interlude(ghost items: seq<Entry>, ghost keep: Entry -> bool, ghost after: Option<Key>, ghost from: nat)
      requires Valid() && from < |states| && Listed(items, states[from..], keep, after)
      modifies this
      ensures Valid() && old(states) <= states && Listed(items, states[from..], keep, after)
    {
      ghost var earlier, before := states, rows;
      Others();
      ListedSince(items, earlier, states, from, before, rows, keep, after);
    }

    /** One turn of the loop, and what others write before the next one. */
    method Turn(items: seq<Entry>, keep: Entry -> bool, after: Option<Key>, ghost from: nat, turns: nat)
      returns (longer: seq<Entry>, next: Option<Key>, more: bool, rest: nat)
      requires Valid() && from < |states| && Going(items, states[from..], keep, after, true)
      modifies this
      ensures Valid() && old(states) <= states && Going(longer, states[from..], keep, next, more)
      ensures more ==> rest < turns || (rest == turns && Left(keep, next) < old(Left(keep, after)))
    {
      longer, next, more := NextPage(items, keep, after, LIST_PAGE_SIZE, states[from..]);
      rest := turns;
      if more && turns > 0 {
        rest := turns - 1;
        Interlude(longer, keep, next, from);
      }
    }

    /** `list`: page after page from the key of the last row, while others insert and update rows. */
    method List(keep: Entry -> bool) returns (items: seq<Entry>)
      requires Valid()
      modifies this
      ensures Valid() && old(states) <= states && Complete(items, states[|old(states)| - 1..], keep)
      ensures states == old(states) ==> items == Query(rows, keep, None)
    {
      items := [];
      var after: Option<Key>, turns: nat, more := None, *, true;
      ghost var from := |states| - 1;
      NothingListed(rows, keep);
      assert states[from..] == [rows];
      while more
        invariant Valid() && old(states) <= states && from < |states|
        invariant Going(items, states[from..], keep, after, more)
        decreases more, turns, Left(keep, after)
      {
        items, after, more, turns := Turn(items, keep, after, from, turns);
      }
      if states == old(states) { AloneIsQuery(items, states, from, keep); }
    }

    /** `list_messages`: the messages of one session after a given one, which need not belong to it. */
    method ListMessages(session: string, afterId: Option<string>, limit: nat) returns (r: Result<seq<Entry>, PageError>)
      requires Valid()
      ensures !(1 <= limit <= 500) ==> r == Err(BadLimit)
      ensures 1 <= limit <= 500 && afterId.Some? && FindKey(rows, afterId.value).None? ==> r == Err(NoSuchMessage)
      ensures r == Err(NoSuchMessage) <==> 1 <= limit <= 500 && afterId.Some? && !HasId(rows, afterId.value)
      ensures r.Ok? ==> forall e | e in r.value :: e.columns.session == Some(session)
      ensures r.Ok? ==> IsPage(r.value, rows, InSession(session),
                               if afterId.Some? then FindKey(rows, afterId.value) else None, limit)
      ensures 1 <= limit <= 500 && (afterId.Some? ==> FindKey(rows, afterId.value).Some?) ==>
                r == Ok(FirstOf(Query(rows, InSession(session), if afterId.Some? then FindKey(rows, afterId.value)
                                      else None), limit))
    {
      if !(1 <= limit <= 500) { return Err(BadLimit); }
      var from: Option<Key> := None;
      if afterId.Some? {
        FindKeyExact(rows, afterId.value);
        from := FindKey(rows, afterId.value);
        if from.None? { return Err(NoSuchMessage); }
      }
      var q := Select(InSession(session), from);
      r := Ok(FirstOf(q, limit));
      FirstIsPage(q, rows, InSession(session), from, limit);
    }

    /** A client that follows `after_message_id` until a page comes back empty. */
    method FollowMessages(session: string, limit: nat) returns (items: seq<Entry>)
      requires Valid() && 1 <= limit <= 500
      modifies this
      ensures Valid() && old(states) <= states && Complete(items, states[|old(states)| - 1..], InSession(session))
      ensures states == old(states) ==> items == Query(rows, InSession(session), None)
    {
      items := [];
      var turns: nat, more := *, true;
      ghost var from, after: Option<Key>, keep := |states| - 1, None, InSession(session);
      NothingListed(rows, keep);
      assert states[from..] == [rows];
      while more
        invariant Valid() && old(states) <= states && from < |states|
        invariant Going(items, states[from..], keep, after, more)
        decreases more, turns, Left(keep, after)
      {
        items, after, more, turns := FollowTurn(session, limit, items, keep, after, from, turns);
      }
      if states == old(states) { AloneIsQuery(items, states, from, keep); }
    }

    /** One request of such a client, and what others write before the next one. */
    method FollowTurn(session: string, limit: nat, items: seq<Entry>, ghost keep: Entry -> bool,
                      ghost after: Option<Key>,
                      ghost from: nat, turns: nat)
      returns (longer: seq<Entry>, ghost next: Option<Key>, more: bool, rest: nat)
      requires Valid() && 1 <= limit <= 500 && keep == InSession(session)
      requires from < |states| && Going(items, states[from..], keep, after, true)
      modifies this
      ensures Valid() && old(states) <= states && Going(longer, states[from..], keep, next, more)
      ensures more ==> rest < turns || (rest == turns && Left(keep, next) < old(Left(keep, after)))
    {
      longer, next, more := FollowOne(session, limit, items, keep, after, states[from..]);
      rest := turns;
      if more && turns > 0 {
        rest := turns - 1;
        Interlude(longer, keep, next, from);
      }
    }

    /** One request of such a client: its cursor is the id of the last message it has. */
    method FollowOne(session: string, limit: nat, items: seq<Entry>, ghost keep: Entry -> bool,
                     ghost after: Option<Key>, ghost since: seq<seq<Entry>>)
      returns (longer: seq<Entry>, ghost next: Option<Key>, more: bool)
      requires Valid() && 1 <= limit <= 500 && keep == InSession(session)
      requires since != [] && since[|since| - 1] == rows && Listed(items, since, keep, after)
      ensures more ==> Listed(longer, since, keep, next) && Left(keep, next) < Left(keep, after)
      ensures !more ==> Complete(longer, since, keep)
    {
      var page: seq<Entry>;
      ghost var q: seq<Entry>;
      page, q := PageAfter(session, limit, items, keep, after, since);
      FirstIsPrefix(q, limit);
      more := page != [];
      longer := items + page;
      next := if more then Some(KeyOf(page[|page| - 1])) else after;
      if more {
        Advance(items, since, keep, after, q, |page|);
      } else {
        ListedAll(items, since, keep, after, q);
      }
    }

    method PageAfter(session: string, limit: nat, items: seq<Entry>, ghost keep: Entry -> bool,
                     ghost after: Option<Key>, ghost since: seq<seq<Entry>>)
      returns (page: seq<Entry>, ghost q: seq<Entry>)
      requires Valid() && 1 <= limit <= 500 && keep == InSession(session)
      requires since != [] && since[|since| - 1] == rows && Listed(items, since, keep, after)
      ensures q == Query(rows, keep, after) && IsResult(q, rows, keep, after)
      ensures page == FirstOf(Query(rows, keep, after), limit)
    {
      LastIsStored(items, since, keep, after);
      q := Query(rows, keep, after);
      QueryExact(rows, keep, after);
      var r := ListMessages(session, if items == [] then None else Some(items[|items| - 1].id), limit);
      page := if r.Ok? then r.value else [];
    }
  }

  lemma {:induction false} KeysKeptTransitively(a: seq<Entry>, b: seq<Entry>, c: seq<Entry>)
    requires KeysKept(a, b) && KeysKept(b, c)
    ensures KeysKept(a, c)
  {
    forall e | e in a ensures HasKey(c, KeyOf(e)) {
      assert HasKey(b, KeyOf(e));
      var f :| f in b && KeyOf(f) == KeyOf(e);
      assert HasKey(c, KeyOf(f));
    }
  }

  lemma {:induction false} SinceGrown(states: seq<seq<Entry>>, later: seq<seq<Entry>>, from: nat)
    requires states <= later && from < |states|
    ensures states[from..] <= later[from..] && states[from..] != []
    ensures states[from..][|states[from..]| - 1] == states[|states| - 1]
    ensures later[from..][|later[from..]| - 1] == later[|later| - 1]
  {}

  lemma {:induction false} ListedSince(items: seq<Entry>, states: seq<seq<Entry>>, later: seq<seq<Entry>>, from: nat,
                                       before: seq<Entry>, now: seq<Entry>, keep: Entry -> bool, after: Option<Key>)
    requires states <= later && from < |states| && Listed(items, states[from..], keep, after)
    requires states[|states| - 1] == before && later[|later| - 1] == now && UniqueIds(now) && KeysKept(before, now)
    ensures Listed(items, later[from..], keep, after)
  {
    SinceGrown(states, later, from);
    ListedEvolves(items, states[from..], later[from..], keep, after);
  }

  /** A full page with more behind it extends the list; any other page ends it. */
  lemma {:induction false} PageTaken(items: seq<Entry>, states: seq<seq<Entry>>, keep: Entry -> bool,
                                     after: Option<Key>, q: seq<Entry>, limit: nat)
    requires Listed(items, states, keep, after) && UniqueIds(states[|states| - 1]) && limit > 0
    requires q == Query(states[|states| - 1], keep, after) && IsResult(q, states[|states| - 1], keep, after)
    ensures |q| > limit ==>
              && FirstOf(q, limit) != []
              && Listed(items + FirstOf(q, limit), states, keep, Some(KeyOf(q[limit - 1])))
              && |Query(states[|states| - 1], keep, Some(KeyOf(q[limit - 1])))| < |Query(states[|states| - 1], keep,
                      after)|
    ensures |q| <= limit ==> Complete(items + FirstOf(q, limit), states, keep)
  {
    if |q| > limit {
      Advance(items, states, keep, after, q, limit);
    } else {
      ListedAll(items, states, keep, after, q);
    }
  }

  lemma {:induction false} NothingListed(rows: seq<Entry>, keep: Entry -> bool)
    ensures Listed([], [rows], keep, None)
  {}

  /** The cursor names a stored row, and only that row has its id. */
  lemma {:induction false} LastIsStored(items: seq<Entry>, states: seq<seq<Entry>>, keep: Entry -> bool,
                                        after: Option<Key>)
    requires Listed(items, states, keep, after) && UniqueIds(states[|states| - 1])
    ensures after == if items == [] then None else FindKey(states[|states| - 1], items[|items| - 1].id)
  {
    if items != [] {
      var last, rows := items[|items| - 1], states[|states| - 1];
      assert last in items && HasKey(rows, KeyOf(last));
      var e :| e in rows && KeyOf(e) == KeyOf(last);
      FindKeyOf(rows, e);
    }
  }

  /** The key of the row with this id. */
  function FindKey(rows: seq<Entry>, id: string): Option<Key> {
    if rows == [] then None
    else if rows[|rows| - 1].id == id then Some(KeyOf(rows[|rows| - 1]))
    else FindKey(rows[..|rows| - 1], id)
  }

  lemma {:induction false} FindKeyOf(rows: seq<Entry>, e: Entry)
    requires UniqueIds(rows) && e in rows
    ensures FindKey(rows, e.id) == Some(KeyOf(e))
  {
    var init, last := rows[..|rows| - 1], rows[|rows| - 1];
    assert rows == init + [last];
    if last.id == e.id { SameRow(rows, e, last); } else { FindKeyOf(init, e); }
  }

  lemma {:induction false} FirstIsPrefix(q: seq<Entry>, limit: nat)
    ensures var page := FirstOf(q, limit); |page| <= |q| && page == q[..|page|] && (limit > 0 && page == [] ==> q == [])
  {}

  function FirstOf(q: seq<Entry>, limit: nat): seq<Entry> {
    if |q| > limit then q[..limit] else q
  }

  /** A page of at most `limit` rows: matching rows in order, and no matching row is left out unless the page is full
      and the row comes after all of it. */
  ghost predicate IsPage(page: seq<Entry>, rows: seq<Entry>, keep: Entry -> bool, after: Option<Key>, limit: nat) {
    && |page| <= limit && Strict(page)
    && (forall e | e in page :: e in rows && Matches(keep, after, e))
    && forall e | e in rows && Matches(keep, after, e) && e !in page ::
         |page| == limit && forall f | f in page :: KeyLess(KeyOf(f), KeyOf(e))
  }

  lemma {:induction false} LeftOut(q: seq<Entry>, limit: nat, i: nat)
    requires Strict(q) && |FirstOf(q, limit)| <= i < |q|
    ensures |FirstOf(q, limit)| == limit && forall f | f in FirstOf(q, limit) :: KeyLess(KeyOf(f), KeyOf(q[i]))
  {
    var page := FirstOf(q, limit);
    forall f | f in page ensures KeyLess(KeyOf(f), KeyOf(q[i])) {
      var j :| 0 <= j < |page| && page[j] == f;
      assert q[j] == f;
    }
  }

  lemma {:induction false} FirstIsPage(q: seq<Entry>, rows: seq<Entry>, keep: Entry -> bool, after: Option<Key>,
                                       limit: nat)
    requires IsResult(q, rows, keep, after)
    ensures IsPage(FirstOf(q, limit), rows, keep, after, limit)
    ensures |q| > limit <==> exists e | e in rows :: Matches(keep, after, e) && e !in FirstOf(q, limit)
  {
    var page := FirstOf(q, limit);
    assert forall e | e in page :: e in q;
    forall e | e in q
      ensures e in page || (|page| == limit && |q| > limit && forall f | f in page :: KeyLess(KeyOf(f), KeyOf(e)))
    {
      var i :| 0 <= i < |q| && q[i] == e;
      if i < |page| { assert page[i] == e; } else { LeftOut(q, limit, i); }
    }
    if |q| > limit {
      assert q[limit] in q && forall j | 0 <= j < limit :: KeyLess(KeyOf(q[j]), KeyOf(q[limit]));
    }
  }

  lemma {:induction false} FindKeyHits(rows: seq<Entry>, i: nat)
    requires i < |rows|
    ensures FindKey(rows, rows[i].id).Some?
  {
    var n := |rows| - 1;
    if rows[n].id != rows[i].id { FindKeyHits(rows[..n], i); }
  }

  lemma {:induction false} FindKeySound(rows: seq<Entry>, id: string) returns (i: nat)
    requires FindKey(rows, id).Some?
    ensures i < |rows| && rows[i].id == id && FindKey(rows, id) == Some(KeyOf(rows[i]))
  {
    i := |rows| - 1;
    if rows[i].id != id { i := FindKeySound(rows[..i], id); }
  }

  /** A key is found exactly for the id of some row, and is the key of such a row. */
  lemma {:induction false} FindKeyExact(rows: seq<Entry>, id: string)
    ensures FindKey(rows, id).Some? <==> HasId(rows, id)
    ensures FindKey(rows, id).Some? ==> exists i | 0 <= i < |rows| ::
              rows[i].id == id && FindKey(rows, id) == Some(KeyOf(rows[i]))
  {
    if i :| 0 <= i < |rows| && rows[i].id == id { FindKeyHits(rows, i); }
    if FindKey(rows, id).Some? { var _ := FindKeySound(rows, id); }
  }

  function InSession(session: string): Entry -> bool {
    (e: Entry) => e.columns.session == Some(session)
  }
}
