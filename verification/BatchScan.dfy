/**
The batched scan over the enabled channels in controller/channel_upstream_update.go. The table may
change between two queries: `tables(k)` holds the ids of the enabled channels when query `k` is
made. A failed query or a cancelled context before a batch (`stop`) or between two channels
(`halt`) ends the scan early.
*/
module BatchScan {

  ghost predicate Ascending(s: seq<nat>) {
    forall i, j :: 0 <= i < j < |s| ==> s[i] < s[j]
  }

  /** The condition of the query: before the first batch there is none on the id. */
  predicate Eligible(table: set<nat>, lastID: nat, id: nat) {
    id in table && (lastID > 0 ==> id > lastID)
  }

  /** The first `n` eligible ids in ascending order. */
  ghost predicate IsBatch(batch: seq<nat>, table: set<nat>, lastID: nat, n: nat) {
    && Ascending(batch) && |batch| <= n
    && (forall id | id in batch :: Eligible(table, lastID, id))
    && (forall id | Eligible(table, lastID, id) && id !in batch :: |batch| == n && forall x | x in batch :: x < id)
  }

  method Least(s: set<nat>) returns (m: nat)
    requires s != {}
    ensures m in s && forall x | x in s :: m <= x
  {
    m :| m in s;
    var todo := s - {m};
    while todo != {}
      invariant todo <= s && m in s && forall x | x in s && x !in todo :: m <= x
      decreases todo
    {
      var x :| x in todo;
      if x < m { m := x; }
      todo := todo - {x};
    }
  }

  method FindBatch(table: set<nat>, lastID: nat, n: nat) returns (batch: seq<nat>)
    ensures IsBatch(batch, table, lastID, n)
  {
    batch := [];
    var rest := set id | id in table && Eligible(table, lastID, id);
    while |batch| < n && rest != {}
      invariant Ascending(batch) && |batch| <= n
      invariant forall id :: Eligible(table, lastID, id) <==> id in batch || id in rest
      invariant forall x, id | x in batch && id in rest :: x < id
      decreases rest
    {
      var id := Least(rest);
      AscendingAppend(batch, id);
      batch := batch + [id];
      rest := rest - {id};
    }
  }

  lemma AscendingAppend(s: seq<nat>, id: nat)
    requires Ascending(s) && forall x | x in s :: x < id
    ensures Ascending(s + [id])
  {
    assert forall i :: 0 <= i < |s| ==> s[i] in s;
  }

  /** An id that is enabled at every query. */
  ghost predicate Lasting(tables: nat -> set<nat>, id: nat) {
    forall k: nat :: id in tables(k)
  }

  ghost predicate Seen(tables: nat -> set<nat>, id: nat) {
    exists k: nat :: id in tables(k)
  }

  /** Every lasting id up to `lastID` has been visited, and nothing beyond it. */
  ghost predicate VisitedUpTo(visited: seq<nat>, tables: nat -> set<nat>, lastID: nat) {
    && Ascending(visited)
    && (forall id | id in visited :: Seen(tables, id) && id <= lastID)
    && (forall id: nat | Lasting(tables, id) && id <= lastID :: id in visited)
  }

  /** A whole batch extends the visited part up to its last id. */
  lemma BatchExtends(visited: seq<nat>, batch: seq<nat>, tables: nat -> set<nat>, k: nat, lastID: nat, n: nat)
    requires VisitedUpTo(visited, tables, lastID) && 0 !in tables(k) && batch != [] && IsBatch(batch, tables(k), lastID, n)
    ensures batch[|batch| - 1] > lastID
    ensures VisitedUpTo(visited + batch, tables, batch[|batch| - 1])
  {
    var last := batch[|batch| - 1];
    assert last in batch;
    AscendingJoin(visited, batch, lastID);
    forall id | Lasting(tables, id) && id <= last ensures id in visited + batch {
      assert id in tables(k);
    }
  }

  lemma AscendingJoin(s: seq<nat>, t: seq<nat>, m: nat)
    requires Ascending(s) && Ascending(t) && (forall x | x in s :: x <= m) && (forall x | x in t :: x > m)
    ensures Ascending(s + t)
    ensures t != [] ==> forall x | x in s + t :: x <= t[|t| - 1]
  {
    assert forall i :: 0 <= i < |s| ==> s[i] in s;
    assert forall i :: 0 <= i < |t| ==> t[i] in t;
  }

  /** A batch that is not full leaves no lasting id behind. */
  lemma ShortBatchCompletes(visited: seq<nat>, batch: seq<nat>, tables: nat -> set<nat>, k: nat, lastID: nat, n: nat, id: nat)
    requires VisitedUpTo(visited, tables, lastID) && IsBatch(batch, tables(k), lastID, n) && |batch| < n && Lasting(tables, id)
    ensures id in visited + batch
  {
    assert id in tables(k);
  }

  /** The channels of one batch, up to a cancellation. */
  method VisitBatch(visited: seq<nat>, batch: seq<nat>, halt: nat -> bool) returns (after: seq<nat>, halted: bool)
    ensures halted ==> halt(|after|) && exists i :: 0 <= i <= |batch| && after == visited + batch[..i]
    ensures !halted ==> after == visited + batch
  {
    after, halted := visited, false;
    for i := 0 to |batch|
      invariant after == visited + batch[..i]
    {
      if halt(|after|) {
        halted := true;
        return;
      }
      after := after + [batch[i]];
    }
  }

  /** However the table changes, the visited ids ascend, so none is visited twice; a scan that is
      not ended early has visited every id that was enabled throughout. It ends if the ids stay
      below some bound. */
  method Scan(tables: nat -> set<nat>, batchSize: nat, stop: nat -> bool, halt: nat -> bool, ghost bound: nat)
    returns (visited: seq<nat>, complete: bool)
    requires batchSize >= 1
    requires forall k: nat, id | id in tables(k) :: 0 < id <= bound
    ensures Ascending(visited) && forall id | id in visited :: Seen(tables, id)
    ensures complete ==> forall id | Lasting(tables, id) :: id in visited
    ensures (forall k :: !stop(k)) && (forall k :: !halt(k)) ==> complete
  {
    visited, complete := [], false;
    var lastID, k := 0, 0;
    assert 0 !in tables(0);
    while true
      invariant VisitedUpTo(visited, tables, lastID) && lastID <= bound
      decreases bound - lastID
    {
      if stop(k) { return; }
      var batch := FindBatch(tables(k), lastID, batchSize);
      if |batch| == 0 {
        forall id | Lasting(tables, id) ensures id in visited { ShortBatchCompletes(visited, batch, tables, k, lastID, batchSize, id); }
        complete := true;
        return;
      }
      BatchExtends(visited, batch, tables, k, lastID, batchSize);
      var after, halted := VisitBatch(visited, batch, halt);
      if halted {
        PartOfBatch(visited, batch, after, tables, batch[|batch| - 1]);
        visited := after;
        return;
      }
      if |batch| < batchSize {
        forall id | Lasting(tables, id) ensures id in after { ShortBatchCompletes(visited, batch, tables, k, lastID, batchSize, id); }
        visited, complete := after, true;
        return;
      }
      assert batch[|batch| - 1] in batch;
      visited, lastID, k := after, batch[|batch| - 1], k + 1;
    }
  }

  lemma PartOfBatch(visited: seq<nat>, batch: seq<nat>, after: seq<nat>, tables: nat -> set<nat>, last: nat)
    requires VisitedUpTo(visited + batch, tables, last) && exists i :: 0 <= i <= |batch| && after == visited + batch[..i]
    ensures Ascending(after) && forall id | id in after :: Seen(tables, id)
  {
    var i :| 0 <= i <= |batch| && after == visited + batch[..i];
    assert after == (visited + batch)[..|visited| + i];
  }

  /** On a table that stays as it is, the scan visits each enabled id exactly once, in order. */
  method ScanAll(table: set<nat>, batchSize: nat, ghost bound: nat) returns (visited: seq<nat>)
    requires batchSize >= 1 && forall id | id in table :: 0 < id <= bound
    ensures Ascending(visited) && forall id :: id in visited <==> id in table
  {
    var tables := (k: nat) => table;
    var complete;
    visited, complete := Scan(tables, batchSize, (k: nat) => false, (k: nat) => false, bound);
    forall id | id in table ensures Lasting(tables, id) {}
  }

  /** The visited list is determined: two ascending lists of the same ids are equal. */
  lemma {:induction false} VisitOrderUnique(s: seq<nat>, t: seq<nat>)
    requires Ascending(s) && Ascending(t) && forall id :: id in s <==> id in t
    ensures s == t
    decreases |s|
  {
    HasElement(s);
    HasElement(t);
    if s != [] && t != [] {
      LastIsGreatest(s);
      LastIsGreatest(t);
      var m, n := |s| - 1, |t| - 1;
      assert s[m] in t && t[n] in s;
      forall id ensures id in s[..m] <==> id in t[..n] {
        assert id in s <==> id in s[..m] || id == s[m];
        assert id in t <==> id in t[..n] || id == t[n];
      }
      VisitOrderUnique(s[..m], t[..n]);
      assert s == s[..m] + [s[m]] && t == t[..n] + [t[n]];
    }
  }

  lemma HasElement(s: seq<nat>)
    ensures s != [] ==> exists id :: id in s
  {
    if s != [] { assert s[0] in s; }
  }

  lemma LastIsGreatest(s: seq<nat>)
    requires Ascending(s) && s != []
    ensures forall id | id in s :: id <= s[|s| - 1]
    ensures s[|s| - 1] !in s[..|s| - 1]
  {}
}
