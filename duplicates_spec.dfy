/** The meaning of DELETE /api/transactions/duplicates
    (new/backend/app/main.py): among the caller's rows, in table order,
    every row whose (date, amount, description, category) was already seen
    is deleted; the first row of each key stays. */
module Duplicates {
  import opened Common
  import opened Models
  import opened StoreSpec

  /** The duplicate key `(t.date, t.amount, t.description, t.category)`. */
  datatype DupKey = DupKey(date: Date, amount: int, description: Option<string>, category: Option<string>)

  function KeyOf(t: Transaction): DupKey {
    DupKey(t.date, t.amount, t.description, t.category)
  }

  /** Row `i` belongs to the caller and an earlier row of the caller has
      the same key. */
  ghost predicate IsLaterDuplicate(rows: seq<Transaction>, userId: int, i: int)
    requires 0 <= i < |rows|
  {
    rows[i].userId == Some(userId) &&
    exists j :: 0 <= j < i && rows[j].userId == Some(userId) && KeyOf(rows[j]) == KeyOf(rows[i])
  }

  /** The keys of the rows the handler deletes. */
  ghost function DuplicateIds(rows: seq<Transaction>, userId: int): set<int> {
    DuplicateIdsUpTo(rows, userId, |rows|)
  }

  /** The keys of the later duplicates among the first `n` rows. */
  ghost function DuplicateIdsUpTo(rows: seq<Transaction>, userId: int, n: nat): set<int>
    requires n <= |rows|
  {
    set i | 0 <= i < n && IsLaterDuplicate(rows, userId, i) :: Id(rows[i])
  }

  /** The duplicate keys of the caller's rows among the first `n` rows: the
      handler's `seen` set. */
  ghost function SeenKeys(rows: seq<Transaction>, userId: int, n: nat): set<DupKey>
    requires n <= |rows|
  {
    set i | 0 <= i < n && rows[i].userId == Some(userId) :: KeyOf(rows[i])
  }

  /** One step of the collecting loop: row `n` is a later duplicate exactly
      when it is the caller's and its key was seen. */
  lemma CollectStep(rows: seq<Transaction>, userId: int, n: nat)
    requires n < |rows|
    ensures rows[n].userId == Some(userId) ==>
      (KeyOf(rows[n]) in SeenKeys(rows, userId, n) <==> IsLaterDuplicate(rows, userId, n))
    ensures SeenKeys(rows, userId, n + 1) ==
      SeenKeys(rows, userId, n) + (if rows[n].userId == Some(userId) then {KeyOf(rows[n])} else {})
    ensures DuplicateIdsUpTo(rows, userId, n + 1) ==
      DuplicateIdsUpTo(rows, userId, n) + (if IsLaterDuplicate(rows, userId, n) then {Id(rows[n])} else {})
  {
    if rows[n].userId == Some(userId) && KeyOf(rows[n]) in SeenKeys(rows, userId, n) {
      var j :| 0 <= j < n && rows[j].userId == Some(userId) && KeyOf(rows[j]) == KeyOf(rows[n]);
    }
  }

  /** The rows whose keys are not in `ids`, in table order. */
  function WithoutIds(rows: seq<Transaction>, ids: set<int>): (r: seq<Transaction>)
    ensures |r| <= |rows|
  {
    if rows == [] then []
    else WithoutIds(rows[..|rows| - 1], ids) + (if Id(rows[|rows| - 1]) in ids then [] else [rows[|rows| - 1]])
  }

  /** The rows `WithoutIds` keeps are those whose key is not in `ids`. */
  lemma {:induction false} WithoutIdsMembers(rows: seq<Transaction>, ids: set<int>, t: Transaction)
    ensures t in WithoutIds(rows, ids) <==> t in rows && Id(t) !in ids
  {
    if rows != [] {
      var n := |rows| - 1;
      assert rows == rows[..n] + [rows[n]];
      WithoutIdsMembers(rows[..n], ids, t);
    }
  }

  /** Deleting no keys changes nothing. */
  lemma {:induction false} WithoutNoIds(rows: seq<Transaction>)
    ensures WithoutIds(rows, {}) == rows
  {
    if rows != [] {
      WithoutNoIds(rows[..|rows| - 1]);
      assert rows[..|rows| - 1] + [rows[|rows| - 1]] == rows;
    }
  }

  /** The table after the handler has run. */
  ghost function Deduplicated(rows: seq<Transaction>, userId: int): seq<Transaction> {
    WithoutIds(rows, DuplicateIds(rows, userId))
  }

  /** Deleting rows keeps the table in key order. */
  lemma {:induction false} WithoutIdsAscending(rows: seq<Transaction>, ids: set<int>)
    requires IdsAscending(rows)
    ensures IdsAscending(WithoutIds(rows, ids))
  {
    if rows != [] {
      var n := |rows| - 1;
      var prefix := rows[..n];
      assert IdsAscending(prefix) by {
        assert forall i :: 0 <= i < n ==> prefix[i] == rows[i];
      }
      WithoutIdsAscending(prefix, ids);
      var f := WithoutIds(prefix, ids);
      if Id(rows[n]) !in ids {
        assert WithoutIds(rows, ids) == f + [rows[n]];
        forall x | x in f ensures Id(x) < Id(rows[n]) {
          WithoutIdsMembers(prefix, ids, x);
          var i :| 0 <= i < n && prefix[i] == x;
        }
        SnocAscending(f, rows[n]);
      }
    }
  }

  /** A row whose key exceeds every key of a table in key order can be
      appended to it. */
  lemma SnocAscending(f: seq<Transaction>, x: Transaction)
    requires IdsAscending(f) && x.id.Some? && Id(x) >= 1
    requires forall y :: y in f ==> Id(y) < Id(x)
    ensures IdsAscending(f + [x])
  {
    var g := f + [x];
    forall i, j | 0 <= i < j < |g| ensures Id(g[i]) < Id(g[j]) {
      if j < |f| {
        assert g[i] == f[i] && g[j] == f[j];
      } else {
        assert g[i] == f[i] && f[i] in f;
      }
    }
    forall i | 0 <= i < |g| ensures g[i].id.Some? && Id(g[i]) >= 1 {
      if i < |f| { assert g[i] == f[i]; }
    }
  }

  /** In a table in key order, a row is found at exactly one index. */
  lemma IndexOfId(rows: seq<Transaction>, i: int, j: int)
    requires IdsAscending(rows) && 0 <= i < |rows| && 0 <= j < |rows|
    ensures Id(rows[i]) == Id(rows[j]) ==> i == j
    ensures Id(rows[i]) < Id(rows[j]) ==> i < j
  {
  }

  /** A row survives exactly when it is not a later duplicate. */
  lemma Survives(rows: seq<Transaction>, userId: int, i: int)
    requires IdsAscending(rows) && 0 <= i < |rows|
    ensures Id(rows[i]) in DuplicateIds(rows, userId) <==> IsLaterDuplicate(rows, userId, i)
  {
    if Id(rows[i]) in DuplicateIds(rows, userId) {
      var k :| 0 <= k < |rows| && IsLaterDuplicate(rows, userId, k) && Id(rows[k]) == Id(rows[i]);
      IndexOfId(rows, i, k);
    }
  }

  /** After the deletion no two rows of the caller share a key. */
  lemma DeduplicatedKeysDistinct(rows: seq<Transaction>, userId: int, x: int, y: int)
    requires IdsAscending(rows)
    requires 0 <= x < y < |Deduplicated(rows, userId)|
    requires Deduplicated(rows, userId)[x].userId == Some(userId)
    requires Deduplicated(rows, userId)[y].userId == Some(userId)
    ensures KeyOf(Deduplicated(rows, userId)[x]) != KeyOf(Deduplicated(rows, userId)[y])
  {
    var r := Deduplicated(rows, userId);
    WithoutIdsAscending(rows, DuplicateIds(rows, userId));
    WithoutIdsMembers(rows, DuplicateIds(rows, userId), r[x]);
    WithoutIdsMembers(rows, DuplicateIds(rows, userId), r[y]);
    var ix :| 0 <= ix < |rows| && rows[ix] == r[x];
    var iy :| 0 <= iy < |rows| && rows[iy] == r[y];
    IndexOfId(rows, ix, iy);
    if KeyOf(r[x]) == KeyOf(r[y]) {
      Survives(rows, userId, iy);
      assert false;
    }
  }

  /** Deleting rows none of which passes `p` leaves the rows passing
      `p` as they were. */
  lemma {:induction false} WithoutIdsKeeps(rows: seq<Transaction>, ids: set<int>, p: Transaction -> bool)
    requires forall t :: t in rows && p(t) ==> Id(t) !in ids
    ensures Filter(WithoutIds(rows, ids), p) == Filter(rows, p)
  {
    if rows != [] {
      var n := |rows| - 1;
      var x := rows[n];
      var prefix := rows[..n];
      assert forall t :: t in prefix ==> t in rows;
      WithoutIdsKeeps(prefix, ids, p);
      var w := WithoutIds(prefix, ids);
      FilterSnoc(rows, n, p);
      assert rows[..n + 1] == rows;
      assert Filter(rows, p) == Filter(prefix, p) + (if p(x) then [x] else []);
      if Id(x) in ids {
        assert !p(x);
        assert WithoutIds(rows, ids) == w;
      } else {
        var g := w + [x];
        assert WithoutIds(rows, ids) == g;
        FilterSnoc(g, |w|, p);
        assert g[..|w| + 1] == g && g[..|w|] == w;
      }
    }
  }

  /** The deletion keeps every other user's rows, in order. */
  lemma OthersUntouched(rows: seq<Transaction>, userId: int)
    requires IdsAscending(rows)
    ensures Filter(Deduplicated(rows, userId), (t: Transaction) => t.userId != Some(userId))
         == Filter(rows, (t: Transaction) => t.userId != Some(userId))
  {
    var ids := DuplicateIds(rows, userId);
    var q := (t: Transaction) => t.userId != Some(userId);
    forall t | t in rows && q(t) ensures Id(t) !in ids {
      var i :| 0 <= i < |rows| && rows[i] == t;
      Survives(rows, userId, i);
    }
    WithoutIdsKeeps(rows, ids, q);
  }

  /** Row `j` is the caller's first row with the key of row `i`, and it is
      still in the table after the deletion. */
  ghost predicate KeptFirst(rows: seq<Transaction>, userId: int, i: int, j: int)
    requires 0 <= i < |rows|
  {
    0 <= j <= i && rows[j].userId == Some(userId) && KeyOf(rows[j]) == KeyOf(rows[i]) &&
    !IsLaterDuplicate(rows, userId, j) && rows[j] in Deduplicated(rows, userId)
  }

  /** Every key the caller had is still there: the first row with that key
      survives. */
  lemma {:induction false} FirstOccurrenceKept(rows: seq<Transaction>, userId: int, i: int)
    requires IdsAscending(rows) && 0 <= i < |rows| && rows[i].userId == Some(userId)
    ensures exists j :: KeptFirst(rows, userId, i, j)
    decreases i
  {
    Survives(rows, userId, i);
    if IsLaterDuplicate(rows, userId, i) {
      var j :| 0 <= j < i && rows[j].userId == Some(userId) && KeyOf(rows[j]) == KeyOf(rows[i]);
      FirstOccurrenceKept(rows, userId, j);
      var j' :| KeptFirst(rows, userId, j, j');
      assert KeptFirst(rows, userId, i, j');
    } else {
      WithoutIdsMembers(rows, DuplicateIds(rows, userId), rows[i]);
      assert KeptFirst(rows, userId, i, i);
    }
  }

  /** Deleting one key from a table in key order removes at most the one
      row holding it. */
  lemma {:induction false} RemoveOne(rows: seq<Transaction>, x: int)
    requires IdsAscending(rows)
    ensures |WithoutIds(rows, {x})| == |rows| - (if exists i :: 0 <= i < |rows| && Id(rows[i]) == x then 1 else 0)
  {
    if rows != [] {
      var n := |rows| - 1;
      var prefix := rows[..n];
      assert IdsAscending(prefix) by {
        assert forall i :: 0 <= i < n ==> prefix[i] == rows[i];
      }
      RemoveOne(prefix, x);
      if Id(rows[n]) == x {
        assert !exists i :: 0 <= i < n && Id(prefix[i]) == x;
      } else if exists i :: 0 <= i < |rows| && Id(rows[i]) == x {
        var i :| 0 <= i < |rows| && Id(rows[i]) == x;
        assert prefix[i] == rows[i];
      } else {
        assert !exists i :: 0 <= i < n && Id(prefix[i]) == x;
      }
    }
  }

  /** Deleting keys one after the other is deleting them together. */
  lemma {:induction false} WithoutIdsStep(rows: seq<Transaction>, ids: set<int>, x: int)
    ensures WithoutIds(WithoutIds(rows, ids), {x}) == WithoutIds(rows, ids + {x})
  {
    if rows != [] {
      var n := |rows| - 1;
      WithoutIdsStep(rows[..n], ids, x);
      var w := WithoutIds(rows[..n], ids);
      if Id(rows[n]) !in ids {
        var g := w + [rows[n]];
        assert WithoutIds(rows, ids) == g;
        assert g[..|w|] == w && g[|w|] == rows[n];
      } else {
        assert WithoutIds(rows, ids) == w;
      }
    }
  }

  /** One step of the deleting loop: deleting one more key that some row
      holds removes exactly one row, and amounts to deleting all the keys so
      far together. */
  lemma DeleteStep(before: seq<Transaction>, gone: set<int>, x: int)
    requires IdsAscending(before) && x !in gone
    requires exists i :: 0 <= i < |before| && Id(before[i]) == x
    ensures IdsAscending(WithoutIds(before, gone))
    ensures WithoutIds(WithoutIds(before, gone), {x}) == WithoutIds(before, gone + {x})
    ensures |WithoutIds(WithoutIds(before, gone), {x})| == |WithoutIds(before, gone)| - 1
  {
    var w :| 0 <= w < |before| && Id(before[w]) == x;
    WithoutIdsMembers(before, gone, before[w]);
    WithoutIdsAscending(before, gone);
    WithoutIdsStep(before, gone, x);
    RemoveOne(WithoutIds(before, gone), x);
  }
}
