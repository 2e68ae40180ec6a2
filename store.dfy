/** The transaction handlers of new/backend/app/main.py, run against an
    in-memory transactions table. The authenticated caller is a plain
    `userId`; `session.add` followed by the commit stores a row under the
    next free primary key, `session.delete` removes it. */
module Store {
  import opened Common
  import opened Models
  import opened StoreSpec
  import MS = MonthlyStats
  import D = Duplicates

  /** The `filters` list of `list_transactions`, built one condition after
      the other from the query parameters. */
  method BuildConditions(query: Query, parseDate: string -> Option<Date>) returns (fs: seq<Condition>)
    ensures forall t :: AllHold(fs, t) <==> Matches(query, parseDate, t)
  {
    fs := [];
    if Given(query.q) {
      AllHoldAppend(fs, DescriptionNotNull);
      fs := fs + [DescriptionNotNull];
      AllHoldAppend(fs, DescriptionLike(query.q.value));
      fs := fs + [DescriptionLike(query.q.value)];
    }
    if Given(query.category) {
      AllHoldAppend(fs, CategoryIs(query.category.value));
      fs := fs + [CategoryIs(query.category.value)];
    }
    if query.minAmount.Some? {
      AllHoldAppend(fs, AmountAtLeast(query.minAmount.value));
      fs := fs + [AmountAtLeast(query.minAmount.value)];
    }
    if query.maxAmount.Some? {
      AllHoldAppend(fs, AmountAtMost(query.maxAmount.value));
      fs := fs + [AmountAtMost(query.maxAmount.value)];
    }
    if Given(query.fromDate) {
      var from := parseDate(query.fromDate.value);
      if from.Some? {
        AllHoldAppend(fs, DateFrom(from.value));
        fs := fs + [DateFrom(from.value)];
      }
    }
    if Given(query.toDate) {
      var to := parseDate(query.toDate.value);
      if to.Some? {
        AllHoldAppend(fs, DateTo(to.value));
        fs := fs + [DateTo(to.value)];
      }
    }
  }

  /** `stats[month][cat] += amount` on the nested `defaultdict`: a month
      seen for the first time is added after the others, a category seen
      for the first time in its month after that month's others, and a new
      group starts from 0. */
  method AddToStats(months: seq<MS.Month>, cats: map<MS.Month, seq<string>>, sums: map<MS.Key, int>,
                    m: MS.Month, cat: string, amount: int)
    returns (months': seq<MS.Month>, cats': map<MS.Month, seq<string>>, sums': map<MS.Key, int>)
    requires MS.Grouped(months, cats, sums)
    ensures MS.Grouped(months', cats', sums')
    ensures sums' == MS.Bump(sums, MS.Key(m, cat), amount)
    ensures months' == if m in months then months else months + [m]
  {
    months', cats' := months, cats;
    if m !in cats' {
      months' := months' + [m];
      cats' := cats'[m := []];
    }
    if cat !in cats'[m] {
      cats' := cats'[m := cats'[m] + [cat]];
    }
    sums' := MS.Bump(sums, MS.Key(m, cat), amount);
  }

  /** The second loop of GET /api/stats/monthly-category: for each month
      of `sorted(stats.items())`, one item per category of that month. */
  method EmitStats(months: seq<MS.Month>, cats: map<MS.Month, seq<string>>, sums: map<MS.Key, int>)
    returns (out: seq<MS.Stat>)
    requires NoDup(months) && MS.Covers(MS.SortMonths(months), cats, sums)
    ensures out == MS.Emitted(MS.SortMonths(months), cats, sums)
  {
    var sorted := MS.SortMonths(months);
    out := [];
    var j := 0;
    assert sorted[..0] == [];
    while j < |sorted|
      invariant 0 <= j <= |sorted|
      invariant MS.Covers(sorted[..j], cats, sums)
      invariant out == MS.Emitted(sorted[..j], cats, sums)
    {
      MS.EmittedStep(sorted, j, cats, sums);
      var m := sorted[j];
      var cs := cats[m];
      ghost var done := out;
      var l := 0;
      while l < |cs|
        invariant 0 <= l <= |cs|
        invariant out == done + MS.MonthItems(m, cs[..l], sums)
      {
        assert MS.MonthItems(m, cs[..l + 1], sums) == MS.MonthItems(m, cs[..l], sums) + [MS.Stat(m, cs[l], sums[MS.Key(m, cs[l])])];
        out := out + [MS.Stat(m, cs[l], sums[MS.Key(m, cs[l])])];
        l := l + 1;
      }
      assert cs[..|cs|] == cs;
      j := j + 1;
    }
    assert sorted[..|sorted|] == sorted;
  }

  class TransactionStore {
    /** The transactions table, in primary-key order. */
    var rows: seq<Transaction>

    ghost predicate Valid()
      reads this
    {
      IdsAscending(rows)
    }

    /** An empty table. */
    constructor ()
      ensures Valid() && rows == []
    {
      rows := [];
    }

    /** `session.add(t)` and the commit: `t` is stored under the next free
        key. */
    method Add(t: Transaction) returns (stored: Transaction)
      requires Valid()
      modifies this
      ensures Valid()
      ensures stored == t.(id := Some(old(NextId(rows))))
      ensures rows == old(rows) + [stored]
    {
      stored := t.(id := Some(NextId(rows)));
      rows := rows + [stored];
    }

    /** `session.get(Transaction, id)`: the position of the row with key
        `id`, if there is one. */
    method Get(id: int) returns (k: Option<nat>)
      requires Valid()
      ensures k.Some? ==> k.value < |rows| && Id(rows[k.value]) == id
      ensures k.None? ==> forall i :: 0 <= i < |rows| ==> Id(rows[i]) != id
    {
      var i := 0;
      while i < |rows|
        invariant 0 <= i <= |rows|
        invariant forall j :: 0 <= j < i ==> Id(rows[j]) != id
      {
        if Id(rows[i]) == id {
          return Some(i);
        }
        i := i + 1;
      }
      return None;
    }

    /** POST /api/transactions: the payload becomes a new row owned by the
        caller, under a key no other row has. */
    method CreateTransaction(userId: int, payload: TransactionCreate) returns (t: Transaction)
      requires Valid()
      modifies this
      ensures Valid()
      ensures Base(t) == payload && t.userId == Some(userId)
      ensures t.id.Some? && forall i :: 0 <= i < |old(rows)| ==> Id(old(rows)[i]) != Id(t)
      ensures rows == old(rows) + [t]
    {
      var row := FromCreate(payload).(userId := Some(userId));
      t := Add(row);
    }

    /** The SELECT of the list and export handlers: the caller's rows
        passing every condition of `fs`, `ORDER BY date DESC`. */
    method Select(userId: int, fs: seq<Condition>) returns (r: seq<Transaction>)
      ensures ListedByDateDesc(r, Selection(rows, userId, fs))
    {
      r := [];
      var i := 0;
      while i < |rows|
        invariant 0 <= i <= |rows|
        invariant ListedByDateDesc(r, Selection(rows[..i], userId, fs))
      {
        SelectionStep(rows, i, userId, fs);
        if rows[i].userId == Some(userId) && AllHold(fs, rows[i]) {
          r := InsertByDateDesc(r, rows[i]);
        }
        i := i + 1;
      }
      assert rows[..|rows|] == rows;
    }

    /** GET /api/transactions: exactly the caller's rows that match every
        given parameter, newest first. */
    method ListTransactions(userId: int, query: Query, parseDate: string -> Option<Date>)
      returns (r: seq<Transaction>)
      ensures ListedByDateDesc(r, Listing(rows, userId, query, parseDate))
      ensures forall t :: t in r <==> t in rows && t.userId == Some(userId) && Matches(query, parseDate, t)
    {
      var fs := BuildConditions(query, parseDate);
      r := Select(userId, fs);
      SelectionIsListing(rows, userId, fs, query, parseDate);
      forall t ensures t in r <==> t in Listing(rows, userId, query, parseDate) {
        assert t in r <==> t in multiset(r);
      }
    }

    /** GET /api/transactions/export: the header line, then one line per
        row of the caller, newest first. */
    method ExportCsv(userId: int) returns (lines: seq<seq<Cell>>)
      ensures |lines| == |Owned(rows, userId)| + 1 && lines[0] == Header
      ensures exists ts :: ListedByDateDesc(ts, Owned(rows, userId)) && lines == [Header] + CsvRows(ts)
    {
      var results := Select(userId, []);
      SelectionNoConditions(rows, userId);
      lines := [Header];
      var i := 0;
      while i < |results|
        invariant 0 <= i <= |results|
        invariant lines == [Header] + CsvRows(results[..i])
      {
        assert CsvRows(results[..i + 1]) == CsvRows(results[..i]) + [CsvRow(results[i])];
        lines := lines + [CsvRow(results[i])];
        i := i + 1;
      }
      assert results[..|results|] == results;
      assert |results| == |multiset(results)|;
    }

    /** POST /api/transactions/import. A file name that is missing or does
        not end in ".csv" is refused before anything is read. Otherwise every
        record that parses is added for the caller, in file order, and the
        others are skipped; the answer is how many were added. */
    method ImportCsv(userId: int, filename: Option<string>, records: seq<CsvRecord>,
                     parseDate: string -> Option<Date>, parseAmount: string -> Option<int>)
      returns (r: Result<nat>)
      requires Valid()
      modifies this
      ensures Valid()
      ensures !IsCsvName(filename) ==> r == Err(NotCsv) && rows == old(rows)
      ensures IsCsvName(filename) ==>
        var added := Imported(records, userId, parseDate, parseAmount);
        r == Ok(|added|) && rows == old(rows) + Stamp(added, old(NextId(rows)))
    {
      if !IsCsvName(filename) {
        return Err(NotCsv);
      }
      ghost var before := rows;
      ghost var first := NextId(rows);
      var imported := 0;
      var i := 0;
      while i < |records|
        invariant 0 <= i <= |records|
        invariant Valid()
        invariant imported == |Imported(records[..i], userId, parseDate, parseAmount)|
        invariant rows == before + Stamp(Imported(records[..i], userId, parseDate, parseAmount), first)
        invariant NextId(rows) == first + imported
      {
        ghost var done := Imported(records[..i], userId, parseDate, parseAmount);
        ImportedStep(records, i, userId, parseDate, parseAmount);
        var t := ParseRecord(records[i], userId, parseDate, parseAmount);
        if t.Some? {
          var stored := Add(t.value);
          StampSnoc(done, t.value, first);
          assert stored == t.value.(id := Some(first + |done|));
          assert rows == before + (Stamp(done, first) + [stored]);
          imported := imported + 1;
        }
        i := i + 1;
      }
      assert records[..|records|] == records;
      return Ok(imported);
    }

    /** PATCH /api/transactions/{id}: a missing row, or one of another user,
        is refused and nothing changes; otherwise the row's sent fields are
        overwritten and nothing else changes. */
    method UpdateTransaction(userId: int, id: int, patch: Patch) returns (r: Result<Transaction>)
      requires Valid()
      modifies this
      ensures Valid()
      ensures r.Err? <==> !OwnsRow(old(rows), userId, id)
      ensures r.Err? ==> r.error == NotFoundOrForbidden && rows == old(rows)
      ensures r.Ok? ==> (exists k :: 0 <= k < |old(rows)| && Id(old(rows)[k]) == id &&
                          PatchedFrom(r.value, old(rows)[k], patch) && rows == old(rows)[k := r.value])
    {
      var found := Get(id);
      if found.None? || rows[found.value].userId != Some(userId) {
        return Err(NotFoundOrForbidden);
      }
      var k := found.value;
      var t := rows[k];
      var items := Items(patch);
      var n := 0;
      while n < |items|
        invariant 0 <= n <= |items|
        invariant t == SetAll(rows[k], items[..n])
      {
        assert items[..n + 1][..n] == items[..n];
        t := SetAttr(t, items[n]);
        n := n + 1;
      }
      assert items[..|items|] == items;
      SetAllItems(rows[k], patch);
      rows := rows[k := t];
      return Ok(t);
    }

    /** DELETE /api/transactions/{id}: a missing row, or one of another
        user, is refused and nothing changes; otherwise exactly that row is
        removed. */
    method DeleteTransaction(userId: int, id: int) returns (r: Result<bool>)
      requires Valid()
      modifies this
      ensures Valid()
      ensures r.Err? <==> !OwnsRow(old(rows), userId, id)
      ensures r.Err? ==> r.error == NotFoundOrForbidden && rows == old(rows)
      ensures r.Ok? ==> r.value && (exists k :: 0 <= k < |old(rows)| && Id(old(rows)[k]) == id &&
                                      rows == old(rows)[..k] + old(rows)[k + 1..])
    {
      var found := Get(id);
      if found.None? || rows[found.value].userId != Some(userId) {
        return Err(NotFoundOrForbidden);
      }
      var k := found.value;
      RemoveAtAscending(rows, k);
      rows := rows[..k] + rows[k + 1..];
      return Ok(true);
    }
  
    /** The first loop of GET /api/stats/monthly-category: the nested
        `stats` dictionary over the caller's rows of the requested year. */
    method GroupStats(userId: int, year: Option<int>)
      returns (months: seq<MS.Month>, cats: map<MS.Month, seq<string>>, sums: map<MS.Key, int>)
      ensures MS.Grouped(months, cats, sums)
      ensures MS.Summarises(sums, MS.Contributing(rows, userId, year))
    {
      months := [];
      cats := map[];
      sums := map[];
      ghost var ts: seq<Transaction> := [];
      var i := 0;
      while i < |rows|
        invariant 0 <= i <= |rows|
        invariant ts == MS.Contributing(rows[..i], userId, year)
        invariant MS.Grouped(months, cats, sums)
        invariant MS.Summarises(sums, ts)
      {
        var t := rows[i];
        MS.ContributingStep(rows, i, userId, year);
        if MS.InYear(t, year) && t.userId == Some(userId) {
          MS.AccumulateStep(sums, ts, t);
          months, cats, sums := AddToStats(months, cats, sums, MS.MonthOf(t.date), MS.Label(t), t.amount);
          ts := ts + [t];
        }
        i := i + 1;
      }
      assert rows[..|rows|] == rows;
    }

    /** GET /api/stats/monthly-category: one item per (month, category)
        group with at least one contributing row, holding the group's total;
        months ascending. */
    method StatsMonthlyCategory(userId: int, year: Option<int>) returns (out: seq<MS.Stat>)
      ensures forall x :: 0 <= x < |out| ==>
        out[x].sum == MS.Total(MS.Contributing(rows, userId, year), MS.StatKey(out[x]))
      ensures MS.StatKeys(out) == MS.Keys(MS.Contributing(rows, userId, year))
      ensures forall x, y :: 0 <= x < y < |out| ==> MS.StatKey(out[x]) != MS.StatKey(out[y])
      ensures forall x, y :: 0 <= x < y < |out| ==> MS.MonthLe(out[x].month, out[y].month)
    {
      var months, cats, sums := GroupStats(userId, year);
      MS.StatsOutput(months, cats, sums, MS.Contributing(rows, userId, year));
      out := EmitStats(months, cats, sums);
    }

    /** The first loop of DELETE /api/transactions/duplicates: the keys of
        the caller's rows whose (date, amount, description, category) an
        earlier row of the caller already had, in table order. */
    method CollectDuplicates(userId: int) returns (toDelete: seq<int>)
      requires Valid()
      ensures Elems(toDelete) == D.DuplicateIds(rows, userId)
      ensures forall a, b :: 0 <= a < b < |toDelete| ==> toDelete[a] < toDelete[b]
    {
      var seen: set<D.DupKey> := {};
      toDelete := [];
      var i := 0;
      while i < |rows|
        invariant 0 <= i <= |rows|
        invariant seen == D.SeenKeys(rows, userId, i)
        invariant Elems(toDelete) == D.DuplicateIdsUpTo(rows, userId, i)
        invariant forall a, b :: 0 <= a < b < |toDelete| ==> toDelete[a] < toDelete[b]
        invariant forall a, j :: 0 <= a < |toDelete| && i <= j < |rows| ==> toDelete[a] < Id(rows[j])
      {
        D.CollectStep(rows, userId, i);
        if rows[i].userId == Some(userId) {
          var key := D.KeyOf(rows[i]);
          if key in seen {
            toDelete := toDelete + [Id(rows[i])];
          } else {
            seen := seen + {key};
          }
        }
        i := i + 1;
      }
    }

    /** The second loop: `session.delete` of each collected row. */
    method DeleteAll(ids: seq<int>)
      requires Valid()
      requires forall a, b :: 0 <= a < b < |ids| ==> ids[a] < ids[b]
      requires forall x :: x in ids ==> exists i :: 0 <= i < |rows| && Id(rows[i]) == x
      modifies this
      ensures Valid()
      ensures rows == D.WithoutIds(old(rows), Elems(ids))
      ensures |rows| == |old(rows)| - |ids|
    {
      ghost var before := rows;
      D.WithoutNoIds(rows);
      assert Elems(ids[..0]) == {};
      var k := 0;
      while k < |ids|
        invariant 0 <= k <= |ids|
        invariant Valid()
        invariant rows == D.WithoutIds(before, Elems(ids[..k]))
        invariant |rows| == |before| - k
      {
        var x := ids[k];
        ElemsStep(ids, k);
        assert x in ids;
        D.DeleteStep(before, Elems(ids[..k]), x);
        D.WithoutIdsAscending(rows, {x});
        rows := D.WithoutIds(rows, {x});
        k := k + 1;
      }
      assert ids[..|ids|] == ids;
    }

    /** DELETE /api/transactions/duplicates: every row of the caller whose
        (date, amount, description, category) an earlier row of the caller
        already had is deleted; the answer is how many were. */
    method DeleteDuplicates(userId: int) returns (deleted: nat)
      requires Valid()
      modifies this
      ensures Valid()
      ensures rows == D.Deduplicated(old(rows), userId)
      ensures deleted == |old(rows)| - |rows|
    {
      var toDelete := CollectDuplicates(userId);
      forall x | x in toDelete ensures exists i :: 0 <= i < |rows| && Id(rows[i]) == x {
        assert x in D.DuplicateIds(rows, userId);
      }
      DeleteAll(toDelete);
      deleted := |toDelete|;
    }
}
}
