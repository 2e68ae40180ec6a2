/** The meaning of GET /api/stats/monthly-category (new/backend/app/main.py):
    the caller's transactions, optionally of one year, summed per
    (month, category). */
module MonthlyStats {
  import opened Common
  import opened Models

  /** A `"%Y-%m"` month label, kept as year and month. */
  datatype Month = Month(year: int, month: int)

  function MonthOf(d: Date): Month {
    Month(d.year, d.month)
  }

  /** The order `sorted` gives the month labels: by year, then month. */
  predicate MonthLt(a: Month, b: Month) {
    a.year < b.year || (a.year == b.year && a.month < b.month)
  }

  predicate MonthLe(a: Month, b: Month) {
    a == b || MonthLt(a, b)
  }

  /** The category label a transaction is counted under: its category, or
      "Unbekannt" when it has none or an empty one (`t.category or
      "Unbekannt"`). */
  function Label(t: Transaction): (c: string)
    ensures c != ""
    ensures t.category.Some? && t.category.value != "" ==> c == t.category.value
    ensures t.category.None? || t.category == Some("") ==> c == "Unbekannt"
  {
    if t.category.Some? && t.category.value != "" then t.category.value else "Unbekannt"
  }

  /** A (month, category) group. */
  datatype Key = Key(month: Month, category: string)

  function KeyOf(t: Transaction): Key {
    Key(MonthOf(t.date), Label(t))
  }

  /** The year filter: a truthy `year` keeps only that year; None and 0
      keep everything. */
  predicate InYear(t: Transaction, year: Option<int>) {
    year.None? || year.value == 0 || t.date.year == year.value
  }

  /** The transactions the statistics are computed over, in table order. */
  function Contributing(rows: seq<Transaction>, userId: int, year: Option<int>): (r: seq<Transaction>)
    ensures forall t :: t in r ==> t in rows && t.userId == Some(userId) && InYear(t, year)
  {
    Filter(rows, (t: Transaction) => t.userId == Some(userId) && InYear(t, year))
  }

  /** The sum of the amounts of the transactions of `ts` in group `k`. */
  function Total(ts: seq<Transaction>, k: Key): int {
    if ts == [] then 0
    else Total(ts[..|ts| - 1], k) + (if KeyOf(ts[|ts| - 1]) == k then ts[|ts| - 1].amount else 0)
  }

  /** The groups that at least one transaction of `ts` falls into. */
  function Keys(ts: seq<Transaction>): set<Key> {
    set t | t in ts :: KeyOf(t)
  }

  lemma TotalAppend(ts: seq<Transaction>, t: Transaction, k: Key)
    ensures Total(ts + [t], k) == Total(ts, k) + (if KeyOf(t) == k then t.amount else 0)
  {
    assert (ts + [t])[..|ts|] == ts;
  }

  lemma KeysAppend(ts: seq<Transaction>, t: Transaction)
    ensures Keys(ts + [t]) == Keys(ts) + {KeyOf(t)}
  {
    assert forall x :: x in ts + [t] <==> x in ts || x == t;
  }

  /** Extending the scanned prefix by one row extends the contributing
      transactions by that row when it counts. */
  lemma ContributingStep(rows: seq<Transaction>, i: nat, userId: int, year: Option<int>)
    requires i < |rows|
    ensures Contributing(rows[..i + 1], userId, year) ==
      Contributing(rows[..i], userId, year) +
      (if rows[i].userId == Some(userId) && InYear(rows[i], year) then [rows[i]] else [])
  {
    assert rows[..i + 1][..i] == rows[..i];
  }

  /** A group holds no amount when nothing falls into it. */
  lemma {:induction false} TotalOutsideKeys(ts: seq<Transaction>, k: Key)
    requires k !in Keys(ts)
    ensures Total(ts, k) == 0
  {
    if ts != [] {
      var n := |ts| - 1;
      assert ts[..n] + [ts[n]] == ts;
      KeysAppend(ts[..n], ts[n]);
      TotalOutsideKeys(ts[..n], k);
    }
  }

  /** The amounts of `ts`, in order. */
  function Amounts(ts: seq<Transaction>): (r: seq<int>)
    ensures |r| == |ts| && forall i :: 0 <= i < |ts| ==> r[i] == ts[i].amount
  {
    if ts == [] then [] else Amounts(ts[..|ts| - 1]) + [ts[|ts| - 1].amount]
  }

  /** A transaction of month `m` without a category, or with an empty one. */
  predicate Uncategorised(t: Transaction, m: Month) {
    MonthOf(t.date) == m && (t.category.None? || t.category == Some(""))
  }

  lemma UncategorisedKey(t: Transaction, m: Month)
    requires Uncategorised(t, m)
    ensures KeyOf(t) == Key(m, "Unbekannt")
  {
  }

  /** Pooling: transactions without a category, or with an empty one,
      all land in the "Unbekannt" group of their month. */
  lemma UncategorisedKeys(ts: seq<Transaction>, m: Month)
    requires forall t :: t in ts ==> Uncategorised(t, m)
    ensures Keys(ts) <= {Key(m, "Unbekannt")}
  {
    forall t | t in ts ensures KeyOf(t) == Key(m, "Unbekannt") {
      UncategorisedKey(t, m);
    }
  }

  /** That group then holds the sum of all their amounts. */
  lemma {:induction false} UncategorisedPooled(ts: seq<Transaction>, m: Month)
    requires forall t :: t in ts ==> Uncategorised(t, m)
    ensures Total(ts, Key(m, "Unbekannt")) == Sum(Amounts(ts))
  {
    if ts != [] {
      var n := |ts| - 1;
      var init := ts[..n];
      assert forall t :: t in init ==> t in ts;
      UncategorisedPooled(init, m);
      UncategorisedKey(ts[n], m);
      assert Amounts(ts)[..n] == Amounts(init);
    }
  }

  /** One output item `{"month", "category", "sum"}`. */
  datatype Stat = Stat(month: Month, category: string, sum: int)

  function StatKey(s: Stat): Key {
    Key(s.month, s.category)
  }

  /** The groups the output lists. */
  function StatKeys(out: seq<Stat>): set<Key> {
    set x | 0 <= x < |out| :: StatKey(out[x])
  }

  lemma StatKeysAppend(out: seq<Stat>, s: Stat)
    ensures StatKeys(out + [s]) == StatKeys(out) + {StatKey(s)}
  {
    var o := out + [s];
    assert forall x :: 0 <= x < |out| ==> o[x] == out[x];
    assert o[|out|] == s;
  }

  predicate StrictlyAscending(ms: seq<Month>) {
    forall i, j :: 0 <= i < j < |ms| ==> MonthLt(ms[i], ms[j])
  }

  function InsertMonth(ms: seq<Month>, m: Month): (r: seq<Month>)
    requires StrictlyAscending(ms) && m !in ms
    ensures StrictlyAscending(r) && |r| == |ms| + 1
    ensures forall x :: x in r <==> x in ms || x == m
  {
    if ms == [] then [m]
    else if MonthLt(m, ms[0]) then [m] + ms
    else
      assert ms == [ms[0]] + ms[1..];
      assert MonthLt(ms[0], m) by { assert m != ms[0]; }
      var rest := InsertMonth(ms[1..], m);
      assert forall x :: x in rest ==> MonthLt(ms[0], x);
      [ms[0]] + rest
  }

  /** `sorted` over distinct month labels. */
  function SortMonths(ms: seq<Month>): (r: seq<Month>)
    requires NoDup(ms)
    ensures StrictlyAscending(r) && |r| == |ms|
    ensures forall x :: x in r <==> x in ms
  {
    if ms == [] then []
    else
      var n := |ms| - 1;
      assert ms == ms[..n] + [ms[n]];
      InsertMonth(SortMonths(ms[..n]), ms[n])
  }

  /** The shape of the nested `stats` dictionary: `months` lists its months
      once each, in insertion order; `cats` maps each month to its
      categories, once each, in insertion order; `sums` has exactly one
      entry per (month, category) pair. */
  ghost predicate Grouped(months: seq<Month>, cats: map<Month, seq<string>>, sums: map<Key, int>) {
    && NoDup(months)
    && (forall m :: m in cats <==> m in months)
    && (forall m :: m in cats ==> NoDup(cats[m]))
    && (forall k :: k in sums <==> k.month in cats && k.category in cats[k.month])
  }

  /** `sums` holds exactly the groups of `ts`, each with its total. */
  ghost predicate Summarises(sums: map<Key, int>, ts: seq<Transaction>) {
    sums.Keys == Keys(ts) && forall k :: k in sums ==> sums[k] == Total(ts, k)
  }

  /** `stats[month][cat] += amount` on a `defaultdict(float)`: a missing
      group starts from 0. */
  function Bump(sums: map<Key, int>, k: Key, amount: int): (r: map<Key, int>)
    ensures r.Keys == sums.Keys + {k}
    ensures r[k] == (if k in sums then sums[k] else 0) + amount
    ensures forall k' :: k' in sums && k' != k ==> r[k'] == sums[k']
  {
    sums[k := (if k in sums then sums[k] else 0) + amount]
  }

  /** Adding a transaction's amount to its group keeps the sums up to
      date. */
  lemma AccumulateStep(sums: map<Key, int>, ts: seq<Transaction>, t: Transaction)
    requires Summarises(sums, ts)
    ensures Summarises(Bump(sums, KeyOf(t), t.amount), ts + [t])
  {
    var k := KeyOf(t);
    KeysAppend(ts, t);
    forall k' ensures Total(ts + [t], k') == Total(ts, k') + (if k == k' then t.amount else 0) {
      TotalAppend(ts, t, k');
    }
    if k !in sums {
      TotalOutsideKeys(ts, k);
    }
  }

  /** Every month of `ms` has an entry in `cats`, and every (month,
      category) pair `cats` lists has a sum. */
  ghost predicate Covers(ms: seq<Month>, cats: map<Month, seq<string>>, sums: map<Key, int>) {
    && (forall m :: m in ms ==> m in cats)
    && (forall k: Key :: k.month in cats && k.category in cats[k.month] ==> k in sums)
  }

  /** The items of one month, one per category in the order of `cs`. */
  function MonthItems(m: Month, cs: seq<string>, sums: map<Key, int>): (r: seq<Stat>)
    requires forall c :: c in cs ==> Key(m, c) in sums
    ensures |r| == |cs|
    ensures forall i :: 0 <= i < |cs| ==> r[i] == Stat(m, cs[i], sums[Key(m, cs[i])])
  {
    seq(|cs|, i requires 0 <= i < |cs| => Stat(m, cs[i], sums[Key(m, cs[i])]))
  }

  /** The output list: for each month of `ms` in turn, that month's items. */
  function Emitted(ms: seq<Month>, cats: map<Month, seq<string>>, sums: map<Key, int>): seq<Stat>
    requires Covers(ms, cats, sums)
  {
    if ms == [] then []
    else
      var n := |ms| - 1;
      assert forall m :: m in ms[..n] ==> m in ms;
      Emitted(ms[..n], cats, sums) + MonthItems(ms[n], cats[ms[n]], sums)
  }

  /** `s` is a listed group of a month of `ms`, carrying that group's sum. */
  ghost predicate ItemOf(s: Stat, ms: seq<Month>, cats: map<Month, seq<string>>, sums: map<Key, int>) {
    s.month in ms && s.month in cats && s.category in cats[s.month] &&
    StatKey(s) in sums && s.sum == sums[StatKey(s)]
  }

  /** Emitting one more month appends that month's items. */
  lemma EmittedStep(ms: seq<Month>, j: nat, cats: map<Month, seq<string>>, sums: map<Key, int>)
    requires Covers(ms, cats, sums) && j < |ms|
    ensures Covers(ms[..j], cats, sums) && Covers(ms[..j + 1], cats, sums)
    ensures ms[j] in cats && forall c :: c in cats[ms[j]] ==> Key(ms[j], c) in sums
    ensures Emitted(ms[..j + 1], cats, sums) == Emitted(ms[..j], cats, sums) + MonthItems(ms[j], cats[ms[j]], sums)
  {
    assert ms[..j + 1][..j] == ms[..j];
    assert forall m :: m in ms[..j + 1] ==> m in ms;
  }

  /** Each emitted item is a listed group of a month of `ms`, with that
      group's sum; every such group is emitted. */
  lemma {:induction false} EmittedItems(ms: seq<Month>, cats: map<Month, seq<string>>, sums: map<Key, int>)
    requires Covers(ms, cats, sums)
    ensures forall x :: 0 <= x < |Emitted(ms, cats, sums)| ==> ItemOf(Emitted(ms, cats, sums)[x], ms, cats, sums)
    ensures forall m, c :: m in ms && c in cats[m] ==> Key(m, c) in StatKeys(Emitted(ms, cats, sums))
  {
    if ms != [] {
      var n := |ms| - 1;
      assert forall m :: m in ms[..n] ==> m in ms;
      EmittedItems(ms[..n], cats, sums);
      var p := Emitted(ms[..n], cats, sums);
      var e := Emitted(ms, cats, sums);
      var items := MonthItems(ms[n], cats[ms[n]], sums);
      assert e == p + items;
      forall x | 0 <= x < |e| ensures ItemOf(e[x], ms, cats, sums) {
        if x < |p| {
          assert e[x] == p[x] && ItemOf(p[x], ms[..n], cats, sums);
        } else {
          assert e[x] == items[x - |p|];
          assert cats[ms[n]][x - |p|] in cats[ms[n]];
        }
      }
      forall m, c | m in ms && c in cats[m] ensures Key(m, c) in StatKeys(e) {
        if m in ms[..n] {
          assert Key(m, c) in StatKeys(p);
          var x :| 0 <= x < |p| && StatKey(p[x]) == Key(m, c);
          assert e[x] == p[x];
        } else {
          assert m == ms[n] by { assert ms == ms[..n] + [ms[n]]; }
          var i :| 0 <= i < |cats[m]| && cats[m][i] == c;
          assert e[|p| + i] == items[i];
        }
      }
    }
  }

  /** With months and each month's categories listed once, no group is
      emitted twice. */
  lemma {:induction false} EmittedDistinct(ms: seq<Month>, cats: map<Month, seq<string>>, sums: map<Key, int>)
    requires Covers(ms, cats, sums) && NoDup(ms)
    requires forall m :: m in cats ==> NoDup(cats[m])
    ensures forall x, y :: 0 <= x < y < |Emitted(ms, cats, sums)| ==>
      StatKey(Emitted(ms, cats, sums)[x]) != StatKey(Emitted(ms, cats, sums)[y])
  {
    if ms != [] {
      var n := |ms| - 1;
      assert forall m :: m in ms[..n] ==> m in ms;
      EmittedDistinct(ms[..n], cats, sums);
      EmittedItems(ms[..n], cats, sums);
      var p := Emitted(ms[..n], cats, sums);
      var e := Emitted(ms, cats, sums);
      var items := MonthItems(ms[n], cats[ms[n]], sums);
      assert e == p + items;
      forall x, y | 0 <= x < y < |e| ensures StatKey(e[x]) != StatKey(e[y]) {
        if y < |p| {
          assert e[x] == p[x] && e[y] == p[y];
        } else if x < |p| {
          assert e[x] == p[x] && ItemOf(p[x], ms[..n], cats, sums);
          assert ms[n] !in ms[..n];
        } else {
          assert e[x] == items[x - |p|] && e[y] == items[y - |p|];
        }
      }
    }
  }

  /** Over ascending months the output's months never decrease. */
  lemma {:induction false} EmittedOrdered(ms: seq<Month>, cats: map<Month, seq<string>>, sums: map<Key, int>)
    requires Covers(ms, cats, sums) && StrictlyAscending(ms)
    ensures forall x, y :: 0 <= x < y < |Emitted(ms, cats, sums)| ==>
      MonthLe(Emitted(ms, cats, sums)[x].month, Emitted(ms, cats, sums)[y].month)
  {
    if ms != [] {
      var n := |ms| - 1;
      assert forall m :: m in ms[..n] ==> m in ms;
      EmittedOrdered(ms[..n], cats, sums);
      EmittedItems(ms[..n], cats, sums);
      var p := Emitted(ms[..n], cats, sums);
      var e := Emitted(ms, cats, sums);
      var items := MonthItems(ms[n], cats[ms[n]], sums);
      assert e == p + items;
      forall x, y | 0 <= x < y < |e| ensures MonthLe(e[x].month, e[y].month) {
        if y < |p| {
          assert e[x] == p[x] && e[y] == p[y];
        } else if x < |p| {
          assert e[x] == p[x] && ItemOf(p[x], ms[..n], cats, sums);
          assert e[y] == items[y - |p|];
        } else {
          assert e[x] == items[x - |p|] && e[y] == items[y - |p|];
        }
      }
    }
  }

  /** The statistics' promise: over grouped sums of `ts`, the output lists
      every group of `ts` exactly once with its total, months ascending. */
  lemma StatsOutput(months: seq<Month>, cats: map<Month, seq<string>>, sums: map<Key, int>, ts: seq<Transaction>)
    requires Grouped(months, cats, sums) && Summarises(sums, ts)
    ensures Covers(SortMonths(months), cats, sums)
    ensures var e := Emitted(SortMonths(months), cats, sums);
      && (forall x :: 0 <= x < |e| ==> e[x].sum == Total(ts, StatKey(e[x])))
      && StatKeys(e) == Keys(ts)
      && (forall x, y :: 0 <= x < y < |e| ==> StatKey(e[x]) != StatKey(e[y]))
      && (forall x, y :: 0 <= x < y < |e| ==> MonthLe(e[x].month, e[y].month))
  {
    var sorted := SortMonths(months);
    assert NoDup(sorted) by {
      forall i, j | 0 <= i < j < |sorted| ensures sorted[i] != sorted[j] {
        assert MonthLt(sorted[i], sorted[j]);
      }
    }
    EmittedItems(sorted, cats, sums);
    EmittedDistinct(sorted, cats, sums);
    EmittedOrdered(sorted, cats, sums);
    var e := Emitted(sorted, cats, sums);
    forall k | k in sums ensures k in StatKeys(e) {
      assert k.month in sorted;
    }
  }
}
