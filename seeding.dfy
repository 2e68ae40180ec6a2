/** The demo-data walk of `_seed_monthly_transactions`
    (new/backend/app/main.py): for one user, month after month from `start`
    while the date is not after `today`, one income on the 1st and one
    transaction per (shuffled) expense on days 3, 5, 7, ..., clamped to the
    month's last day. The random choices are an input: `draw(d)` is what the
    seeded generator yields for the month of `d`. A `date.replace` that
    Python refuses (a day the next month lacks, a year past 9999) raises
    ValueError and ends the walk; it is the None result here. The base
    amounts and the random variations are whole euros; as everywhere in
    this model they are written in cents, so a variation of `k` euros is
    `100 * k`. */
module Seeding {
  import opened Common
  import opened Models

  /** Months counted from January of year 0. */
  function MonthIndex(d: Date): int {
    d.year * 12 + d.month - 1
  }

  /** The step at the end of each month: December rolls over to January
      of the next year, every other month to the next month of the same
      year; the day is kept, and the step fails when the target month has
      no such day or the year leaves Python's range. */
  function NextMonth(d: Date): (r: Option<Date>)
    requires ValidDate(d)
    ensures r.Some? ==> ValidDate(r.value) && r.value.day == d.day
    ensures r.Some? ==> MonthIndex(r.value) == MonthIndex(d) + 1
    ensures r.Some? && d.month == 12 ==> r.value.year == d.year + 1 && r.value.month == 1
    ensures r.Some? && d.month < 12 ==> r.value.year == d.year && r.value.month == d.month + 1
    ensures r.None? <==> (d.month == 12 && d.year == 9999) ||
                         (d.month < 12 && d.day > DaysInMonth(d.year, d.month + 1))
  {
    var next := if d.month == 12 then Date(d.year + 1, 1, d.day) else Date(d.year, d.month + 1, d.day);
    if ValidDate(next) then Some(next) else None
  }

  /** The day of the `i`-th expense: `min(3 + 2 * i, days in month)`. */
  function ExpenseDay(year: int, month: int, i: nat): (day: int)
    requires 1 <= month <= 12
    ensures 1 <= day <= DaysInMonth(year, month)
    ensures day == 3 + 2 * i || day == DaysInMonth(year, month)
    ensures 3 + 2 * i <= 28 ==> day == 3 + 2 * i
    ensures day <= 3 + 2 * i
  {
    var last := DaysInMonth(year, month);
    if 3 + 2 * i < last then 3 + 2 * i else last
  }

  /** One entry of the user's expense list: description, base amount,
      category. */
  datatype Expense = Expense(description: string, amount: int, category: string)

  /** What the seeded generator yields for one month: the chosen income
      (description, category) and its variation, then the shuffled expense
      list, each entry with its variation. */
  datatype Draw = Draw(item: Expense, delta: int)
  datatype MonthDraw = MonthDraw(incomeDescription: string, incomeCategory: string, incomeDelta: int,
                                 expenses: seq<Draw>)

  function DrawnItems(ds: seq<Draw>): (r: seq<Expense>)
    ensures |r| == |ds| && forall i :: 0 <= i < |ds| ==> r[i] == ds[i].item
  {
    seq(|ds|, i requires 0 <= i < |ds| => ds[i].item)
  }

  /** A variation by a whole number of euros, at most `euros` either way,
      in cents. */
  predicate EuroStep(delta: int, euros: nat) {
    delta % 100 == 0 && -100 * euros <= delta <= 100 * euros
  }

  /** What the generator can yield for a month: an income drawn from
      `incomes` varied by -100..100 euros, and a shuffle of the user's
      `expenses`, each varied by -20..20 euros. Amounts are in cents. */
  predicate Drawn(m: MonthDraw, incomes: seq<(string, string)>, expenses: seq<Expense>) {
    (m.incomeDescription, m.incomeCategory) in incomes &&
    EuroStep(m.incomeDelta, 100) &&
    multiset(DrawnItems(m.expenses)) == multiset(expenses) &&
    forall i :: 0 <= i < |m.expenses| ==> EuroStep(m.expenses[i].delta, 20)
  }

  /** A seeded transaction of the user. */
  function Seeded(userId: int, date: Date, amount: int, description: string, category: string): (t: Transaction)
    ensures t.date == date && t.amount == amount && t.userId == Some(userId)
    ensures t.description == Some(description) && t.category == Some(category)
    ensures t.id == None && t.currency == "EUR"
  {
    NewTransaction(date, amount).(userId := Some(userId), description := Some(description),
                                  category := Some(category))
  }

  function IncomeOf(userId: int, d: Date, income: int, draw: MonthDraw): Transaction
    requires 1 <= d.month <= 12
  {
    Seeded(userId, Date(d.year, d.month, 1), income + draw.incomeDelta,
           draw.incomeDescription, draw.incomeCategory)
  }

  function ExpenseOf(userId: int, d: Date, e: Draw, i: nat): Transaction
    requires 1 <= d.month <= 12
  {
    Seeded(userId, Date(d.year, d.month, ExpenseDay(d.year, d.month, i)), e.item.amount + e.delta,
           e.item.description, e.item.category)
  }

  /** The transactions of one month: the income, then the expenses in
      shuffled order. */
  function MonthTransactions(userId: int, d: Date, income: int, draw: MonthDraw): (r: seq<Transaction>)
    requires 1 <= d.month <= 12
    ensures |r| == 1 + |draw.expenses|
    ensures r[0] == IncomeOf(userId, d, income, draw)
    ensures forall i :: 0 <= i < |draw.expenses| ==> r[1 + i] == ExpenseOf(userId, d, draw.expenses[i], i)
  {
    [IncomeOf(userId, d, income, draw)] +
    seq(|draw.expenses|, i requires 0 <= i < |draw.expenses| => ExpenseOf(userId, d, draw.expenses[i], i))
  }

  /** `t` is expense `e` varied by at most 20 euros. */
  predicate Varies(t: Transaction, e: Expense) {
    t.description == Some(e.description) && t.category == Some(e.category) &&
    EuroStep(t.amount - e.amount, 20)
  }

  /** Row `i` of `rows` is entry `i` of `order`, varied. */
  predicate VariesAll(rows: seq<Transaction>, order: seq<Expense>) {
    |rows| == |order| && forall i :: 0 <= i < |order| ==> Varies(rows[i], order[i])
  }

  /** `rows` are the entries of `expenses`, in the shuffled order `order`,
      each varied. */
  predicate ShuffledVaried(rows: seq<Transaction>, expenses: seq<Expense>, order: seq<Expense>) {
    multiset(order) == multiset(expenses) && VariesAll(rows, order)
  }

  /** The expense rows of a month are the drawn entries, in drawn order,
      each varied by its drawn variation. */
  lemma ExpenseRows(userId: int, d: Date, income: int, m: MonthDraw)
    requires 1 <= d.month <= 12
    requires forall i :: 0 <= i < |m.expenses| ==> EuroStep(m.expenses[i].delta, 20)
    ensures VariesAll(MonthTransactions(userId, d, income, m)[1..], DrawnItems(m.expenses))
  {
    var rows := MonthTransactions(userId, d, income, m)[1..];
    var items := DrawnItems(m.expenses);
    forall i | 0 <= i < |items| ensures Varies(rows[i], items[i]) {
      var e := m.expenses[i];
      assert rows[i] == ExpenseOf(userId, d, e, i);
      assert rows[i].amount - e.item.amount == e.delta;
    }
  }

  /** A month seeds one income and exactly one transaction per expense
      of the user: the income lies within 100 euros of the user's base
      income, and the expense rows are a shuffle of the user's expenses,
      each varied by at most 20 euros. */
  lemma MonthAmounts(userId: int, d: Date, income: int, m: MonthDraw,
                     incomes: seq<(string, string)>, expenses: seq<Expense>)
    requires 1 <= d.month <= 12 && Drawn(m, incomes, expenses)
    ensures |MonthTransactions(userId, d, income, m)| == 1 + |expenses|
    ensures var t := MonthTransactions(userId, d, income, m)[0];
      EuroStep(t.amount - income, 100) && t.date.day == 1 &&
      (t.description.value, t.category.value) in incomes
    ensures exists order :: ShuffledVaried(MonthTransactions(userId, d, income, m)[1..], expenses, order)
  {
    var items := DrawnItems(m.expenses);
    assert |items| == |multiset(items)| == |multiset(expenses)| == |expenses|;
    ExpenseRows(userId, d, income, m);
    assert MonthTransactions(userId, d, income, m)[0].amount - income == m.incomeDelta;
    assert ShuffledVaried(MonthTransactions(userId, d, income, m)[1..], expenses, items);
  }

  /** The walk from `d` on: the transactions added, or None when a month
      step fails. */
  function Walk(userId: int, d: Date, today: Date, income: int, draw: Date -> MonthDraw): Option<seq<Transaction>>
    requires ValidDate(d) && ValidDate(today)
    decreases MonthIndex(today) - MonthIndex(d)
  {
    if !DateLe(d, today) then Some([])
    else
      match NextMonth(d)
      case None => None
      case Some(next) =>
        match Walk(userId, next, today, income, draw)
        case None => None
        case Some(rest) => Some(MonthTransactions(userId, d, income, draw(d)) + rest)
  }

  /** `prefix` followed by the outcome `r` of the rest of the walk. */
  function After(prefix: seq<Transaction>, r: Option<seq<Transaction>>): Option<seq<Transaction>> {
    match r
    case None => None
    case Some(rest) => Some(prefix + rest)
  }

  lemma AfterAssoc(a: seq<Transaction>, b: seq<Transaction>, r: Option<seq<Transaction>>)
    ensures After([], r) == r
    ensures After(a, After(b, r)) == After(a + b, r)
  {
    if r.Some? {
      assert [] + r.value == r.value;
      assert a + (b + r.value) == (a + b) + r.value;
    }
  }

  /** Every seeded transaction is the user's, falls on a real calendar day,
      and lies in a month from `d`'s month to `today`'s. */
  lemma {:induction false} WalkDates(userId: int, d: Date, today: Date, income: int, draw: Date -> MonthDraw)
    requires ValidDate(d) && ValidDate(today)
    ensures Walk(userId, d, today, income, draw).Some? ==>
      forall t :: t in Walk(userId, d, today, income, draw).value ==>
        ValidDate(t.date) && t.userId == Some(userId) &&
        MonthIndex(d) <= MonthIndex(t.date) <= MonthIndex(today)
    decreases MonthIndex(today) - MonthIndex(d)
  {
    if DateLe(d, today) && NextMonth(d).Some? {
      var next := NextMonth(d).value;
      WalkDates(userId, next, today, income, draw);
      var month := MonthTransactions(userId, d, income, draw(d));
      forall t | t in month
        ensures ValidDate(t.date) && t.userId == Some(userId) && MonthIndex(t.date) == MonthIndex(d)
      {
        var i :| 0 <= i < |month| && month[i] == t;
        if i > 0 {
          assert t == ExpenseOf(userId, d, draw(d).expenses[i - 1], i - 1);
        }
      }
    }
  }

  /** From the first of a month the step never fails, so the walk reaches
      `today` unless it would have to leave year 9999. */
  lemma {:induction false} WalkFromFirst(userId: int, d: Date, today: Date, income: int, draw: Date -> MonthDraw)
    requires ValidDate(d) && d.day == 1 && ValidDate(today) && today.year < 9999
    ensures Walk(userId, d, today, income, draw).Some?
    decreases MonthIndex(today) - MonthIndex(d)
  {
    if DateLe(d, today) {
      var next := NextMonth(d).value;
      WalkFromFirst(userId, next, today, income, draw);
    }
  }

  /** The demo data starts at 1 January 2020, so the walk does not fail
      before year 9999. */
  const SeedStart: Date := Date(2020, 1, 1)

  lemma SeedStartWalks(userId: int, today: Date, income: int, draw: Date -> MonthDraw)
    requires ValidDate(today) && today.year < 9999
    ensures Walk(userId, SeedStart, today, income, draw).Some?
  {
    WalkFromFirst(userId, SeedStart, today, income, draw);
  }

  /** From 31 January the step to February raises, so the walk ends with
      no result. */
  lemma WalkFromThirtyFirst(userId: int, income: int, draw: Date -> MonthDraw)
    ensures Walk(userId, Date(2024, 1, 31), Date(2024, 3, 1), income, draw).None?
  {
    assert NextMonth(Date(2024, 1, 31)).None?;
  }

  /** The body of one month: the income on the 1st, then each drawn
      expense on its clamped day, appended to `txs`. */
  method AddMonth(txs: seq<Transaction>, userId: int, d: Date, income: int, m: MonthDraw)
    returns (out: seq<Transaction>)
    requires 1 <= d.month <= 12
    ensures out == txs + MonthTransactions(userId, d, income, m)
  {
    out := txs + [Seeded(userId, Date(d.year, d.month, 1), income + m.incomeDelta,
                         m.incomeDescription, m.incomeCategory)];
    ghost var month := MonthTransactions(userId, d, income, m);
    var i := 0;
    while i < |m.expenses|
      invariant 0 <= i <= |m.expenses|
      invariant out == txs + month[..1 + i]
    {
      var day := ExpenseDay(d.year, d.month, i);
      var e := m.expenses[i];
      var t := Seeded(userId, Date(d.year, d.month, day), e.item.amount + e.delta,
                      e.item.description, e.item.category);
      assert t == ExpenseOf(userId, d, e, i) == month[1 + i];
      assert month[..1 + i + 1] == month[..1 + i] + [t];
      out := out + [t];
      i := i + 1;
    }
    assert month[..1 + i] == month;
  }

  /** The per-user body of the seeding loop: a user who already has more
      than 50 transactions between `start` and `today` is skipped;
      otherwise the walk runs from `start`. `existing` is that count. */
  method SeedMonthly(userId: int, income: int, start: Date, today: Date, existing: nat,
                     draw: Date -> MonthDraw)
    returns (added: Option<seq<Transaction>>)
    requires ValidDate(start) && ValidDate(today)
    ensures existing > 50 ==> added == Some([])
    ensures existing <= 50 ==> added == Walk(userId, start, today, income, draw)
  {
    if existing > 50 {
      return Some([]);
    }
    var txs: seq<Transaction> := [];
    var d := start;
    AfterAssoc([], [], Walk(userId, start, today, income, draw));
    while DateLe(d, today)
      invariant ValidDate(d)
      invariant Walk(userId, start, today, income, draw) == After(txs, Walk(userId, d, today, income, draw))
      decreases MonthIndex(today) - MonthIndex(d)
    {
      ghost var before := txs;
      txs := AddMonth(txs, userId, d, income, draw(d));
      var next := NextMonth(d);
      if next.None? {
        assert Walk(userId, d, today, income, draw) == None;
        return None;
      }
      assert Walk(userId, d, today, income, draw) ==
             After(MonthTransactions(userId, d, income, draw(d)), Walk(userId, next.value, today, income, draw));
      AfterAssoc(before, MonthTransactions(userId, d, income, draw(d)), Walk(userId, next.value, today, income, draw));
      d := next.value;
    }
    assert txs + [] == txs;
    return Some(txs);
  }
}
