/** The transaction record of the backend (new/backend/app/models.py):
    `TransactionBase` holds the fields a client may send, `Transaction` adds
    the store-assigned primary key, `TransactionCreate` is the request body
    of create and update. main.py also reads and writes a `user_id` on every
    transaction, which models.py does not declare; it is part of the record
    here, as main.py uses it. */
module Models {
  import opened Common

  /** A calendar date, as Python's `datetime.date` holds it. */
  datatype Date = Date(year: int, month: int, day: int)

  predicate IsLeapYear(y: int) {
    y % 4 == 0 && (y % 100 != 0 || y % 400 == 0)
  }

  /** Number of days of month `m` of year `y` (`calendar.monthrange(y, m)[1]`). */
  function DaysInMonth(y: int, m: int): (n: int)
    requires 1 <= m <= 12
    ensures 28 <= n <= 31
    ensures n == 31 <==> m in {1, 3, 5, 7, 8, 10, 12}
    ensures n == 28 <==> m == 2 && !IsLeapYear(y)
    ensures n == 29 <==> m == 2 && IsLeapYear(y)
    ensures n == 30 <==> m in {4, 6, 9, 11}
  {
    if m == 2 then (if IsLeapYear(y) then 29 else 28)
    else if m in {4, 6, 9, 11} then 30
    else 31
  }

  /** The dates Python's `date` type can represent (years 1 to 9999). */
  predicate ValidDate(d: Date) {
    1 <= d.year <= 9999 && 1 <= d.month <= 12 && 1 <= d.day <= DaysInMonth(d.year, d.month)
  }

  /** Python's date ordering: by year, then month, then day. */
  predicate DateLe(a: Date, b: Date) {
    a.year < b.year ||
    (a.year == b.year && (a.month < b.month || (a.month == b.month && a.day <= b.day)))
  }

  lemma DateLeTotal(a: Date, b: Date)
    ensures DateLe(a, b) || DateLe(b, a)
    ensures DateLe(a, b) && DateLe(b, a) ==> a == b
  {
  }

  lemma DateLeTransitive(a: Date, b: Date, c: Date)
    requires DateLe(a, b) && DateLe(b, c)
    ensures DateLe(a, c)
  {
  }

  /** `currency: str = "EUR"` */
  const DefaultCurrency: string := "EUR"

  /** A stored (or not yet stored) transaction. `id` is None until the store
      assigns the primary key; amounts are in cents. */
  datatype Transaction = Transaction(
    id: Option<int>,
    userId: Option<int>,
    date: Date,
    amount: int,
    currency: string,
    description: Option<string>,
    merchant: Option<string>,
    category: Option<string>)

  /** The request body of create and update: the base fields, no `id`. */
  datatype TransactionCreate = TransactionCreate(
    date: Date,
    amount: int,
    currency: string,
    description: Option<string>,
    merchant: Option<string>,
    category: Option<string>)

  /** The base fields of a transaction. */
  function Base(t: Transaction): TransactionCreate {
    TransactionCreate(t.date, t.amount, t.currency, t.description, t.merchant, t.category)
  }

  /** `Transaction(date=..., amount=...)`: the two mandatory fields given,
      every other field at its declared default. */
  function NewTransaction(date: Date, amount: int): (t: Transaction)
    ensures t.date == date && t.amount == amount
    ensures t.currency == "EUR"
    ensures t.description == None && t.merchant == None && t.category == None
    ensures t.id == None && t.userId == None
  {
    Transaction(None, None, date, amount, DefaultCurrency, None, None, None)
  }

  /** `TransactionCreate(date=..., amount=...)`: the same defaults. */
  function NewCreate(date: Date, amount: int): (p: TransactionCreate)
    ensures p.date == date && p.amount == amount && p.currency == "EUR"
    ensures p.description == None && p.merchant == None && p.category == None
  {
    TransactionCreate(date, amount, DefaultCurrency, None, None, None)
  }

  /** `Transaction.from_orm(payload)`: a table row carrying exactly the
      payload's fields, with no primary key and no owner yet. */
  function FromCreate(p: TransactionCreate): (t: Transaction)
    ensures Base(t) == p
    ensures t.id == None && t.userId == None
  {
    Transaction(None, None, p.date, p.amount, p.currency, p.description, p.merchant, p.category)
  }
}
