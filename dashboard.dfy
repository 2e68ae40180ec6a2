/** The dashboard component of new/frontend/src/App.tsx: the summary
    cards' totals, the category list offered in the edit dialog, the
    required-field check of the create form and of the edit dialog, and
    the query string the filter bar sends with the transaction list
    request. Amounts are integers (cents); a JavaScript value the forms
    can hold is a `JsValue`. */
module Dashboard {
  import opened Common

  /** A transaction as the list endpoint delivers it; None stands for a
      JSON `null` or a missing key. */
  datatype ClientTx = ClientTx(id: Option<int>, date: string, amount: int,
                               description: Option<string>, category: Option<string>)

  function Amounts(ts: seq<ClientTx>): (r: seq<int>)
    ensures |r| == |ts| && forall i :: 0 <= i < |ts| ==> r[i] == ts[i].amount
  {
    seq(|ts|, i requires 0 <= i < |ts| => ts[i].amount)
  }

  /** `totalIncome`: the sum of the strictly positive amounts. */
  function TotalIncome(ts: seq<ClientTx>): int {
    Sum(Amounts(Filter(ts, (t: ClientTx) => t.amount > 0)))
  }

  /** `totalExpense`: the sum of the strictly negative amounts. */
  function TotalExpense(ts: seq<ClientTx>): int {
    Sum(Amounts(Filter(ts, (t: ClientTx) => t.amount < 0)))
  }

  /** `totalBalance`. */
  function TotalBalance(ts: seq<ClientTx>): int {
    TotalIncome(ts) + TotalExpense(ts)
  }

  /** One more transaction adds its amount to the income total when it is
      positive, and otherwise leaves that total alone. */
  lemma IncomeStep(ts: seq<ClientTx>, t: ClientTx)
    ensures TotalIncome(ts + [t]) == TotalIncome(ts) + (if t.amount > 0 then t.amount else 0)
  {
    assert (ts + [t])[..|ts|] == ts;
    var inc := Filter(ts, (u: ClientTx) => u.amount > 0);
    assert Amounts(inc + [t])[..|inc|] == Amounts(inc);
  }

  /** One more transaction adds its amount to the expense total when it is
      negative, and otherwise leaves that total alone. */
  lemma ExpenseStep(ts: seq<ClientTx>, t: ClientTx)
    ensures TotalExpense(ts + [t]) == TotalExpense(ts) + (if t.amount < 0 then t.amount else 0)
  {
    assert (ts + [t])[..|ts|] == ts;
    var exp := Filter(ts, (u: ClientTx) => u.amount < 0);
    assert Amounts(exp + [t])[..|exp|] == Amounts(exp);
  }

  lemma AmountsStep(ts: seq<ClientTx>, t: ClientTx)
    ensures Sum(Amounts(ts + [t])) == Sum(Amounts(ts)) + t.amount
  {
    assert Amounts(ts + [t])[..|ts|] == Amounts(ts);
  }

  /** Both totals after one more transaction. */
  lemma TotalsStep(ts: seq<ClientTx>, t: ClientTx)
    ensures TotalIncome(ts + [t]) == TotalIncome(ts) + (if t.amount > 0 then t.amount else 0)
    ensures TotalExpense(ts + [t]) == TotalExpense(ts) + (if t.amount < 0 then t.amount else 0)
    ensures Sum(Amounts(ts + [t])) == Sum(Amounts(ts)) + t.amount
  {
    IncomeStep(ts, t);
    ExpenseStep(ts, t);
    AmountsStep(ts, t);
  }

  /** Income is never negative and expenses never positive. */
  lemma {:induction false} TotalsSigns(ts: seq<ClientTx>)
    ensures TotalIncome(ts) >= 0 >= TotalExpense(ts)
  {
    if ts != [] {
      var n := |ts| - 1;
      TotalsSigns(ts[..n]);
      TotalsStep(ts[..n], ts[n]);
      assert ts[..n] + [ts[n]] == ts;
    }
  }

  /** The balance is the sum of all amounts: zero amounts count in
      neither total and change no sum. */
  lemma {:induction false} BalanceIsSum(ts: seq<ClientTx>)
    ensures TotalBalance(ts) == Sum(Amounts(ts))
  {
    if ts != [] {
      var n := |ts| - 1;
      BalanceIsSum(ts[..n]);
      TotalsStep(ts[..n], ts[n]);
      assert ts[..n] + [ts[n]] == ts;
    }
  }

  lemma TotalsExample()
    ensures var ts := [ClientTx(None, "2024-01-01", 1200, None, None),
                       ClientTx(None, "2024-01-02", 0, None, None),
                       ClientTx(None, "2024-01-03", -50, None, None)];
      TotalIncome(ts) == 1200 && TotalExpense(ts) == -50 && TotalBalance(ts) == 1150
  {
    var a := ClientTx(None, "2024-01-01", 1200, None, None);
    var b := ClientTx(None, "2024-01-02", 0, None, None);
    var c := ClientTx(None, "2024-01-03", -50, None, None);
    assert TotalIncome([]) == 0 && TotalExpense([]) == 0;
    assert [a] == [] + [a];
    IncomeStep([], a);
    ExpenseStep([], a);
    assert [a, b] == [a] + [b];
    IncomeStep([a], b);
    ExpenseStep([a], b);
    assert [a, b, c] == [a, b] + [c];
    IncomeStep([a, b], c);
    ExpenseStep([a, b], c);
  }

  /** The `category` of each transaction, missing ones included. The
      chart's `Chart.CategoryNames` is the same projection of a different
      record, whose category is always present. */
  function CategoryValues(ts: seq<ClientTx>): (r: seq<Option<string>>)
    ensures |r| == |ts| && forall i :: 0 <= i < |ts| ==> r[i] == ts[i].category
  {
    seq(|ts|, i requires 0 <= i < |ts| => ts[i].category)
  }

  /** The strings among `s`, in order (`filter(cat => typeof cat === 'string')`). */
  function Defined(s: seq<Option<string>>): (r: seq<string>)
    ensures forall c :: c in r <==> Some(c) in s
  {
    if s == [] then []
    else
      var n := |s| - 1;
      assert s == s[..n] + [s[n]];
      match s[n]
      case None => Defined(s[..n])
      case Some(c) => Defined(s[..n]) + [c]
  }

  /** `categories`: the distinct categories of the list, without the
      missing ones, in order of first appearance. */
  function Categories(ts: seq<ClientTx>): seq<string> {
    Defined(Dedup(CategoryValues(ts)))
  }

  lemma {:induction false} DefinedNoDup(s: seq<Option<string>>)
    requires NoDup(s)
    ensures NoDup(Defined(s))
  {
    if s != [] {
      var n := |s| - 1;
      assert NoDup(s[..n]);
      DefinedNoDup(s[..n]);
      assert s[n] !in s[..n];
    }
  }

  lemma {:induction false} DefinedOrder(s: seq<Option<string>>, i: nat, j: nat)
    requires i < j < |Defined(s)|
    ensures exists a, b :: 0 <= a < b < |s| && s[a] == Some(Defined(s)[i]) && s[b] == Some(Defined(s)[j])
  {
    var n := |s| - 1;
    var d := Defined(s[..n]);
    if j < |d| {
      assert Defined(s)[i] == d[i] && Defined(s)[j] == d[j];
      DefinedOrder(s[..n], i, j);
      var a, b :| 0 <= a < b < n && s[..n][a] == Some(d[i]) && s[..n][b] == Some(d[j]);
      assert s[a] == Some(Defined(s)[i]) && s[b] == Some(Defined(s)[j]);
    } else {
      assert s[n] == Some(Defined(s)[j]);
      assert Defined(s)[i] == d[i] && Some(d[i]) in s[..n];
      var a :| 0 <= a < n && s[..n][a] == Some(d[i]);
      assert s[a] == Some(Defined(s)[i]);
    }
  }

  /** The category list has no repeats, holds exactly the categories the
      transactions carry, and lists them in order of first appearance. */
  lemma CategoriesSpec(ts: seq<ClientTx>)
    ensures NoDup(Categories(ts))
    ensures forall c :: c in Categories(ts) <==> exists k :: 0 <= k < |ts| && ts[k].category == Some(c)
    ensures forall i, j :: 0 <= i < j < |Categories(ts)| ==>
      FirstIndex(CategoryValues(ts), Some(Categories(ts)[i])) <
      FirstIndex(CategoryValues(ts), Some(Categories(ts)[j]))
  {
    var vs := CategoryValues(ts);
    DefinedNoDup(Dedup(vs));
    forall c | c in Categories(ts)
      ensures exists k :: 0 <= k < |ts| && ts[k].category == Some(c)
    {
      assert Some(c) in vs;
      var k :| 0 <= k < |vs| && vs[k] == Some(c);
    }
    forall i, j | 0 <= i < j < |Categories(ts)|
      ensures FirstIndex(vs, Some(Categories(ts)[i])) < FirstIndex(vs, Some(Categories(ts)[j]))
    {
      DefinedOrder(Dedup(vs), i, j);
      var a, b :| 0 <= a < b < |Dedup(vs)| && Dedup(vs)[a] == Some(Categories(ts)[i]) &&
                  Dedup(vs)[b] == Some(Categories(ts)[j]);
      DedupFirstAppearance(vs, a, b);
    }
  }

  /** The values a form field can hold. */
  datatype JsValue = Undefined | Null | Str(s: string) | Num(n: int)

  /** JavaScript truthiness: the empty string, 0, `null` and `undefined`
      are falsy. */
  predicate Truthy(v: JsValue) {
    match v
    case Undefined => false
    case Null => false
    case Str(s) => s != ""
    case Num(n) => n != 0
  }

  /** The fields of the create form and of the edit dialog. */
  datatype Field = DateField | AmountField | DescriptionField | CategoryField

  datatype Form = Form(date: JsValue, amount: JsValue, description: JsValue, category: JsValue)

  /** `{ ...form, [name]: value }`: an input stores its raw text. */
  function WithField(f: Form, field: Field, text: string): (r: Form)
    ensures field == DateField ==> r == f.(date := Str(text))
    ensures field == AmountField ==> r == f.(amount := Str(text))
    ensures field == DescriptionField ==> r == f.(description := Str(text))
    ensures field == CategoryField ==> r == f.(category := Str(text))
  {
    match field
    case DateField => f.(date := Str(text))
    case AmountField => f.(amount := Str(text))
    case DescriptionField => f.(description := Str(text))
    case CategoryField => f.(category := Str(text))
  }

  /** The required-field check of both forms: date, amount and
      description must be truthy. */
  predicate Complete(f: Form) {
    Truthy(f.date) && Truthy(f.amount) && Truthy(f.description)
  }

  /** The create form's initial value and its value after a save. */
  const EmptyForm: Form := Form(Str(""), Num(0), Str(""), Str(""))

  const RequiredMessage: string := "Bitte alle Pflichtfelder ausfüllen!"
  const SavedMessage: string := "Transaktion gespeichert!"

  /** JavaScript truthiness of the amount field: a text amount is falsy
      exactly when it is `""`, a number exactly when it is 0. So the
      initial form is rejected, the untouched 0 is rejected, and a typed
      `"0"` is accepted. */
  lemma CompleteSpec(f: Form)
    ensures f.amount.Str? ==> (Truthy(f.amount) <==> f.amount != Str(""))
    ensures f.amount.Num? ==> (Truthy(f.amount) <==> f.amount != Num(0))
    ensures !Complete(EmptyForm)
    ensures Truthy(f.date) && Truthy(f.description) ==> Complete(f.(amount := Str("0")))
    ensures !Complete(f.(amount := Num(0)))
  {
  }

  /** The six values of the filter bar. */
  datatype Filters = Filters(search: string, category: string, minAmount: string,
                             maxAmount: string, fromDate: string, toDate: string)

  /** Every query parameter with its value, in the order the request
      lists them. */
  function Candidates(f: Filters): (r: seq<(string, string)>)
    ensures |r| == 6
  {
    [("q", f.search), ("category", f.category), ("min_amount", f.minAmount),
     ("max_amount", f.maxAmount), ("from_date", f.fromDate), ("to_date", f.toDate)]
  }

  /** The query: the parameters whose value is non-empty, in that order. */
  function QueryOf(f: Filters): seq<(string, string)> {
    Filter(Candidates(f), NonEmpty)
  }

  predicate NonEmpty(p: (string, string)) {
    p.1 != ""
  }

  /** A parameter is sent exactly when its filter value is non-empty, with
      that value; nothing else is sent; and the parameters keep their
      fixed order. */
  lemma QuerySpec(f: Filters)
    ensures forall j :: 0 <= j < 6 ==> (Candidates(f)[j] in QueryOf(f) <==> Candidates(f)[j].1 != "")
    ensures forall p :: p in QueryOf(f) ==> p in Candidates(f) && p.1 != ""
    ensures forall i, j :: 0 <= i < j < |QueryOf(f)| ==>
      exists a, b :: 0 <= a < b < 6 && QueryOf(f)[i] == Candidates(f)[a] && QueryOf(f)[j] == Candidates(f)[b]
  {
    forall i, j | 0 <= i < j < |QueryOf(f)|
      ensures exists a, b :: 0 <= a < b < 6 && QueryOf(f)[i] == Candidates(f)[a] && QueryOf(f)[j] == Candidates(f)[b]
    {
      FilterOrder(Candidates(f), NonEmpty, i, j);
    }
  }

  /** With every filter empty no parameter is sent. */
  lemma EmptyFiltersEmptyQuery()
    ensures QueryOf(Filters("", "", "", "", "", "")) == []
  {
    QueryUnfold(Filters("", "", "", "", "", ""));
  }

  /** The parameter `key` when `value` is non-empty. */
  function Param(key: string, value: string): seq<(string, string)> {
    if value != "" then [(key, value)] else []
  }

  /** The query of the first three filters. */
  lemma QueryFirstHalf(f: Filters)
    ensures Filter(Candidates(f)[..3], NonEmpty) ==
      [] + Param("q", f.search) + Param("category", f.category) + Param("min_amount", f.minAmount)
  {
    var cs := Candidates(f);
    assert cs[..0] == [];
    QueryStep(cs, 0, []);
    QueryStep(cs, 1, [] + Param("q", f.search));
    QueryStep(cs, 2, [] + Param("q", f.search) + Param("category", f.category));
  }

  /** The query of the first five filters. */
  lemma QueryFirstFive(f: Filters)
    ensures Filter(Candidates(f)[..5], NonEmpty) ==
      [] + Param("q", f.search) + Param("category", f.category) + Param("min_amount", f.minAmount) +
      Param("max_amount", f.maxAmount) + Param("from_date", f.fromDate)
  {
    var cs := Candidates(f);
    var half := [] + Param("q", f.search) + Param("category", f.category) + Param("min_amount", f.minAmount);
    QueryFirstHalf(f);
    QueryStep(cs, 3, half);
    QueryStep(cs, 4, half + Param("max_amount", f.maxAmount));
  }

  /** The query, one filter after the other, as the request builds it. */
  lemma QueryUnfold(f: Filters)
    ensures QueryOf(f) ==
      [] + Param("q", f.search) + Param("category", f.category) + Param("min_amount", f.minAmount) +
      Param("max_amount", f.maxAmount) + Param("from_date", f.fromDate) + Param("to_date", f.toDate)
  {
    var cs := Candidates(f);
    QueryFirstFive(f);
    QueryStep(cs, 5, [] + Param("q", f.search) + Param("category", f.category) + Param("min_amount", f.minAmount) +
                     Param("max_amount", f.maxAmount) + Param("from_date", f.fromDate));
    assert cs[..6] == cs;
  }

  lemma QueryStep(cs: seq<(string, string)>, n: nat, acc: seq<(string, string)>)
    requires n < |cs| && Filter(cs[..n], NonEmpty) == acc
    ensures Filter(cs[..n + 1], NonEmpty) == acc + Param(cs[n].0, cs[n].1)
  {
    FilterSnoc(cs, n, NonEmpty);
  }

  /** `if (value) params.append(key, value)` */
  method AppendIf(params: seq<(string, string)>, key: string, value: string)
    returns (r: seq<(string, string)>)
    ensures r == params + Param(key, value)
  {
    r := params;
    if value != "" {
      r := r + [(key, value)];
    }
  }

  /** The state of the dashboard that its handlers change: the filter bar
      and the create form with its messages. */
  class DashboardState {
    var search: string
    var filterCategory: string
    var minAmount: string
    var maxAmount: string
    var fromDate: string
    var toDate: string
    var form: Form
    var formError: Option<string>
    var formSuccess: Option<string>

    function CurrentFilters(): (f: Filters)
      reads this
    {
      Filters(search, filterCategory, minAmount, maxAmount, fromDate, toDate)
    }

    /** Initial state: empty filters, the empty form, no messages. */
    constructor()
      ensures CurrentFilters() == Filters("", "", "", "", "", "")
      ensures form == EmptyForm && formError == None && formSuccess == None
    {
      search, filterCategory, minAmount, maxAmount, fromDate, toDate := "", "", "", "", "", "";
      form := EmptyForm;
      formError, formSuccess := None, None;
    }

    /** The query string's parameters, appended one filter at a time. */
    method BuildQuery() returns (params: seq<(string, string)>)
      ensures params == QueryOf(CurrentFilters())
    {
      params := AppendIf([], "q", search);
      params := AppendIf(params, "category", filterCategory);
      params := AppendIf(params, "min_amount", minAmount);
      params := AppendIf(params, "max_amount", maxAmount);
      params := AppendIf(params, "from_date", fromDate);
      params := AppendIf(params, "to_date", toDate);
      QueryUnfold(CurrentFilters());
    }

    /** The reset button: every filter back to `''`. */
    method ResetFilters()
      modifies this
      ensures CurrentFilters() == Filters("", "", "", "", "", "")
      ensures QueryOf(CurrentFilters()) == []
      ensures form == old(form) && formError == old(formError) && formSuccess == old(formSuccess)
    {
      search, filterCategory, minAmount, maxAmount, fromDate, toDate := "", "", "", "", "", "";
      EmptyFiltersEmptyQuery();
    }

    /** `handleChange` of the create form. */
    method HandleChange(field: Field, text: string)
      modifies this
      ensures form == WithField(old(form), field, text)
      ensures CurrentFilters() == old(CurrentFilters())
      ensures formError == old(formError) && formSuccess == old(formSuccess)
    {
      form := WithField(form, field, text);
    }

    /** `handleSubmit`: clears both messages, then either reports the
      missing fields and sends nothing, or returns the form to post. */
    method HandleSubmit() returns (request: Option<Form>)
      modifies this
      ensures request.Some? <==> Complete(old(form))
      ensures request.Some? ==> request.value == old(form)
      ensures formError == (if Complete(old(form)) then None else Some(RequiredMessage))
      ensures formSuccess == None
      ensures form == old(form) && CurrentFilters() == old(CurrentFilters())
    {
      formError := None;
      formSuccess := None;
      if !(Truthy(form.date) && Truthy(form.amount) && Truthy(form.description)) {
        formError := Some(RequiredMessage);
        return None;
      }
      return Some(form);
    }

    /** A successful save: the success message, and the form back to its
        initial value, which cannot be submitted again as it is. */
    method OnSaved()
      modifies this
      ensures formSuccess == Some(SavedMessage) && form == EmptyForm && !Complete(form)
      ensures formError == old(formError) && CurrentFilters() == old(CurrentFilters())
    {
      formSuccess := Some(SavedMessage);
      form := EmptyForm;
    }
  }

  /** The edit dialog: a copy of the transaction as its form, and an error
      message. */
  class EditModal {
    const id: Option<int>
    var form: Form
    var error: Option<string>

    /** `useState({...transaction})`: a missing description or category
        becomes `null`. */
    constructor(t: ClientTx)
      ensures id == t.id && error == None
      ensures form.date == Str(t.date) && form.amount == Num(t.amount)
      ensures form.description == (if t.description.Some? then Str(t.description.value) else Null)
      ensures form.category == (if t.category.Some? then Str(t.category.value) else Null)
    {
      id := t.id;
      form := Form(Str(t.date), Num(t.amount),
                   if t.description.Some? then Str(t.description.value) else Null,
                   if t.category.Some? then Str(t.category.value) else Null);
      error := None;
    }

    method HandleChange(field: Field, text: string)
      modifies this
      ensures form == WithField(old(form), field, text) && error == old(error)
    {
      form := WithField(form, field, text);
    }

    /** `handleSubmit` of the dialog: the same required-field check; the
        form goes to `onSave` only when it passes. */
    method HandleSubmit() returns (saved: Option<Form>)
      modifies this
      ensures saved.Some? <==> Complete(old(form))
      ensures saved.Some? ==> saved.value == old(form)
      ensures error == (if Complete(old(form)) then None else Some(RequiredMessage))
      ensures form == old(form)
    {
      error := None;
      if !(Truthy(form.date) && Truthy(form.amount) && Truthy(form.description)) {
        error := Some(RequiredMessage);
        return None;
      }
      return Some(form);
    }
  }
}
