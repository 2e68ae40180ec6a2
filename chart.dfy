/** The data shaping of new/frontend/src/MonthlyCategoryChart.tsx: the flat
    (month, category, sum) list of the monthly statistics endpoint becomes
    one record per month for the stacked bar chart, the distinct
    categories become the bars, and each category gets a colour from a
    32-bit string hash. */
module Chart {
  import opened Common

  /** One item of the chart's input. */
  datatype Datum = Datum(month: string, category: string, sum: int)

  /** A value in a month record: the month label or a category's sum. */
  datatype Cell = Label(text: string) | Amount(value: int)

  /** A month record: property name to value. */
  type Record = map<string, Cell>

  function Months(data: seq<Datum>): (r: seq<string>)
    ensures |r| == |data| && forall i :: 0 <= i < |data| ==> r[i] == data[i].month
  {
    seq(|data|, i requires 0 <= i < |data| => data[i].month)
  }

  function CategoryNames(data: seq<Datum>): (r: seq<string>)
    ensures |r| == |data| && forall i :: 0 <= i < |data| ==> r[i] == data[i].category
  {
    seq(|data|, i requires 0 <= i < |data| => data[i].category)
  }

  /** `record[category] = sum` on a record made by `{ month }`. Such an
      object inherits from `Object.prototype`, whose `__proto__` accessor
      ignores a value that is not an object, so that key stores nothing;
      every other key gets the sum. */
  function SetSum(r: Record, category: string, sum: int): (r': Record)
    ensures category == "__proto__" ==> r' == r
    ensures category != "__proto__" ==> r' == r[category := Amount(sum)]
  {
    if category == "__proto__" then r else r[category := Amount(sum)]
  }

  /** The record of month `m` after the items of `data`: `{ month }` when
      the month first appears, then `record[category] = sum` for each of
      its items in turn. */
  function RecordOf(data: seq<Datum>, m: string): Record {
    if data == [] then map["month" := Label(m)]
    else
      var d := data[|data| - 1];
      var r := RecordOf(data[..|data| - 1], m);
      if d.month == m then SetSum(r, d.category, d.sum) else r
  }

  /** A category of month `m` holds the sum of the last item with that
      month and category: later items overwrite earlier ones. (The
      category "__proto__" is never stored; `RecordKeys` says so.) */
  lemma {:induction false} RecordLastWins(data: seq<Datum>, m: string, k: nat)
    requires k < |data| && data[k].month == m && data[k].category != "__proto__"
    requires forall j :: k < j < |data| ==> !(data[j].month == m && data[j].category == data[k].category)
    ensures data[k].category in RecordOf(data, m)
    ensures RecordOf(data, m)[data[k].category] == Amount(data[k].sum)
  {
    var n := |data| - 1;
    if k < n {
      RecordLastWins(data[..n], m, k);
    }
  }

  /** A record holds the label under `month` unless an item of its month
      has the category "month", plus exactly the categories of its month
      other than "__proto__", which is never stored. */
  lemma {:induction false} RecordKeys(data: seq<Datum>, m: string)
    ensures forall c :: c in RecordOf(data, m) <==>
      c == "month" || (c != "__proto__" && exists k :: 0 <= k < |data| && data[k].month == m && data[k].category == c)
    ensures (forall k :: 0 <= k < |data| && data[k].month == m ==> data[k].category != "month") ==>
      RecordOf(data, m)["month"] == Label(m)
  {
    if data != [] {
      var n := |data| - 1;
      RecordKeys(data[..n], m);
      forall c | c in RecordOf(data, m) && c != "month"
        ensures exists k :: 0 <= k < |data| && data[k].month == m && data[k].category == c
      {
        if c in RecordOf(data[..n], m) {
          var k :| 0 <= k < n && data[..n][k].month == m && data[..n][k].category == c;
          assert data[k] == data[..n][k];
        }
      }
      forall c | c != "__proto__" && exists k :: 0 <= k < |data| && data[k].month == m && data[k].category == c
        ensures c in RecordOf(data, m)
      {
        var k :| 0 <= k < |data| && data[k].month == m && data[k].category == c;
        if k < n {
          assert data[..n][k] == data[k];
        }
      }
    }
  }

  /** An item in category "__proto__" leaves its month's record with
      only the label. */
  lemma ProtoCategoryDropped()
    ensures RecordOf([Datum("2024-01", "__proto__", 5)], "2024-01") == map["month" := Label("2024-01")]
  {
    assert [Datum("2024-01", "__proto__", 5)][..0] == [];
  }

  /** Filling the table one item further. */
  lemma GroupStep(data: seq<Datum>, i: nat, m: string)
    requires i < |data|
    ensures Months(data[..i + 1]) == Months(data[..i]) + [data[i].month]
    ensures RecordOf(data[..i + 1], m) ==
      if data[i].month == m then SetSum(RecordOf(data[..i], m), data[i].category, data[i].sum)
      else RecordOf(data[..i], m)
    ensures Dedup(Months(data[..i + 1])) ==
      if data[i].month in Dedup(Months(data[..i])) then Dedup(Months(data[..i]))
      else Dedup(Months(data[..i])) + [data[i].month]
  {
    assert data[..i + 1][..i] == data[..i];
    assert (Months(data[..i]) + [data[i].month])[..i] == Months(data[..i]);
  }

  /** The state of the grouping loop after the items `seen`: `order` is
      the insertion order of the month keys, `table` the records. */
  ghost predicate Tabled(order: seq<string>, table: map<string, Record>, seen: seq<Datum>) {
    order == Dedup(Months(seen)) &&
    (forall m :: m in table <==> m in order) &&
    (forall m :: m in table ==> table[m] == RecordOf(seen, m))
  }

  /** One step of the `forEach`: the month's record is created as
      `{ month }` when missing, then its category is set. */
  function AddDatum(table: map<string, Record>, d: Datum): (t: map<string, Record>)
    ensures t.Keys == table.Keys + {d.month}
  {
    var t := if d.month in table then table else table[d.month := map["month" := Label(d.month)]];
    t[d.month := SetSum(t[d.month], d.category, d.sum)]
  }

  lemma TabledStep(order: seq<string>, table: map<string, Record>, data: seq<Datum>, i: nat)
    requires i < |data| && Tabled(order, table, data[..i])
    ensures Tabled(if data[i].month in table then order else order + [data[i].month],
                   AddDatum(table, data[i]), data[..i + 1])
  {
    var d := data[i];
    GroupStep(data, i, d.month);
    forall m | m in AddDatum(table, d)
      ensures AddDatum(table, d)[m] == RecordOf(data[..i + 1], m)
    {
      GroupStep(data, i, m);
      if m == d.month && m !in table {
        assert m !in Months(data[..i]);
        MonthAbsent(data[..i], m);
      }
    }
  }

  /** `grouped`: one record per distinct month, in order of first
      appearance, each holding the label and its categories' sums. */
  method Group(data: seq<Datum>) returns (records: seq<Record>)
    ensures |records| == |Dedup(Months(data))|
    ensures forall j :: 0 <= j < |records| ==> records[j] == RecordOf(data, Dedup(Months(data))[j])
  {
    var order: seq<string> := [];
    var table: map<string, Record> := map[];
    for i := 0 to |data|
      invariant Tabled(order, table, data[..i])
    {
      var d := data[i];
      TabledStep(order, table, data, i);
      ghost var before := table;
      if d.month !in table {
        table := table[d.month := map["month" := Label(d.month)]];
        order := order + [d.month];
      }
      table := table[d.month := SetSum(table[d.month], d.category, d.sum)];
      assert table == AddDatum(before, d);
    }
    assert data[..|data|] == data;
    records := seq(|order|, j requires 0 <= j < |order| => table[order[j]]);
  }

  /** A month that has not appeared has only its label. */
  lemma {:induction false} MonthAbsent(data: seq<Datum>, m: string)
    requires m !in Months(data)
    ensures RecordOf(data, m) == map["month" := Label(m)]
  {
    if data != [] {
      var n := |data| - 1;
      assert Months(data[..n]) == Months(data)[..n];
      MonthAbsent(data[..n], m);
    }
  }

  /** `categories`: the distinct categories of `data`, in order of first
      appearance. */
  function ChartCategories(data: seq<Datum>): seq<string> {
    Dedup(CategoryNames(data))
  }

  /** The bars are exactly the categories of the data, each once, in
      order of first appearance. */
  lemma ChartCategoriesSpec(data: seq<Datum>)
    ensures NoDup(ChartCategories(data))
    ensures forall c :: c in ChartCategories(data) <==> exists k :: 0 <= k < |data| && data[k].category == c
    ensures forall i, j :: 0 <= i < j < |ChartCategories(data)| ==>
      FirstIndex(CategoryNames(data), ChartCategories(data)[i]) <
      FirstIndex(CategoryNames(data), ChartCategories(data)[j])
  {
    var names := CategoryNames(data);
    forall c | c in ChartCategories(data)
      ensures exists k :: 0 <= k < |data| && data[k].category == c
    {
      var k :| 0 <= k < |names| && names[k] == c;
    }
    forall i, j | 0 <= i < j < |ChartCategories(data)|
      ensures FirstIndex(names, ChartCategories(data)[i]) < FirstIndex(names, ChartCategories(data)[j])
    {
      DedupFirstAppearance(names, i, j);
    }
  }

  // --- stringToColor ---

  /** A UTF-16 code unit, what `charCodeAt` returns. */
  newtype CodeUnit = x: int | 0 <= x < 0x1_0000

  const Modulus: int := 0x1_0000_0000

  /** ECMAScript ToInt32: the value modulo 2^32, read as a signed 32-bit
      integer. */
  function ToInt32(x: int): (r: int)
    ensures -0x8000_0000 <= r < 0x8000_0000
    ensures r % Modulus == x % Modulus
  {
    var m := x % Modulus;
    if m < 0x8000_0000 then m else m - Modulus
  }

  /** One step of the hash loop: `charCode + ((hash << 5) - hash)`, where
      the shift works on the 32-bit value and the rest on the number. */
  function HashStep(h: int, c: CodeUnit): int {
    c as int + (ToInt32(ToInt32(h) * 32) - h)
  }

  /** The hash as a value modulo 2^32: `charCode + 31 * hash` per
      character. */
  function HashMod(s: seq<CodeUnit>): (h: int)
    ensures 0 <= h < Modulus
  {
    if s == [] then 0 else (s[|s| - 1] as int + 31 * HashMod(s[..|s| - 1])) % Modulus
  }

  lemma MultipleMod(j: int)
    ensures (Modulus * j) % Modulus == 0
  {
  }

  /** `x` and `y` agree modulo 2^32 when their difference is a multiple. */
  lemma SameMod(x: int, y: int)
    requires (x - y) % Modulus == 0
    ensures x % Modulus == y % Modulus
  {
    var k := (x - y) / Modulus;
    assert x - y == Modulus * k;
  }

  /** Each step of the loop multiplies by 31 and adds the code unit,
      modulo 2^32. */
  lemma HashStepMod(h: int, c: CodeUnit)
    ensures HashStep(h, c) % Modulus == (c as int + 31 * (h % Modulus)) % Modulus
  {
    var a := ToInt32(h);
    var s := ToInt32(a * 32);
    var ka := (a - h) / Modulus;
    assert a - h == Modulus * ka by {
      assert (a - h) % Modulus == 0 by {
        var kh := h / Modulus;
        var kx := a / Modulus;
        assert h == Modulus * kh + h % Modulus;
        assert a == Modulus * kx + a % Modulus;
        assert a - h == Modulus * (kx - kh);
        MultipleMod(kx - kh);
      }
    }
    var ks := (s - a * 32) / Modulus;
    assert s - a * 32 == Modulus * ks by {
      assert (s - a * 32) % Modulus == 0 by {
        var k1 := s / Modulus;
        var k2 := (a * 32) / Modulus;
        assert s == Modulus * k1 + s % Modulus;
        assert a * 32 == Modulus * k2 + (a * 32) % Modulus;
        assert s - a * 32 == Modulus * (k1 - k2);
        MultipleMod(k1 - k2);
      }
    }
    var q := h / Modulus;
    assert h == Modulus * q + h % Modulus;
    var diff := HashStep(h, c) - (c as int + 31 * (h % Modulus));
    assert diff == Modulus * (ks + 32 * ka + 31 * q);
    MultipleMod(ks + 32 * ka + 31 * q);
    SameMod(HashStep(h, c), c as int + 31 * (h % Modulus));
  }

  /** Byte `i` (0, 1 or 2) of the 32-bit value of `h`:
      `(hash >> (i * 8)) & 0xFF`. The shift is arithmetic, a floor
      division of the signed value, and the mask keeps its residue. */
  function ShiftMask(h: int, i: nat): (b: int)
    requires i < 3
    ensures 0 <= b < 256
  {
    (ToInt32(h) / Pow256(i)) % 256
  }

  function Pow256(i: nat): (p: int)
    requires i < 3
    ensures p > 0 && Modulus % p == 0 && (Modulus / p) % 256 == 0
  {
    if i == 0 then 1 else if i == 1 then 256 else 65536
  }

  /** The byte read by the mask depends only on the value modulo 2^32. */
  lemma ShiftMaskMod(h: int, i: nat)
    requires i < 3
    ensures ShiftMask(h, i) == ((h % Modulus) / Pow256(i)) % 256
  {
    var m := h % Modulus;
    var p := Pow256(i);
    if ToInt32(h) != m {
      assert ToInt32(h) == m - Modulus;
      var w := Modulus / p;
      assert Modulus == p * w;
      assert (m - Modulus) / p == m / p - w by {
        var q := m / p;
        assert m == p * q + m % p;
        assert m - Modulus == p * (q - w) + m % p;
      }
      var z := w / 256;
      assert w == 256 * z;
      assert (m / p - 256 * z) % 256 == (m / p) % 256 by {
        SameModBy256(m / p, z);
      }
    }
  }

  lemma SameModBy256(x: int, z: int)
    ensures (x - 256 * z) % 256 == x % 256
  {
  }

  /** The lower-case hex digit of `d`, as `toString(16)` writes it. */
  function HexDigit(d: int): (c: char)
    requires 0 <= d < 16
    ensures IsHexDigit(c) && DigitValue(c) == d
  {
    if d < 10 then ('0' as int + d) as char else ('a' as int + d - 10) as char
  }

  predicate IsHexDigit(c: char) {
    '0' <= c <= '9' || 'a' <= c <= 'f'
  }

  /** `n.toString(16)` for a byte: lower-case, no leading zero. */
  function Hex(n: int): (s: string)
    requires 0 <= n < 256
    ensures 1 <= |s| <= 2
  {
    if n < 16 then [HexDigit(n)] else [HexDigit(n / 16), HexDigit(n % 16)]
  }

  /** `('00' + s).slice(-2)`: the last two characters. */
  function LastTwo(s: string): (r: string)
    ensures |r| == 2
  {
    ("00" + s)[|s|..]
  }

  /** Padding the hex form of a byte gives its two digits, high first. */
  lemma HexByte(n: int)
    requires 0 <= n < 256
    ensures LastTwo(Hex(n)) == [HexDigit(n / 16), HexDigit(n % 16)]
  {
  }

  /** `'#'` and then the padded hex of bytes 0 .. k-1 of the value `h`. */
  function ColorPrefix(h: int, k: nat): (r: string)
    requires k <= 3
    ensures |r| == 1 + 2 * k && r[0] == '#'
  {
    if k == 0 then "#"
    else
      var b := ByteOf(h, k - 1);
      HexByte(b);
      ColorPrefix(h, k - 1) + LastTwo(Hex(b))
  }

  /** The colour of a string: `'#'` and bytes 0, 1, 2 of its hash,
      lowest first, as two hex digits each. */
  function ColorOf(s: seq<CodeUnit>): (color: string)
    ensures |color| == 7 && color[0] == '#'
  {
    ColorPrefix(HashMod(s), 3)
  }

  /** The value of a lower-case hex digit. */
  function DigitValue(c: char): int {
    if '0' <= c <= '9' then c as int - '0' as int
    else if 'a' <= c <= 'f' then c as int - 'a' as int + 10
    else 0
  }

  /** Byte `i` of the 32-bit value `h`. */
  function ByteOf(h: int, i: nat): (b: int)
    requires i < 3
    ensures 0 <= b < 256
  {
    ((h % Modulus) / Pow256(i)) % 256
  }

  /** Characters 1 + 2i and 2 + 2i of a colour prefix are byte `i`'s hex
      digits. */
  lemma {:induction false} ColorPrefixDigits(h: int, k: nat, i: nat)
    requires i < k <= 3
    ensures ColorPrefix(h, k)[1 + 2 * i] == HexDigit(ByteOf(h, i) / 16)
    ensures ColorPrefix(h, k)[2 + 2 * i] == HexDigit(ByteOf(h, i) % 16)
  {
    HexByte(ByteOf(h, k - 1));
    if i < k - 1 {
      ColorPrefixDigits(h, k - 1, i);
    }
  }

  /** A colour is `'#'` and six lower-case hex digits, and reading each
      digit pair back as hex gives bytes 0, 1 and 2 of the hash. */
  lemma ColorBytes(s: seq<CodeUnit>, i: nat)
    requires i < 3
    ensures IsHexDigit(ColorOf(s)[1 + 2 * i]) && IsHexDigit(ColorOf(s)[2 + 2 * i])
    ensures 16 * DigitValue(ColorOf(s)[1 + 2 * i]) + DigitValue(ColorOf(s)[2 + 2 * i]) ==
      (HashMod(s) / Pow256(i)) % 256
  {
    var h := HashMod(s);
    var b := ByteOf(h, i);
    ColorPrefixDigits(h, 3, i);
    assert ColorOf(s)[1 + 2 * i] == HexDigit(b / 16);
    assert ColorOf(s)[2 + 2 * i] == HexDigit(b % 16);
    assert 16 * (b / 16) + b % 16 == b;
    assert b == (h / Pow256(i)) % 256 by {
      assert h % Modulus == h;
    }
  }

  /** The empty string hashes to 0 and is black. */
  lemma EmptyColor()
    ensures ColorOf([]) == "#000000"
  {
    assert HashMod([]) == 0;
    HexByte(0);
    assert LastTwo(Hex(0)) == "00";
    assert ColorPrefix(0, 1) == "#00";
    assert ColorPrefix(0, 2) == "#0000";
  }

  /** `stringToColor`: the hash loop over the code units, then three
      padded hex bytes. */
  method StringToColor(str: seq<CodeUnit>) returns (color: string)
    ensures color == ColorOf(str)
  {
    var hash := 0;
    for i := 0 to |str|
      invariant hash % Modulus == HashMod(str[..i])
    {
      HashStepMod(hash, str[i]);
      assert str[..i + 1][..i] == str[..i];
      hash := str[i] as int + (ToInt32(ToInt32(hash) * 32) - hash);
    }
    assert str[..|str|] == str;
    color := "#";
    for i := 0 to 3
      invariant color == ColorPrefix(HashMod(str), i)
    {
      ShiftMaskMod(hash, i);
      assert HashMod(str) % Modulus == HashMod(str);
      color := color + LastTwo(Hex(ShiftMask(hash, i)));
    }
  }
}
