/**
 * The reference table (`REF_DATA`): built once from the parsed dataset, then only read.
 * A row gives, for a normalized (make, model), the price anchor `base_price` and the
 * reference year `year0`.
 */
module ReferenceTable {
  import opened Wrappers
  import opened Keys
  import opened Order

  /** One row of the reference table. `year0` may be fractional (a median of years). */
  datatype Record = Record(make: string, model: string, basePrice: real, year0: real)

  /** One transactional row: a sale of a vehicle at `price`, first registered in `registrationYear`. */
  datatype Sale = Sale(make: string, model: string, price: real, registrationYear: int)

  /**
   * The parsed dataset. The shape is a property of the whole file (its columns), so
   * every row of one dataset has the same shape.
   */
  datatype Source =
    | ReferenceRows(rows: seq<Record>)
    | SaleRows(sales: seq<Sale>, hasRegistrationYear: bool)
    | Unrecognised

  /** Which branch of the loader a header selects. */
  datatype Layout = ReferenceLayout | SaleLayout(hasRegistrationYear: bool) | NoLayout

  /** The year assumed for a transactional dataset that has no `registration_year` column. */
  const DefaultYear0: real := 2020.0

  /** The header has a column whose name, stripped and lower-cased, is `name`. */
  predicate HasColumn(header: seq<string>, name: string)
  {
    exists c :: c in header && Normalize(c) == name
  }

  /**
   * Column names are stripped and lower-cased; the four reference columns take precedence,
   * then the three transactional ones; anything else falls back to the built-in table.
   */
  function DetectLayout(header: seq<string>): (l: Layout)
    ensures l == ReferenceLayout <==>
      HasColumn(header, "make") && HasColumn(header, "model") && HasColumn(header, "base_price") && HasColumn(header, "year0")
    ensures l.SaleLayout? ==>
      HasColumn(header, "make") && HasColumn(header, "model") && HasColumn(header, "price")
      && (l.hasRegistrationYear <==> HasColumn(header, "registration_year"))
    ensures l == NoLayout ==>
      !(HasColumn(header, "make") && HasColumn(header, "model") && HasColumn(header, "price"))
  {
    var columns := set c | c in header :: Normalize(c);
    if {"make", "model", "base_price", "year0"} <= columns then ReferenceLayout
    else if {"make", "model", "price"} <= columns then SaleLayout("registration_year" in columns)
    else NoLayout
  }

  /** Every make and model in the table is stored normalized. */
  predicate KeysNormalized(t: seq<Record>)
  {
    forall i :: 0 <= i < |t| ==> IsNormalized(t[i].make) && IsNormalized(t[i].model)
  }

  /** No (make, model) appears twice. */
  predicate DistinctKeys(t: seq<Record>)
  {
    forall i, j :: 0 <= i < j < |t| ==> t[i].make != t[j].make || t[i].model != t[j].model
  }

  /** Reference-shaped data: the same rows with make and model normalized. */
  function NormalizeRows(rows: seq<Record>): (t: seq<Record>)
    ensures |t| == |rows| && KeysNormalized(t)
    ensures forall i :: 0 <= i < |t| ==>
      t[i].make == Normalize(rows[i].make) && t[i].model == Normalize(rows[i].model)
    ensures forall i :: 0 <= i < |t| ==>
      t[i].basePrice == rows[i].basePrice && t[i].year0 == rows[i].year0
  {
    seq(|rows|, i requires 0 <= i < |rows| =>
      Record(Normalize(rows[i].make), Normalize(rows[i].model), rows[i].basePrice, rows[i].year0))
  }

  /** The sales with make and model normalized. */
  function NormalizeSales(sales: seq<Sale>): (n: seq<Sale>)
    ensures |n| == |sales|
    ensures forall i :: 0 <= i < |n| ==>
      n[i].make == Normalize(sales[i].make) && n[i].model == Normalize(sales[i].model)
    ensures forall i :: 0 <= i < |n| ==>
      n[i].price == sales[i].price && n[i].registrationYear == sales[i].registrationYear
  {
    seq(|sales|, i requires 0 <= i < |sales| =>
      sales[i].(make := Normalize(sales[i].make), model := Normalize(sales[i].model)))
  }

  /** The group-by key of a (normalized) sale. */
  function SaleKey(s: Sale): (string, string)
  {
    (s.make, s.model)
  }

  /** The distinct group-by keys, in order of first appearance. */
  function GroupKeys(sales: seq<Sale>): (keys: seq<(string, string)>)
    ensures forall i, j :: 0 <= i < j < |keys| ==> keys[i] != keys[j]
    ensures forall k :: k in keys <==> exists i :: 0 <= i < |sales| && SaleKey(sales[i]) == k
    ensures keys == [] <==> sales == []
  {
    if sales == [] then []
    else
      var prefix := sales[..|sales| - 1];
      var keys := GroupKeys(prefix);
      var k := SaleKey(sales[|sales| - 1]);
      assert forall i :: 0 <= i < |prefix| ==> prefix[i] == sales[i];
      if k in keys then keys else keys + [k]
  }

  /** The sales whose key is `k`, in their original order. */
  function Group(sales: seq<Sale>, k: (string, string)): (g: seq<Sale>)
    ensures forall s :: s in g <==> s in sales && SaleKey(s) == k
    ensures forall s :: SaleKey(s) == k ==> multiset(g)[s] == multiset(sales)[s]
    ensures multiset(g) <= multiset(sales)
  {
    if sales == [] then []
    else
      var rest := Group(sales[1..], k);
      assert sales == [sales[0]] + sales[1..];
      if SaleKey(sales[0]) == k then [sales[0]] + rest else rest
  }

  function Prices(g: seq<Sale>): (p: seq<real>)
    ensures |p| == |g| && forall i :: 0 <= i < |g| ==> p[i] == g[i].price
  {
    seq(|g|, i requires 0 <= i < |g| => g[i].price)
  }

  function RegistrationYears(g: seq<Sale>): (y: seq<real>)
    ensures |y| == |g| && forall i :: 0 <= i < |g| ==> y[i] == g[i].registrationYear as real
  {
    seq(|g|, i requires 0 <= i < |g| => g[i].registrationYear as real)
  }

  /** A key that occurs in the sales has a non-empty group. */
  lemma GroupNonEmpty(sales: seq<Sale>, k: (string, string))
    requires k in GroupKeys(sales)
    ensures |Group(sales, k)| > 0
  {
    var i :| 0 <= i < |sales| && SaleKey(sales[i]) == k;
    assert sales[i] in Group(sales, k);
  }

  /** The aggregated row for one key: median price, and median registration year or 2020. */
  function GroupRecord(sales: seq<Sale>, k: (string, string), hasRegistrationYear: bool): (r: Record)
    requires k in GroupKeys(sales)
    ensures (r.make, r.model) == k
    ensures !hasRegistrationYear ==> r.year0 == DefaultYear0
  {
    var g := Group(sales, k);
    GroupNonEmpty(sales, k);
    var base := Median(Prices(g));
    Record(k.0, k.1, base, if hasRegistrationYear then Median(RegistrationYears(g)) else DefaultYear0)
  }

  /** One row per (make, model) of the normalized sales: the median price and the median registration year. */
  function GroupByKey(sales: seq<Sale>, hasRegistrationYear: bool): (t: seq<Record>)
    ensures |t| == |GroupKeys(sales)|
    ensures forall i :: 0 <= i < |t| ==> (t[i].make, t[i].model) == GroupKeys(sales)[i]
    ensures forall i :: 0 <= i < |t| ==> t[i] == GroupRecord(sales, GroupKeys(sales)[i], hasRegistrationYear)
    ensures t == [] <==> sales == []
  {
    var keys := GroupKeys(sales);
    seq(|keys|, i requires 0 <= i < |keys| => GroupRecord(sales, keys[i], hasRegistrationYear))
  }

  /** The transactional branch of the loader: normalize the key columns, then group and aggregate. */
  function Aggregate(sales: seq<Sale>, hasRegistrationYear: bool): (t: seq<Record>)
    ensures t == [] <==> sales == []
    ensures !hasRegistrationYear ==> forall i :: 0 <= i < |t| ==> t[i].year0 == DefaultYear0
  {
    GroupByKey(NormalizeSales(sales), hasRegistrationYear)
  }

  /** The table used when the dataset has neither layout. */
  function FallbackTable(): (t: seq<Record>)
    ensures |t| == 5
    ensures forall i :: 0 <= i < |t| ==> t[i].basePrice >= 12000.0 && 2018.0 <= t[i].year0 <= 2021.0
  {
    [
      Record("tesla", "model 3", 28000.0, 2019.0),
      Record("tesla", "model y", 35000.0, 2021.0),
      Record("nissan", "leaf", 12000.0, 2018.0),
      Record("volkswagen", "id.3", 20000.0, 2020.0),
      Record("volkswagen", "id.4", 26000.0, 2021.0)
    ]
  }

  /** The built-in table has five rows, stored normalized, one per key. */
  lemma FallbackTableKeys()
    ensures |FallbackTable()| == 5 && KeysNormalized(FallbackTable()) && DistinctKeys(FallbackTable())
  {
    FallbackKeysPlain();
    PlainKeysNormalized(FallbackTable());
    FallbackKeysShape();
    DistinctByShape(FallbackTable());
  }

  /*
   * Why the fallback keys are normalized and distinct, without evaluating `Normalize` on
   * literals (which the solver unfolds character by character at great cost): every key is
   * "plain" (no capital letters, no outer blanks), and any two rows differ either in the
   * length of their make or in the last character of their model.
   */

  lemma FallbackKeysPlain()
    ensures forall i :: 0 <= i < |FallbackTable()| ==>
      PlainKey(FallbackTable()[i].make) && PlainKey(FallbackTable()[i].model)
  {
    FallbackMakesPlain();
    FallbackModelsPlain();
  }

  lemma FallbackMakesPlain()
    ensures forall i :: 0 <= i < |FallbackTable()| ==> PlainKey(FallbackTable()[i].make)
  {
    assert PlainKey("tesla") && PlainKey("nissan") && PlainKey("volkswagen");
  }

  lemma FallbackModelsPlain()
    ensures forall i :: 0 <= i < |FallbackTable()| ==> PlainKey(FallbackTable()[i].model)
  {
    assert PlainKey("model 3") && PlainKey("model y") && PlainKey("leaf");
    assert PlainKey("id.3") && PlainKey("id.4");
  }

  lemma FallbackKeysShape()
    ensures forall i :: 0 <= i < |FallbackTable()| ==> FallbackTable()[i].model != []
    ensures forall i, j :: 0 <= i < j < |FallbackTable()| ==>
      var t := FallbackTable();
      |t[i].make| != |t[j].make| || t[i].model[|t[i].model| - 1] != t[j].model[|t[j].model| - 1]
  {
  }

  /** A key written with lower-case letters, digits, dots and inner spaces only. */
  predicate PlainKey(s: string)
  {
    && s != [] && s[0] != ' ' && s[|s| - 1] != ' '
    && forall i :: 0 <= i < |s| ==> 'a' <= s[i] <= 'z' || '0' <= s[i] <= '9' || s[i] == '.' || s[i] == ' '
  }

  lemma PlainKeysNormalized(t: seq<Record>)
    requires forall i :: 0 <= i < |t| ==> PlainKey(t[i].make) && PlainKey(t[i].model)
    ensures KeysNormalized(t)
  {
  }

  /** Rows whose makes differ in length or whose models end differently have distinct keys. */
  lemma DistinctByShape(t: seq<Record>)
    requires forall i :: 0 <= i < |t| ==> t[i].model != []
    requires forall i, j :: 0 <= i < j < |t| ==>
      |t[i].make| != |t[j].make| || t[i].model[|t[i].model| - 1] != t[j].model[|t[j].model| - 1]
    ensures DistinctKeys(t)
  {
  }

  /** The loader, from the parsed dataset on: one branch per layout. */
  function Build(source: Source): (t: seq<Record>)
    ensures source.ReferenceRows? ==> |t| == |source.rows|
    ensures source.SaleRows? ==> (t == [] <==> source.sales == [])
    ensures source.SaleRows? && !source.hasRegistrationYear ==>
      forall i :: 0 <= i < |t| ==> t[i].year0 == DefaultYear0
    ensures source.Unrecognised? ==> |t| == 5
  {
    match source
    case ReferenceRows(rows) => NormalizeRows(rows)
    case SaleRows(sales, hasRegistrationYear) => Aggregate(sales, hasRegistrationYear)
    case Unrecognised => FallbackTable()
  }

  /** The (make, model) keys a table holds. */
  function TableKeys(t: seq<Record>): set<(string, string)>
  {
    set i | 0 <= i < |t| :: (t[i].make, t[i].model)
  }

  /** The normalized (make, model) keys that occur among the sales. */
  function SaleKeys(sales: seq<Sale>): set<(string, string)>
  {
    set i | 0 <= i < |sales| :: (Normalize(sales[i].make), Normalize(sales[i].model))
  }

  /** Grouping yields exactly one row per key that occurs in the sales. */
  lemma GroupByOneRowPerKey(sales: seq<Sale>, hasRegistrationYear: bool)
    ensures DistinctKeys(GroupByKey(sales, hasRegistrationYear))
    ensures TableKeys(GroupByKey(sales, hasRegistrationYear)) == set i | 0 <= i < |sales| :: SaleKey(sales[i])
  {
    GroupByKeys(sales, GroupByKey(sales, hasRegistrationYear), GroupKeys(sales));
  }

  lemma GroupByKeys(sales: seq<Sale>, t: seq<Record>, keys: seq<(string, string)>)
    requires keys == GroupKeys(sales)
    requires |t| == |keys| && forall i :: 0 <= i < |t| ==> (t[i].make, t[i].model) == keys[i]
    ensures TableKeys(t) == set i | 0 <= i < |sales| :: SaleKey(sales[i])
  {
    var occurring := set i | 0 <= i < |sales| :: SaleKey(sales[i]);
    assert forall k :: k in occurring <==> k in keys;
    assert forall k :: k in TableKeys(t) <==> k in keys by {
      forall k | k in keys ensures k in TableKeys(t) {
        var j :| 0 <= j < |keys| && keys[j] == k;
        assert (t[j].make, t[j].model) == k;
      }
    }
  }

  /**
   * The transactional table has exactly one row per normalized (make, model) of the sales,
   * and every stored key is normalized.
   */
  lemma AggregateOneRowPerKey(sales: seq<Sale>, hasRegistrationYear: bool)
    ensures DistinctKeys(Aggregate(sales, hasRegistrationYear))
    ensures KeysNormalized(Aggregate(sales, hasRegistrationYear))
    ensures TableKeys(Aggregate(sales, hasRegistrationYear)) == SaleKeys(sales)
  {
    var n := NormalizeSales(sales);
    GroupByOneRowPerKey(n, hasRegistrationYear);
    NormalizedSaleKeys(sales);
    AggregateKeysNormalized(sales, hasRegistrationYear);
  }

  lemma NormalizedSaleKeys(sales: seq<Sale>)
    ensures (set i | 0 <= i < |NormalizeSales(sales)| :: SaleKey(NormalizeSales(sales)[i])) == SaleKeys(sales)
  {
    var n := NormalizeSales(sales);
    var nKeys := set i | 0 <= i < |n| :: SaleKey(n[i]);
    assert nKeys <= SaleKeys(sales) by {
      NormalizedKeysOccur(sales, n, nKeys);
    }
    assert SaleKeys(sales) <= nKeys by {
      OccurringKeysNormalized(sales, n, nKeys);
    }
  }

  lemma NormalizedKeysOccur(sales: seq<Sale>, n: seq<Sale>, nKeys: set<(string, string)>)
    requires n == NormalizeSales(sales) && nKeys == set i | 0 <= i < |n| :: SaleKey(n[i])
    ensures nKeys <= SaleKeys(sales)
  {
    forall k | k in nKeys ensures k in SaleKeys(sales) {
      var i :| 0 <= i < |n| && SaleKey(n[i]) == k;
    }
  }

  lemma OccurringKeysNormalized(sales: seq<Sale>, n: seq<Sale>, nKeys: set<(string, string)>)
    requires n == NormalizeSales(sales) && nKeys == set i | 0 <= i < |n| :: SaleKey(n[i])
    ensures SaleKeys(sales) <= nKeys
  {
    forall k | k in SaleKeys(sales) ensures k in nKeys {
      var i :| 0 <= i < |sales| && (Normalize(sales[i].make), Normalize(sales[i].model)) == k;
      assert SaleKey(n[i]) == k;
    }
  }

  lemma AggregateKeysNormalized(sales: seq<Sale>, hasRegistrationYear: bool)
    ensures KeysNormalized(Aggregate(sales, hasRegistrationYear))
  {
    var n := NormalizeSales(sales);
    var t := Aggregate(sales, hasRegistrationYear);
    forall j | 0 <= j < |t| ensures IsNormalized(t[j].make) && IsNormalized(t[j].model) {
      assert (t[j].make, t[j].model) in GroupKeys(n);
      var i :| 0 <= i < |n| && SaleKey(n[i]) == (t[j].make, t[j].model);
    }
  }

  /** The aggregated price is the median of that key's prices; the year, the median registration year or 2020. */
  lemma AggregateIsMedian(sales: seq<Sale>, hasRegistrationYear: bool, i: nat)
    requires i < |Aggregate(sales, hasRegistrationYear)|
    ensures var r := Aggregate(sales, hasRegistrationYear)[i];
      var g := Group(NormalizeSales(sales), (r.make, r.model));
      && |g| > 0
      && r.basePrice == Median(Prices(g))
      && r.year0 == (if hasRegistrationYear then Median(RegistrationYears(g)) else DefaultYear0)
  {
    var n := NormalizeSales(sales);
    var t := GroupByKey(n, hasRegistrationYear);
    var k := GroupKeys(n)[i];
    assert t[i] == GroupRecord(n, k, hasRegistrationYear);
    assert (t[i].make, t[i].model) == k;
    GroupNonEmpty(n, k);
  }

  /** Every table the loader can produce stores its keys normalized. */
  lemma BuildKeysNormalized(source: Source)
    ensures KeysNormalized(Build(source))
  {
    match source
    case ReferenceRows(_) =>
    case SaleRows(sales, hasRegistrationYear) => AggregateOneRowPerKey(sales, hasRegistrationYear);
    case Unrecognised => FallbackTableKeys();
  }

  /** Loading a table that was itself produced by the loader, as reference-shaped data, gives it back. */
  lemma {:induction false} BuildIdempotent(source: Source)
    ensures Build(ReferenceRows(Build(source))) == Build(source)
  {
    var t := Build(source);
    BuildKeysNormalized(source);
    var u := Build(ReferenceRows(t));
    forall i | 0 <= i < |t| ensures u[i] == t[i] {
      NormalizeFixesNormalized(t[i].make);
      NormalizeFixesNormalized(t[i].model);
    }
  }

  /** Sales that all share one key form a single group holding all of them. */
  lemma SingleKeyGroups(sales: seq<Sale>, k: (string, string))
    requires |sales| > 0 && forall i :: 0 <= i < |sales| ==> SaleKey(sales[i]) == k
    ensures GroupKeys(sales) == [k]
    ensures Group(sales, k) == sales
  {
    GroupKeysOfOneKey(sales, k);
    GroupOfOneKey(sales, k);
  }

  lemma {:induction false} GroupKeysOfOneKey(sales: seq<Sale>, k: (string, string))
    requires |sales| > 0 && forall i :: 0 <= i < |sales| ==> SaleKey(sales[i]) == k
    ensures GroupKeys(sales) == [k]
  {
    var prefix := sales[..|sales| - 1];
    if prefix != [] {
      GroupKeysOfOneKey(prefix, k);
    }
  }

  lemma {:induction false} GroupOfOneKey(sales: seq<Sale>, k: (string, string))
    requires forall i :: 0 <= i < |sales| ==> SaleKey(sales[i]) == k
    ensures Group(sales, k) == sales
  {
    if sales != [] {
      GroupOfOneKey(sales[1..], k);
      assert sales == [sales[0]] + sales[1..];
    }
  }

  /** The index of the first row whose stored make and model equal the given ones, searching from `from`. */
  function FirstMatch(table: seq<Record>, make: string, model: string, from: nat): (r: Option<nat>)
    requires from <= |table|
    decreases |table| - from
    ensures r.Some? ==> from <= r.value < |table| && table[r.value].make == make && table[r.value].model == model
    ensures r.Some? ==> forall j :: from <= j < r.value ==> table[j].make != make || table[j].model != model
    ensures r.None? <==> forall j :: from <= j < |table| ==> table[j].make != make || table[j].model != model
  {
    if from == |table| then None
    else if table[from].make == make && table[from].model == model then Some(from)
    else FirstMatch(table, make, model, from + 1)
  }

  /** The first row whose make and model equal the request's, both normalized. */
  function Lookup(table: seq<Record>, make: string, model: string): (r: Option<Record>)
    ensures r.Some? <==> exists i :: 0 <= i < |table| && table[i].make == Normalize(make) && table[i].model == Normalize(model)
    ensures r.Some? ==> r.value in table && r.value.make == Normalize(make) && r.value.model == Normalize(model)
    ensures r.Some? ==> exists i :: 0 <= i < |table| && r.value == table[i] && NoEarlierMatch(table, Normalize(make), Normalize(model), i)
  {
    var mk, md := Normalize(make), Normalize(model);
    match FirstMatch(table, mk, md, 0)
    case Some(i) =>
      assert table[i] in table && NoEarlierMatch(table, mk, md, i);
      Some(table[i])
    case None => None
  }

  /** No row before index `i` has the key (`make`, `model`). */
  predicate NoEarlierMatch(table: seq<Record>, make: string, model: string, i: nat)
    requires i <= |table|
  {
    forall j :: 0 <= j < i ==> table[j].make != make || table[j].model != model
  }

  /** The search depends only on the keys of the rows, not on their prices or years. */
  lemma {:induction false} FirstMatchSameKeys(t1: seq<Record>, t2: seq<Record>, make: string, model: string, from: nat)
    requires |t1| == |t2| && from <= |t1|
    requires forall i :: 0 <= i < |t1| ==> t1[i].make == t2[i].make && t1[i].model == t2[i].model
    ensures FirstMatch(t1, make, model, from) == FirstMatch(t2, make, model, from)
    decreases |t1| - from
  {
    if from < |t1| {
      FirstMatchSameKeys(t1, t2, make, model, from + 1);
    }
  }

  /** Tables that agree on keys and prices agree on whether a lookup succeeds and on the price it finds. */
  lemma LookupSameKeys(t1: seq<Record>, t2: seq<Record>, make: string, model: string)
    requires |t1| == |t2|
    requires forall i :: 0 <= i < |t1| ==>
      t1[i].make == t2[i].make && t1[i].model == t2[i].model && t1[i].basePrice == t2[i].basePrice
    ensures Lookup(t1, make, model).Some? == Lookup(t2, make, model).Some?
    ensures Lookup(t1, make, model).Some? ==>
      Lookup(t1, make, model).value.basePrice == Lookup(t2, make, model).value.basePrice
  {
    var mk, md := Normalize(make), Normalize(model);
    FirstMatchSameKeys(t1, t2, mk, md, 0);
    match FirstMatch(t1, mk, md, 0)
    case None =>
      assert Lookup(t1, make, model) == None && Lookup(t2, make, model) == None;
    case Some(i) =>
      assert Lookup(t1, make, model) == Some(t1[i]) && Lookup(t2, make, model) == Some(t2[i]);
  }

  /** With one row per key, the row found is the only one with that key. */
  lemma LookupUnique(table: seq<Record>, make: string, model: string, i: nat)
    requires DistinctKeys(table) && i < |table|
    requires table[i].make == Normalize(make) && table[i].model == Normalize(model)
    ensures Lookup(table, make, model) == Some(table[i])
  {
  }

  /** A lookup ignores the case of letters and surrounding whitespace in the request. */
  lemma LookupIgnoresFormatting(table: seq<Record>, make: string, model: string, make': string, model': string,
                                preMake: string, postMake: string, preModel: string, postModel: string)
    requires IsBlank(preMake) && IsBlank(postMake) && IsBlank(preModel) && IsBlank(postModel)
    requires SameUpToCase(make, make') && SameUpToCase(model, model')
    ensures Lookup(table, preMake + make' + postMake, preModel + model' + postModel) == Lookup(table, make, model)
  {
    NormalizeIgnoresPadding(preMake, make', postMake);
    NormalizeIgnoresPadding(preModel, model', postModel);
    NormalizeIgnoresCase(make, make');
    NormalizeIgnoresCase(model, model');
  }
}
