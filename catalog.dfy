/** The lists behind `GET /makes` and `GET /models/{make}`. */
module Catalog {
  import opened Keys
  import opened Order
  import opened ReferenceTable

  /** The distinct makes of the table, in ascending order. */
  function Makes(table: seq<Record>): (r: seq<string>)
    ensures StrictlySorted(r)
    ensures forall m :: m in r <==> exists i :: 0 <= i < |table| && table[i].make == m
  {
    var makes := seq(|table|, i requires 0 <= i < |table| => table[i].make);
    assert forall m :: m in makes <==> exists i :: 0 <= i < |table| && table[i].make == m by {
      forall m | m in makes ensures exists i :: 0 <= i < |table| && table[i].make == m {
        var i :| 0 <= i < |makes| && makes[i] == m;
      }
      forall m | exists i :: 0 <= i < |table| && table[i].make == m ensures m in makes {
        var i :| 0 <= i < |table| && table[i].make == m;
        assert makes[i] == m;
      }
    }
    SortedUnique(makes)
  }

  /** The models of the rows whose stored make is `make`, in table order. */
  function ModelsOf(table: seq<Record>, make: string): (r: seq<string>)
    ensures forall m :: m in r <==> exists i :: 0 <= i < |table| && table[i].make == make && table[i].model == m
  {
    if table == [] then []
    else
      var rest := ModelsOf(table[1..], make);
      assert forall i :: 1 <= i < |table| ==> table[1..][i - 1] == table[i];
      if table[0].make == make then [table[0].model] + rest else rest
  }

  /**
   * The distinct models of the rows whose make equals the normalized query, in ascending
   * order; the stored rows are compared with the query as they are.
   */
  function Models(table: seq<Record>, make: string): (r: seq<string>)
    ensures StrictlySorted(r)
    ensures forall m :: m in r <==>
      exists i :: 0 <= i < |table| && table[i].make == Normalize(make) && table[i].model == m
    ensures (forall i :: 0 <= i < |table| ==> table[i].make != Normalize(make)) ==> r == []
  {
    SortedModelsOf(table, Normalize(make))
  }

  /** The distinct models stored under the make `key`, in ascending order. */
  function SortedModelsOf(table: seq<Record>, key: string): (r: seq<string>)
    ensures StrictlySorted(r)
    ensures forall m :: m in r <==> exists i :: 0 <= i < |table| && table[i].make == key && table[i].model == m
    ensures (forall i :: 0 <= i < |table| ==> table[i].make != key) ==> r == []
  {
    var models := ModelsOf(table, key);
    var r := SortedUnique(models);
    assert r != [] ==> r[0] in models;
    r
  }

  /** The makes list is the one strictly sorted listing of the distinct makes: no other answer is possible. */
  lemma MakesIsCanonical(table: seq<Record>, s: seq<string>)
    requires StrictlySorted(s)
    requires forall m :: m in s <==> exists i :: 0 <= i < |table| && table[i].make == m
    ensures s == Makes(table)
  {
    StrictlySortedUnique(s, Makes(table));
  }

  /** Likewise for the models of one make. */
  lemma ModelsIsCanonical(table: seq<Record>, make: string, s: seq<string>)
    requires StrictlySorted(s)
    requires forall m :: m in s <==>
      exists i :: 0 <= i < |table| && table[i].make == Normalize(make) && table[i].model == m
    ensures s == Models(table, make)
  {
    StrictlySortedUnique(s, Models(table, make));
  }

  /** The models query ignores the case and surrounding whitespace of the make. */
  lemma ModelsIgnoresFormatting(table: seq<Record>, make: string, make': string, pre: string, post: string)
    requires IsBlank(pre) && IsBlank(post) && SameUpToCase(make, make')
    ensures Models(table, pre + make' + post) == Models(table, make)
  {
    NormalizeIgnoresPadding(pre, make', post);
    NormalizeIgnoresCase(make, make');
  }
}
