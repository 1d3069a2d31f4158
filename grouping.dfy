/**
 * reputationchecker.py: `group_results_by_category` and the counts of the
 * two summary tables `display_results` prints after the results table.
 */
module ResultGrouping {
  import opened Models

  // ---------------------------------------------------------------------
  // group_results_by_category
  // ---------------------------------------------------------------------

  /** The categories of the results, each once, in the order they first occur: the key order of the grouped dict. */
  function CategoryOrder(rs: seq<DnsblResult>): (order: seq<string>)
    ensures forall i, j | 0 <= i < j < |order| :: order[i] != order[j]
    ensures forall k | 0 <= k < |rs| :: rs[k].category in order
    ensures forall c | c in order :: exists k | 0 <= k < |rs| :: rs[k].category == c
  {
    if rs == [] then []
    else
      var init := rs[..|rs| - 1];
      var prev := CategoryOrder(init);
      var c := rs[|rs| - 1].category;
      assert forall k | 0 <= k < |init| :: rs[k] == init[k];
      if c in prev then prev else prev + [c]
  }

  /** The results of one category, in their original order: the list the grouped dict holds under `c`. */
  function InCategory(rs: seq<DnsblResult>, c: string): (g: seq<DnsblResult>)
    ensures forall x | x in g :: x.category == c
    ensures |g| <= |rs|
    ensures (forall k | 0 <= k < |rs| :: rs[k].category != c) ==> g == []
  {
    if rs == [] then []
    else
      var init := rs[..|rs| - 1];
      assert forall k | 0 <= k < |init| :: rs[k] == init[k];
      InCategory(init, c) + (if rs[|rs| - 1].category == c then [rs[|rs| - 1]] else [])
  }

  /**
   * `group_results_by_category`: the grouped dict as its key order and its
   * map from category to the results of that category.
   */
  method GroupResultsByCategory(results: seq<DnsblResult>) returns (order: seq<string>, groups: map<string, seq<DnsblResult>>)
    ensures order == CategoryOrder(results)
    ensures forall c :: c in groups <==> c in order
    ensures Grouped(groups, results)
  {
    order := [];
    groups := map[];
    for i := 0 to |results|
      invariant order == CategoryOrder(results[..i])
      invariant forall c :: c in groups <==> c in order
      invariant Grouped(groups, results[..i])
    {
      var r := results[i];
      OrderStep(results, i);
      GroupedStep(groups, results, i);
      if r.category !in groups {
        order := order + [r.category];
        groups := groups[r.category := []];
      }
      groups := groups[r.category := groups[r.category] + [r]];
    }
    assert results[..|results|] == results;
  }

  /** Every list of `groups` holds exactly the results of its category. */
  predicate Grouped(groups: map<string, seq<DnsblResult>>, rs: seq<DnsblResult>) {
    forall c | c in groups :: groups[c] == InCategory(rs, c)
  }

  /** Appending one more result to its category's list keeps the lists exact. */
  lemma GroupedStep(groups: map<string, seq<DnsblResult>>, rs: seq<DnsblResult>, i: nat)
    requires i < |rs| && Grouped(groups, rs[..i])
    requires rs[i].category in groups || rs[i].category !in CategoryOrder(rs[..i])
    ensures var c := rs[i].category;
      var start := if c in groups then groups else groups[c := []];
      Grouped(start[c := start[c] + [rs[i]]], rs[..i + 1])
  {
    var c := rs[i].category;
    if c !in groups {
      AbsentCategoryEmpty(rs[..i], c);
    }
    var start := if c in groups then groups else groups[c := []];
    var next := start[c := start[c] + [rs[i]]];
    assert start[c] == InCategory(rs[..i], c);
    InCategoryStep(rs, i);
    forall d | d in next ensures next[d] == InCategory(rs[..i + 1], d) {
      if d != c {
        assert next[d] == groups[d];
      }
    }
  }

  lemma AbsentCategoryEmpty(rs: seq<DnsblResult>, c: string)
    requires c !in CategoryOrder(rs)
    ensures InCategory(rs, c) == []
  {
  }

  /** One more result joins the group of its own category and no other. */
  lemma InCategoryStep(rs: seq<DnsblResult>, i: nat)
    requires i < |rs|
    ensures InCategory(rs[..i + 1], rs[i].category) == InCategory(rs[..i], rs[i].category) + [rs[i]]
    ensures forall c | c != rs[i].category :: InCategory(rs[..i + 1], c) == InCategory(rs[..i], c)
  {
    assert rs[..i + 1][..i] == rs[..i];
    forall c | c != rs[i].category ensures InCategory(rs[..i + 1], c) == InCategory(rs[..i], c) {
      assert InCategory(rs[..i], c) + [] == InCategory(rs[..i], c);
    }
  }

  /** One more result adds its category to the key order when it is new. */
  lemma OrderStep(rs: seq<DnsblResult>, i: nat)
    requires i < |rs|
    ensures CategoryOrder(rs[..i + 1]) ==
      if rs[i].category in CategoryOrder(rs[..i]) then CategoryOrder(rs[..i]) else CategoryOrder(rs[..i]) + [rs[i].category]
  {
    assert rs[..i + 1][..i] == rs[..i];
  }

  // ---------------------------------------------------------------------
  // Counting over the groups
  // ---------------------------------------------------------------------

  /** The number of results that satisfy `p`. */
  function Count(rs: seq<DnsblResult>, p: DnsblResult -> bool): (n: nat)
    ensures n <= |rs|
  {
    if rs == [] then 0 else Count(rs[..|rs| - 1], p) + (if p(rs[|rs| - 1]) then 1 else 0)
  }

  /** The sum of `Count(InCategory(rs, c), p)` over the categories `cs`. */
  function SumOverCategories(cs: seq<string>, rs: seq<DnsblResult>, p: DnsblResult -> bool): nat {
    if cs == [] then 0 else Count(InCategory(rs, cs[0]), p) + SumOverCategories(cs[1..], rs, p)
  }

  lemma InCategoryAppend(rs: seq<DnsblResult>, x: DnsblResult, c: string)
    ensures InCategory(rs + [x], c) == InCategory(rs, c) + (if x.category == c then [x] else [])
  {
    assert (rs + [x])[..|rs|] == rs;
  }

  lemma CountAppend(rs: seq<DnsblResult>, x: DnsblResult, p: DnsblResult -> bool)
    ensures Count(rs + [x], p) == Count(rs, p) + (if p(x) then 1 else 0)
  {
    assert (rs + [x])[..|rs|] == rs;
  }

  lemma {:induction false} SumOverAppendedResult(cs: seq<string>, rs: seq<DnsblResult>, x: DnsblResult, p: DnsblResult -> bool)
    requires forall i, j | 0 <= i < j < |cs| :: cs[i] != cs[j]
    ensures SumOverCategories(cs, rs + [x], p) ==
      SumOverCategories(cs, rs, p) + (if x.category in cs && p(x) then 1 else 0)
  {
    if cs != [] {
      var g := InCategory(rs, cs[0]);
      assert cs == [cs[0]] + cs[1..];
      assert g + [] == g;
      assert forall j | 0 <= j < |cs[1..]| :: cs[1..][j] == cs[j + 1];
      assert x.category == cs[0] ==> x.category !in cs[1..];
      SumOverAppendedResult(cs[1..], rs, x, p);
      InCategoryAppend(rs, x, cs[0]);
      CountAppend(g, x, p);
    }
  }

  lemma {:induction false} SumOverAppendedCategory(cs: seq<string>, c: string, rs: seq<DnsblResult>, p: DnsblResult -> bool)
    ensures SumOverCategories(cs + [c], rs, p) == SumOverCategories(cs, rs, p) + Count(InCategory(rs, c), p)
  {
    if cs != [] {
      assert (cs + [c])[1..] == cs[1..] + [c];
      SumOverAppendedCategory(cs[1..], c, rs, p);
    }
  }

  /**
   * Every result is counted in exactly one group: summing a count over the
   * groups gives the count over all results.
   */
  lemma {:induction false} GroupsPartitionCounts(rs: seq<DnsblResult>, p: DnsblResult -> bool)
    ensures SumOverCategories(CategoryOrder(rs), rs, p) == Count(rs, p)
  {
    if rs != [] {
      var init := rs[..|rs| - 1];
      var x := rs[|rs| - 1];
      assert rs == init + [x];
      GroupsPartitionCounts(init, p);
      if x.category in CategoryOrder(init) {
        SeenCategoryStep(init, x, p);
      } else {
        NewCategoryStep(init, x, p);
      }
    }
  }

  /** A result of a category already seen is counted in that category's group. */
  lemma SeenCategoryStep(init: seq<DnsblResult>, x: DnsblResult, p: DnsblResult -> bool)
    requires x.category in CategoryOrder(init)
    requires SumOverCategories(CategoryOrder(init), init, p) == Count(init, p)
    ensures SumOverCategories(CategoryOrder(init + [x]), init + [x], p) == Count(init + [x], p)
  {
    var order := CategoryOrder(init);
    assert (init + [x])[..|init|] == init;
    assert CategoryOrder(init + [x]) == order;
    CountAppend(init, x, p);
    SumOverAppendedResult(order, init, x, p);
  }

  /** A result of a new category opens a group of its own, at the end. */
  lemma NewCategoryStep(init: seq<DnsblResult>, x: DnsblResult, p: DnsblResult -> bool)
    requires x.category !in CategoryOrder(init)
    requires SumOverCategories(CategoryOrder(init), init, p) == Count(init, p)
    ensures SumOverCategories(CategoryOrder(init + [x]), init + [x], p) == Count(init + [x], p)
  {
    var order := CategoryOrder(init);
    var c := x.category;
    assert (init + [x])[..|init|] == init;
    assert [] + [x] == [x];
    assert CategoryOrder(init + [x]) == order + [c];
    assert InCategory(init, c) == [];
    CountAppend(init, x, p);
    SumOverAppendedResult(order, init, x, p);
    SumOverAppendedCategory(order, c, init + [x], p);
    InCategoryAppend(init, x, c);
    CountAppend([], x, p);
  }

  // ---------------------------------------------------------------------
  // The summary tables of display_results
  // ---------------------------------------------------------------------

  predicate IsListed(r: DnsblResult) {
    r.status == "Listed"
  }

  /** The `listed_count` of the overall summary. */
  function ListedCount(rs: seq<DnsblResult>): nat {
    Count(rs, IsListed)
  }

  /** A row of the category summary table. */
  datatype SummaryRow = SummaryRow(category: string, total: nat, listed: nat, notListed: nat)

  /** The row of category `c`. */
  function Row(rs: seq<DnsblResult>, c: string): (row: SummaryRow)
    ensures row.category == c && row.listed + row.notListed == row.total
    ensures row.total == |InCategory(rs, c)|
  {
    var group := InCategory(rs, c);
    SummaryRow(c, |group|, ListedCount(group), |group| - ListedCount(group))
  }

  /** The category summary table, one row per category in the grouped dict's order. */
  function CategorySummary(rs: seq<DnsblResult>): (rows: seq<SummaryRow>)
    ensures |rows| == |CategoryOrder(rs)|
    ensures forall i | 0 <= i < |rows| :: rows[i] == Row(rs, CategoryOrder(rs)[i])
  {
    var order := CategoryOrder(rs);
    seq(|order|, i requires 0 <= i < |order| => Row(rs, order[i]))
  }

  function Totals(rows: seq<SummaryRow>): nat {
    if rows == [] then 0 else rows[0].total + Totals(rows[1..])
  }

  function Listings(rows: seq<SummaryRow>): nat {
    if rows == [] then 0 else rows[0].listed + Listings(rows[1..])
  }

  /** Every result: with it, the generic partition lemma speaks about group sizes. */
  predicate Any(r: DnsblResult) {
    true
  }

  /** Counting every result gives the length: a row's total is its group's size. */
  lemma CountAny(rs: seq<DnsblResult>)
    ensures Count(rs, Any) == |rs|
  {
  }

  lemma {:induction false} RowsSum(cs: seq<string>, rs: seq<DnsblResult>)
    ensures Totals(seq(|cs|, i requires 0 <= i < |cs| => Row(rs, cs[i]))) == SumOverCategories(cs, rs, Any)
    ensures Listings(seq(|cs|, i requires 0 <= i < |cs| => Row(rs, cs[i]))) == SumOverCategories(cs, rs, IsListed)
  {
    var rows := seq(|cs|, i requires 0 <= i < |cs| => Row(rs, cs[i]));
    if cs != [] {
      RowsSum(cs[1..], rs);
      assert rows[1..] == seq(|cs[1..]|, i requires 0 <= i < |cs[1..]| => Row(rs, cs[1..][i]));
      CountAny(InCategory(rs, cs[0]));
    }
  }

  /**
   * The category summary adds up to the overall summary: its totals sum to
   * the number of results, its listed counts to `listed_count`.
   */
  lemma SummaryAddsUp(rs: seq<DnsblResult>)
    ensures Totals(CategorySummary(rs)) == |rs|
    ensures Listings(CategorySummary(rs)) == ListedCount(rs)
  {
    var order := CategoryOrder(rs);
    assert CategorySummary(rs) == seq(|order|, i requires 0 <= i < |order| => Row(rs, order[i]));
    RowsSum(order, rs);
    GroupsPartitionCounts(rs, Any);
    GroupsPartitionCounts(rs, IsListed);
    CountAny(rs);
  }

  /** The colour of the overall summary panel: red when any service lists the target. */
  function OverallStyle(rs: seq<DnsblResult>): (style: string)
    ensures style == "red" <==> exists k | 0 <= k < |rs| :: IsListed(rs[k])
    ensures style == "red" || style == "green"
  {
    ListedPositive(rs);
    if ListedCount(rs) > 0 then "red" else "green"
  }

  lemma {:induction false} ListedPositive(rs: seq<DnsblResult>)
    ensures ListedCount(rs) > 0 <==> exists k | 0 <= k < |rs| :: IsListed(rs[k])
  {
    if rs != [] {
      var init := rs[..|rs| - 1];
      ListedPositive(init);
      assert forall k | 0 <= k < |init| :: rs[k] == init[k];
    }
  }
}
