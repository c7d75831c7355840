/**
 * The value grid of the budget: income and expense lists of parent categories, each
 * holding subcategories with one value per month. This module holds the grid as values,
 * the positional resize that keeps it in step with the month range, the edits of the
 * category tree, and the aggregates read from it.
 */
module Grid {

  datatype Sub = Sub(name: string, values: seq<real>)

  datatype Parent = Parent(name: string, items: seq<Sub>)

  /** `Array.from({ length: n }, () => signal(v))`. */
  function Filled(n: nat, v: real): seq<real>
  {
    seq(n, _ => v)
  }

  /** A cell as both readers see it: a position past the end (a hole) reads as 0. */
  function Cell(values: seq<real>, mi: int): real
  {
    if 0 <= mi < |values| then values[mi] else 0.0
  }

  /** Every subcategory of `ps` has exactly `n` values: the grid invariant. */
  predicate Fits(ps: seq<Parent>, n: nat)
  {
    forall i, j :: 0 <= i < |ps| && 0 <= j < |ps[i].items| ==> |ps[i].items[j].values| == n
  }

  // ----- positional resize (syncAllCategoryValuesToMonths) -----

  /** The first `n` values, with missing positions filled with 0. */
  function Resized(vals: seq<real>, n: nat): seq<real>
  {
    seq(n, i requires 0 <= i < n => if i < |vals| then vals[i] else 0.0)
  }

  function SyncedItems(items: seq<Sub>, n: nat): seq<Sub>
  {
    seq(|items|, j requires 0 <= j < |items| => items[j].(values := Resized(items[j].values, n)))
  }

  /** Every subcategory of every parent resized to `n` months. */
  function Synced(ps: seq<Parent>, n: nat): seq<Parent>
  {
    seq(|ps|, i requires 0 <= i < |ps| => ps[i].(items := SyncedItems(ps[i].items, n)))
  }

  /** The inner `for` loop of the resize: keep each existing value, push 0 for a missing one. */
  method ResizeValues(vals: seq<real>, n: nat) returns (newVals: seq<real>)
    ensures newVals == Resized(vals, n)
  {
    newVals := [];
    for i := 0 to n
      invariant |newVals| == i
      invariant forall j :: 0 <= j < i ==> newVals[j] == if j < |vals| then vals[j] else 0.0
    {
      if i < |vals| {
        newVals := newVals + [vals[i]];
      } else {
        newVals := newVals + [0.0];
      }
    }
  }

  /** `p.items.forEach((s) => { ...; s.values = newVals; })`. */
  method SyncItems(items: seq<Sub>, n: nat) returns (r: seq<Sub>)
    ensures r == SyncedItems(items, n)
  {
    r := items;
    for j := 0 to |items|
      invariant |r| == |items|
      invariant forall t :: 0 <= t < j ==> r[t] == items[t].(values := Resized(items[t].values, n))
      invariant forall t :: j <= t < |items| ==> r[t] == items[t]
    {
      var newVals := ResizeValues(r[j].values, n);
      r := r[j := r[j].(values := newVals)];
    }
  }

  /** `ensureForParentList`: resize the subcategories of every parent of one list. */
  method SyncParents(ps: seq<Parent>, n: nat) returns (r: seq<Parent>)
    ensures r == Synced(ps, n)
  {
    r := ps;
    for i := 0 to |ps|
      invariant |r| == |ps|
      invariant forall t :: 0 <= t < i ==> r[t] == ps[t].(items := SyncedItems(ps[t].items, n))
      invariant forall t :: i <= t < |ps| ==> r[t] == ps[t]
    {
      var items := SyncItems(r[i].items, n);
      r := r[i := r[i].(items := items)];
    }
  }

  /**
   * Resizing keeps the values at surviving positions and reads 0 everywhere else:
   * the months that are shown read the same as before.
   */
  lemma ResizedCell(vals: seq<real>, n: nat, mi: int)
    ensures |Resized(vals, n)| == n
    ensures Cell(Resized(vals, n), mi) == if mi < n then Cell(vals, mi) else 0.0
  {
  }

  /** A value dropped by shrinking the range does not come back when it grows again. */
  lemma ResizedTwice(vals: seq<real>, m: nat, n: nat)
    ensures Resized(Resized(vals, m), n) == Resized(vals[..if m < |vals| then m else |vals|], n)
  {
    var k := if m < |vals| then m else |vals|;
    var a, b := Resized(Resized(vals, m), n), Resized(vals[..k], n);
    forall i | 0 <= i < n ensures a[i] == b[i] {
      if i < k {
        assert a[i] == vals[i] && b[i] == vals[i];
      }
    }
  }

  /** The shrink-then-grow example: [10, 20, 30] over two months, then over four. */
  lemma ResizeExample()
    ensures Resized([10.0, 20.0, 30.0], 2) == [10.0, 20.0]
    ensures Resized(Resized([10.0, 20.0, 30.0], 2), 4) == [10.0, 20.0, 0.0, 0.0]
  {
    ResizedTwice([10.0, 20.0, 30.0], 2, 4);
    assert [10.0, 20.0, 30.0][..2] == [10.0, 20.0];
  }

  /** After a resize to `n` months, every subcategory has exactly `n` values. */
  lemma SyncedFits(ps: seq<Parent>, n: nat)
    ensures Fits(Synced(ps, n), n)
  {
  }

  /** Resizing keeps the tree: the same parents, names and subcategories, in the same order. */
  lemma SyncedShape(ps: seq<Parent>, n: nat)
    ensures |Synced(ps, n)| == |ps|
    ensures forall i :: 0 <= i < |ps| ==>
      Synced(ps, n)[i].name == ps[i].name && |Synced(ps, n)[i].items| == |ps[i].items|
    ensures forall i, j :: 0 <= i < |ps| && 0 <= j < |ps[i].items| ==>
      Synced(ps, n)[i].items[j].name == ps[i].items[j].name
  {
  }

  /** A grid that already fits is left as it is, and only such a grid is. */
  lemma SyncedIdentity(ps: seq<Parent>, n: nat)
    ensures Synced(ps, n) == ps <==> Fits(ps, n)
  {
    if Fits(ps, n) {
      forall i | 0 <= i < |ps| ensures Synced(ps, n)[i] == ps[i] {
        var items := ps[i].items;
        forall j | 0 <= j < |items| ensures SyncedItems(items, n)[j] == items[j] {
          assert Resized(items[j].values, n) == items[j].values;
        }
        assert SyncedItems(items, n) == items;
      }
    } else {
      SyncedFits(ps, n);
    }
  }

  /** Resizing twice is resizing once. */
  lemma SyncedIdempotent(ps: seq<Parent>, n: nat)
    ensures Synced(Synced(ps, n), n) == Synced(ps, n)
  {
    SyncedFits(ps, n);
    SyncedIdentity(Synced(ps, n), n);
  }

  // ----- aggregates (sumParentMonth, totalIncome, totalExpenses, ...) -----

  /** `items.reduce((acc, s) => acc + cell, 0)`, folded from the left. */
  function SumItems(items: seq<Sub>, mi: int): real
  {
    if items == [] then 0.0
    else SumItems(items[..|items| - 1], mi) + Cell(items[|items| - 1].values, mi)
  }

  /** `sumParentMonth`: 0 for a parent without subcategories, else the sum of its cells. */
  function SumParentMonth(p: Parent, mi: int): real
  {
    if |p.items| == 0 then 0.0 else SumItems(p.items, mi)
  }

  /** `totalIncome` / `totalExpenses`: the parent sums of one list, folded from the left. */
  function SumParents(ps: seq<Parent>, mi: int): real
  {
    if ps == [] then 0.0
    else SumParents(ps[..|ps| - 1], mi) + SumParentMonth(ps[|ps| - 1], mi)
  }

  /** `profitLoss`. */
  function ProfitLoss(inc: seq<Parent>, exp: seq<Parent>, mi: int): real
  {
    SumParents(inc, mi) - SumParents(exp, mi)
  }

  /** The opening balance: the profit or loss of every earlier month, added up. */
  function Opening(inc: seq<Parent>, exp: seq<Parent>, mi: int): real
    decreases mi
  {
    if mi <= 0 then 0.0 else Opening(inc, exp, mi - 1) + ProfitLoss(inc, exp, mi - 1)
  }

  /** `closingBalance`. */
  function Closing(inc: seq<Parent>, exp: seq<Parent>, mi: int): real
  {
    Opening(inc, exp, mi) + ProfitLoss(inc, exp, mi)
  }

  /** Replacing one subcategory changes the sum by the difference of the two cells. */
  lemma {:induction false} SumItemsUpdate(items: seq<Sub>, k: nat, x: Sub, mi: int)
    requires k < |items|
    ensures SumItems(items[k := x], mi)
              == SumItems(items, mi) - Cell(items[k].values, mi) + Cell(x.values, mi)
  {
    var last := |items| - 1;
    var items' := items[k := x];
    if k == last {
      assert items'[..last] == items[..last];
    } else {
      assert items'[..last] == items[..last][k := x];
      SumItemsUpdate(items[..last], k, x, mi);
    }
  }

  /** Removing one subcategory takes its cell out of the sum. */
  lemma {:induction false} SumItemsRemove(items: seq<Sub>, k: nat, mi: int)
    requires k < |items|
    ensures SumItems(items[..k] + items[k + 1..], mi) == SumItems(items, mi) - Cell(items[k].values, mi)
  {
    var last := |items| - 1;
    var rest := items[..k] + items[k + 1..];
    if k == last {
      assert rest == items[..last];
    } else {
      var init := items[..last];
      assert rest[..|rest| - 1] == init[..k] + init[k + 1..];
      assert rest[|rest| - 1] == items[last];
      SumItemsRemove(init, k, mi);
    }
  }

  /** Replacing one parent changes the list sum by the difference of the two parent sums. */
  lemma {:induction false} SumParentsUpdate(ps: seq<Parent>, k: nat, q: Parent, mi: int)
    requires k < |ps|
    ensures SumParents(ps[k := q], mi)
              == SumParents(ps, mi) - SumParentMonth(ps[k], mi) + SumParentMonth(q, mi)
  {
    var last := |ps| - 1;
    var ps' := ps[k := q];
    if k == last {
      assert ps'[..last] == ps[..last];
    } else {
      assert ps'[..last] == ps[..last][k := q];
      SumParentsUpdate(ps[..last], k, q, mi);
    }
  }

  /** On a month that is shown, resizing leaves a parent's sum as it was. */
  lemma {:induction false} SyncedItemsSum(items: seq<Sub>, n: nat, mi: int)
    requires 0 <= mi < n
    ensures SumItems(SyncedItems(items, n), mi) == SumItems(items, mi)
  {
    if items != [] {
      var last := |items| - 1;
      assert SyncedItems(items, n)[..last] == SyncedItems(items[..last], n);
      SyncedItemsSum(items[..last], n, mi);
      ResizedCell(items[last].values, n, mi);
    }
  }

  /** On a month that is shown, resizing leaves every total as it was. */
  lemma {:induction false} SyncedSum(ps: seq<Parent>, n: nat, mi: int)
    requires 0 <= mi < n
    ensures SumParents(Synced(ps, n), mi) == SumParents(ps, mi)
  {
    if ps != [] {
      var last := |ps| - 1;
      assert Synced(ps, n)[..last] == Synced(ps[..last], n);
      SyncedSum(ps[..last], n, mi);
      SyncedItemsSum(ps[last].items, n, mi);
    }
  }

  /**
   * A parent without subcategories sums to 0, and so does a month that no row of the
   * parent reaches: missing cells count as 0.
   */
  lemma {:induction false} SumMissingCells(name: string, items: seq<Sub>, mi: int)
    requires forall j :: 0 <= j < |items| ==> !(0 <= mi < |items[j].values|)
    ensures SumItems(items, mi) == 0.0
    ensures SumParentMonth(Parent(name, items), mi) == 0.0
  {
    if items != [] {
      SumMissingCells(name, items[..|items| - 1], mi);
    }
  }

  // ----- the balance recurrence -----

  /** The first month opens at 0, and each month opens with the previous month's closing. */
  lemma BalanceRecurrence(inc: seq<Parent>, exp: seq<Parent>, mi: nat)
    ensures Opening(inc, exp, 0) == 0.0
    ensures Opening(inc, exp, mi + 1) == Closing(inc, exp, mi)
    ensures Closing(inc, exp, mi) == Opening(inc, exp, mi) + ProfitLoss(inc, exp, mi)
  {
  }

  /**
   * When the profit or loss of one month `mi` moves by `d` and no other month's moves,
   * every later opening balance moves by `d` and no earlier one moves.
   */
  lemma {:induction false} OpeningShift(inc: seq<Parent>, exp: seq<Parent>,
                                        inc': seq<Parent>, exp': seq<Parent>,
                                        mi: int, d: real, i: int)
    requires forall j :: ProfitLoss(inc', exp', j) == ProfitLoss(inc, exp, j) + (if j == mi then d else 0.0)
    ensures Opening(inc', exp', i) == Opening(inc, exp, i) + (if 0 <= mi < i then d else 0.0)
    decreases i
  {
    if i > 0 {
      OpeningShift(inc, exp, inc', exp', mi, d, i - 1);
    }
  }

  /** When no month's profit or loss moves, no balance moves. */
  lemma {:induction false} OpeningSame(inc: seq<Parent>, exp: seq<Parent>,
                                       inc': seq<Parent>, exp': seq<Parent>, i: int)
    requires forall j :: 0 <= j < i ==> ProfitLoss(inc', exp', j) == ProfitLoss(inc, exp, j)
    ensures Opening(inc', exp', i) == Opening(inc, exp, i)
    decreases i
  {
    if i > 0 {
      OpeningSame(inc, exp, inc', exp', i - 1);
    }
  }

  /** Two income subcategories of 100 and 50 under one parent, and a second parent of 40. */
  lemma AggregationExample()
    ensures var p := Parent("Salary", [Sub("Main", [100.0]), Sub("Bonus", [50.0])]);
      SumParentMonth(p, 0) == 150.0 &&
      SumParents([p, Parent("Other", [Sub("Rent", [40.0])])], 0) == 190.0
  {
    var p := Parent("Salary", [Sub("Main", [100.0]), Sub("Bonus", [50.0])]);
    var q := Parent("Other", [Sub("Rent", [40.0])]);
    assert p.items[..1] == [Sub("Main", [100.0])];
    assert p.items[..1][..0] == [];
    assert SumItems(p.items[..1], 0) == 100.0;
    assert SumItems(p.items, 0) == 150.0;
    assert q.items[..0] == [];
    assert SumItems(q.items, 0) == 40.0;
    assert [p, q][..1] == [p];
    assert [p][..0] == [];
    assert SumParents([p], 0) == 150.0;
  }

  /** Profit and loss of 50, -20 and 30 open at 0, 50, 30 and close at 50, 30, 60. */
  lemma BalanceExample()
    ensures var inc := [Parent("In", [Sub("Sales", [50.0, 0.0, 30.0])])];
      var exp := [Parent("Out", [Sub("Rent", [0.0, 20.0, 0.0])])];
      Opening(inc, exp, 0) == 0.0 && Opening(inc, exp, 1) == 50.0 && Opening(inc, exp, 2) == 30.0 &&
      Closing(inc, exp, 0) == 50.0 && Closing(inc, exp, 1) == 30.0 && Closing(inc, exp, 2) == 60.0
  {
    var inc := [Parent("In", [Sub("Sales", [50.0, 0.0, 30.0])])];
    var exp := [Parent("Out", [Sub("Rent", [0.0, 20.0, 0.0])])];
    assert inc[..0] == [] && exp[..0] == [];
    assert inc[0].items[..0] == [] && exp[0].items[..0] == [];
    assert ProfitLoss(inc, exp, 0) == 50.0;
    assert ProfitLoss(inc, exp, 1) == -20.0;
    assert ProfitLoss(inc, exp, 2) == 30.0;
  }

  // ----- edits of the category tree -----

  /** `addIncomeParent` / `addExpenseParent`: a parent with an empty name and no subcategories. */
  function WithParent(ps: seq<Parent>): seq<Parent>
  {
    ps + [Parent("", [])]
  }

  /** `addIncomeSub` / `addExpenseSub`: an unnamed subcategory with `n` zeros at the end of parent `p`. */
  function WithSub(ps: seq<Parent>, p: nat, n: nat): seq<Parent>
    requires p < |ps|
  {
    ps[p := ps[p].(items := ps[p].items + [Sub("", Filled(n, 0.0))])]
  }

  /** `updateSubValue`: subcategory `s` of parent `p` becomes one named `raw` with `n` zeros. */
  function RenamedSub(ps: seq<Parent>, p: nat, s: nat, raw: string, n: nat): seq<Parent>
    requires p < |ps| && s < |ps[p].items|
  {
    ps[p := ps[p].(items := ps[p].items[s := Sub(raw, Filled(n, 0.0))])]
  }

  /** `removeSubValue`: subcategory `s` of parent `p` is taken out. */
  function WithoutSub(ps: seq<Parent>, p: nat, s: nat): seq<Parent>
    requires p < |ps| && s < |ps[p].items|
  {
    ps[p := ps[p].(items := ps[p].items[..s] + ps[p].items[s + 1..])]
  }

  /** `updateParentValue`: parent `p` is renamed and keeps its subcategories. */
  function RenamedParent(ps: seq<Parent>, p: nat, raw: string): seq<Parent>
    requires p < |ps|
  {
    ps[p := ps[p].(name := raw)]
  }

  /**
   * `values[mi] = signal(v)`: overwrite the cell, or, past the end, extend the list. The
   * holes JavaScript leaves in between are modelled as zeros, which is what both readers
   * of the list make of a hole.
   */
  function SetCell(vals: seq<real>, mi: nat, v: real): seq<real>
  {
    if mi < |vals| then vals[mi := v] else vals + Filled(mi - |vals|, 0.0) + [v]
  }

  /** `updateValue` on an existing subcategory. */
  function WithCell(ps: seq<Parent>, p: nat, s: nat, mi: nat, v: real): seq<Parent>
    requires p < |ps| && s < |ps[p].items|
  {
    var sub := ps[p].items[s];
    ps[p := ps[p].(items := ps[p].items[s := sub.(values := SetCell(sub.values, mi, v))])]
  }

  /** `applyAll`: the whole row becomes `n` copies of `v`. */
  function WithRow(ps: seq<Parent>, p: nat, s: nat, v: real, n: nat): seq<Parent>
    requires p < |ps| && s < |ps[p].items|
  {
    ps[p := ps[p].(items := ps[p].items[s := ps[p].items[s].(values := Filled(n, v))])]
  }

  /** Reading a cell after writing it: the written cell reads `v`, every other reads as before. */
  lemma SetCellRead(vals: seq<real>, mi: nat, v: real, j: int)
    ensures |SetCell(vals, mi, v)| == if mi < |vals| then |vals| else mi + 1
    ensures Cell(SetCell(vals, mi, v), j) == if j == mi then v else Cell(vals, j)
  {
  }

  /** Removing a subcategory closes the gap: later subcategories move down by one, in order. */
  lemma WithoutSubShape(ps: seq<Parent>, p: nat, s: nat)
    requires p < |ps| && s < |ps[p].items|
    ensures |WithoutSub(ps, p, s)| == |ps| && WithoutSub(ps, p, s)[p].name == ps[p].name
    ensures |WithoutSub(ps, p, s)[p].items| == |ps[p].items| - 1
    ensures forall j :: 0 <= j < s ==> WithoutSub(ps, p, s)[p].items[j] == ps[p].items[j]
    ensures forall j :: s <= j < |ps[p].items| - 1 ==> WithoutSub(ps, p, s)[p].items[j] == ps[p].items[j + 1]
    ensures forall i :: 0 <= i < |ps| && i != p ==> WithoutSub(ps, p, s)[i] == ps[i]
  {
  }

  /** Every edit but an out-of-range cell write keeps the grid invariant. */
  lemma EditsKeepFit(ps: seq<Parent>, n: nat)
    requires Fits(ps, n)
    ensures Fits(WithParent(ps), n)
    ensures forall p :: 0 <= p < |ps| ==> Fits(WithSub(ps, p, n), n)
    ensures forall p, raw :: 0 <= p < |ps| ==> Fits(RenamedParent(ps, p, raw), n)
  {
    forall p | 0 <= p < |ps| ensures Fits(WithSub(ps, p, n), n) {
      var ps' := WithSub(ps, p, n);
      forall i, j | 0 <= i < |ps'| && 0 <= j < |ps'[i].items| ensures |ps'[i].items[j].values| == n {
        if i == p && j == |ps[p].items| {
          assert ps'[i].items[j] == Sub("", Filled(n, 0.0));
        } else {
          assert ps'[i].items[j] == ps[i].items[j];
        }
      }
    }
  }

  /** Renaming, removing, filling and writing a shown cell keep the grid invariant. */
  lemma SubEditsKeepFit(ps: seq<Parent>, n: nat, p: nat, s: nat, raw: string, mi: nat, v: real)
    requires Fits(ps, n) && p < |ps| && s < |ps[p].items|
    ensures Fits(RenamedSub(ps, p, s, raw, n), n)
    ensures Fits(WithoutSub(ps, p, s), n)
    ensures Fits(WithRow(ps, p, s, v, n), n)
    ensures mi < n ==> Fits(WithCell(ps, p, s, mi, v), n)
  {
    var ps' := WithoutSub(ps, p, s);
    forall i, j | 0 <= i < |ps'| && 0 <= j < |ps'[i].items| ensures |ps'[i].items[j].values| == n {
      if i == p {
        WithoutSubShape(ps, p, s);
        assert ps'[i].items[j] == ps[p].items[if j < s then j else j + 1];
      }
    }
  }

  /** A cell written past the end of a fitting row breaks the grid invariant. */
  lemma CellPastEndBreaksFit(ps: seq<Parent>, n: nat, p: nat, s: nat, mi: nat, v: real)
    requires Fits(ps, n) && p < |ps| && s < |ps[p].items| && mi >= n
    ensures !Fits(WithCell(ps, p, s, mi, v), n)
  {
    assert |WithCell(ps, p, s, mi, v)[p].items[s].values| == mi + 1;
  }

  /** Adding a parent or a subcategory, or renaming a parent, leaves every total as it was. */
  lemma AddAndRenameKeepTotals(ps: seq<Parent>, p: nat, n: nat, raw: string, mi: int)
    requires p < |ps|
    ensures SumParents(WithParent(ps), mi) == SumParents(ps, mi)
    ensures SumParents(WithSub(ps, p, n), mi) == SumParents(ps, mi)
    ensures SumParents(RenamedParent(ps, p, raw), mi) == SumParents(ps, mi)
  {
    assert WithParent(ps)[..|ps|] == ps;
    var items := ps[p].items;
    var items' := items + [Sub("", Filled(n, 0.0))];
    assert items'[..|items|] == items;
    assert Cell(items'[|items|].values, mi) == 0.0;
    assert SumItems(items', mi) == SumItems(items, mi);
    assert SumParentMonth(WithSub(ps, p, n)[p], mi) == SumParentMonth(ps[p], mi);
    SumParentsUpdate(ps, p, WithSub(ps, p, n)[p], mi);
    SumParentsUpdate(ps, p, RenamedParent(ps, p, raw)[p], mi);
  }

  /** Renaming or removing a subcategory takes its cell out of every total. */
  lemma SubEditsTotals(ps: seq<Parent>, p: nat, s: nat, raw: string, n: nat, mi: int)
    requires p < |ps| && s < |ps[p].items|
    ensures SumParents(RenamedSub(ps, p, s, raw, n), mi)
              == SumParents(ps, mi) - Cell(ps[p].items[s].values, mi)
    ensures SumParents(WithoutSub(ps, p, s), mi)
              == SumParents(ps, mi) - Cell(ps[p].items[s].values, mi)
  {
    var items := ps[p].items;
    SumItemsUpdate(items, s, Sub(raw, Filled(n, 0.0)), mi);
    SumParentsUpdate(ps, p, RenamedSub(ps, p, s, raw, n)[p], mi);
    SumItemsRemove(items, s, mi);
    SumParentsUpdate(ps, p, WithoutSub(ps, p, s)[p], mi);
  }

  /** A cell write moves the total of that month by the change of the cell, and no other total. */
  lemma WithCellTotals(ps: seq<Parent>, p: nat, s: nat, mi: nat, v: real, j: int)
    requires p < |ps| && s < |ps[p].items|
    ensures SumParents(WithCell(ps, p, s, mi, v), j)
              == SumParents(ps, j) + (if j == mi then v - Cell(ps[p].items[s].values, mi) else 0.0)
  {
    var sub := ps[p].items[s];
    var sub' := sub.(values := SetCell(sub.values, mi, v));
    SetCellRead(sub.values, mi, v, j);
    SumItemsUpdate(ps[p].items, s, sub', j);
    SumParentsUpdate(ps, p, WithCell(ps, p, s, mi, v)[p], j);
  }

  /** Filling a row moves each shown month's total by `v` less the old cell. */
  lemma WithRowTotals(ps: seq<Parent>, p: nat, s: nat, v: real, n: nat, j: int)
    requires p < |ps| && s < |ps[p].items|
    ensures SumParents(WithRow(ps, p, s, v, n), j)
              == SumParents(ps, j) - Cell(ps[p].items[s].values, j) + (if 0 <= j < n then v else 0.0)
  {
    var sub' := ps[p].items[s].(values := Filled(n, v));
    SumItemsUpdate(ps[p].items, s, sub', j);
    SumParentsUpdate(ps, p, WithRow(ps, p, s, v, n)[p], j);
  }

  /**
   * Writing an income cell of month `mi` moves that month's profit by the change of the
   * cell, and every later opening balance by the same amount.
   */
  lemma IncomeCellBalances(inc: seq<Parent>, exp: seq<Parent>, p: nat, s: nat, mi: nat, v: real, i: int)
    requires p < |inc| && s < |inc[p].items|
    ensures Opening(WithCell(inc, p, s, mi, v), exp, i)
              == Opening(inc, exp, i) + (if mi < i then v - Cell(inc[p].items[s].values, mi) else 0.0)
  {
    var d := v - Cell(inc[p].items[s].values, mi);
    var inc' := WithCell(inc, p, s, mi, v);
    forall j ensures ProfitLoss(inc', exp, j) == ProfitLoss(inc, exp, j) + (if j == mi then d else 0.0) {
      WithCellTotals(inc, p, s, mi, v, j);
    }
    OpeningShift(inc, exp, inc', exp, mi, d, i);
  }

  /**
   * Writing an expense cell of month `mi` moves every later opening balance by the change
   * of the cell, the other way.
   */
  lemma ExpenseCellBalances(inc: seq<Parent>, exp: seq<Parent>, p: nat, s: nat, mi: nat, v: real, i: int)
    requires p < |exp| && s < |exp[p].items|
    ensures Opening(inc, WithCell(exp, p, s, mi, v), i)
              == Opening(inc, exp, i) - (if mi < i then v - Cell(exp[p].items[s].values, mi) else 0.0)
  {
    var d := v - Cell(exp[p].items[s].values, mi);
    var exp' := WithCell(exp, p, s, mi, v);
    forall j ensures ProfitLoss(inc, exp', j) == ProfitLoss(inc, exp, j) + (if j == mi then -d else 0.0) {
      WithCellTotals(exp, p, s, mi, v, j);
    }
    OpeningShift(inc, exp, inc, exp', mi, -d, i);
  }
}
