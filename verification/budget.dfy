/**
 * `BudgetComponent`: the state of the budget page and the handlers that change it.
 *
 * The component keeps the two month bounds, the income and expense lists and the row
 * selected for "apply to all". Every handler replaces the list it edits; the new list is
 * stated through the value-level edits of module Grid, whose lemmas carry the properties.
 */
module Budget {
  import opened Months
  import opened CellInput
  import opened Grid

  /** The `type` argument of the handlers, `'income' | 'expense'`. */
  datatype Kind = Income | Expense

  function KindName(k: Kind): string
  {
    if k.Income? then "income" else "expense"
  }

  function Other(k: Kind): Kind
  {
    if k.Income? then Expense else Income
  }

  /** `selectedField`: the row and the value the context menu was opened on. */
  datatype Selection = Selection(kind: string, parentIndex: int, subIndex: int, value: real)

  class BudgetComponent {
    var start: MonthDate
    var end: MonthDate
    var startMonthModel: string
    var endMonthModel: string
    var incomeParents: seq<Parent>
    var expenseParents: seq<Parent>
    var selectedField: Selection

    /** The field initialisers; `year` is the current year, read from the clock. */
    constructor (year: int)
      ensures start == NewDate(year, 0) && end == NewDate(year, 11)
      ensures startMonthModel == "" && endMonthModel == ""
      ensures incomeParents == [] && expenseParents == []
      ensures selectedField == Selection("", 0, 0, 0.0)
      ensures GridValid()
    {
      start := NewDate(year, 0);
      end := NewDate(year, 11);
      startMonthModel := "";
      endMonthModel := "";
      incomeParents := [];
      expenseParents := [];
      selectedField := Selection("", 0, 0, 0.0);
    }

    /** `monthCount`: the number of months from the start month to the end month. */
    function MonthCount(): nat
      reads this
    {
      |MonthsBetween(start, end)|
    }

    function Parents(k: Kind): seq<Parent>
      reads this
    {
      if k.Income? then incomeParents else expenseParents
    }

    /** The month inputs and the selection, which the tree edits leave alone. */
    function Controls(): (MonthDate, MonthDate, string, string, Selection)
      reads this
    {
      (start, end, startMonthModel, endMonthModel, selectedField)
    }

    /** The grid invariant: every subcategory holds one value per month of the range. */
    predicate GridValid()
      reads this
    {
      Fits(incomeParents, MonthCount()) && Fits(expenseParents, MonthCount())
    }

    /** The target of `applyAll` exists: `'income'` selects the income list, anything else the expense list. */
    predicate SelectionTargetExists()
      reads this
    {
      var ps := if selectedField.kind == "income" then incomeParents else expenseParents;
      0 <= selectedField.parentIndex < |ps| &&
      0 <= selectedField.subIndex < |ps[selectedField.parentIndex].items|
    }

    method SetParents(k: Kind, ps: seq<Parent>)
      modifies this
      ensures Parents(k) == ps && Parents(Other(k)) == old(Parents(Other(k)))
      ensures Controls() == old(Controls())
    {
      if k.Income? {
        incomeParents := ps;
      } else {
        expenseParents := ps;
      }
    }

    /** `syncAllCategoryValuesToMonths`: resize every subcategory of both lists to the month count. */
    method SyncAllCategoryValuesToMonths()
      modifies this
      ensures incomeParents == Synced(old(incomeParents), MonthCount())
      ensures expenseParents == Synced(old(expenseParents), MonthCount())
      ensures Controls() == old(Controls())
      ensures GridValid()
    {
      var months := RangeMonths(start, end);
      var monthCount := |months|;
      incomeParents := SyncParents(incomeParents, monthCount);
      expenseParents := SyncParents(expenseParents, monthCount);
      SyncedFits(old(incomeParents), monthCount);
      SyncedFits(old(expenseParents), monthCount);
    }

    /**
     * `onStartChange`: an empty input does nothing; otherwise the input becomes the start
     * month and the grid is resized.
     */
    method OnStartChange(v: string)
      modifies this
      ensures v == "" ==> start == old(start) && startMonthModel == old(startMonthModel)
                          && incomeParents == old(incomeParents) && expenseParents == old(expenseParents)
      ensures v != "" ==> start == DateFromInput(v) && startMonthModel == v
                          && incomeParents == Synced(old(incomeParents), MonthCount())
                          && expenseParents == Synced(old(expenseParents), MonthCount())
                          && GridValid()
      ensures end == old(end) && endMonthModel == old(endMonthModel) && selectedField == old(selectedField)
    {
      if v == "" {
        return;
      }
      startMonthModel := v;
      start := DateFromInput(v);
      SyncAllCategoryValuesToMonths();
    }

    /**
     * `onEndChange`: an empty input does nothing; otherwise the input becomes the end
     * month and the grid is resized.
     */
    method OnEndChange(v: string)
      modifies this
      ensures v == "" ==> end == old(end) && endMonthModel == old(endMonthModel)
                          && incomeParents == old(incomeParents) && expenseParents == old(expenseParents)
      ensures v != "" ==> end == DateFromInput(v) && endMonthModel == v
                          && incomeParents == Synced(old(incomeParents), MonthCount())
                          && expenseParents == Synced(old(expenseParents), MonthCount())
                          && GridValid()
      ensures start == old(start) && startMonthModel == old(startMonthModel) && selectedField == old(selectedField)
    {
      if v == "" {
        return;
      }
      endMonthModel := v;
      end := DateFromInput(v);
      SyncAllCategoryValuesToMonths();
    }

    /** `addIncomeParent` / `addExpenseParent`. */
    method AddParent(k: Kind)
      modifies this
      ensures Parents(k) == WithParent(old(Parents(k)))
      ensures Parents(Other(k)) == old(Parents(Other(k)))
      ensures Controls() == old(Controls())
      ensures old(GridValid()) ==> GridValid()
    {
      var newParent := Parent("", []);
      SetParents(k, Parents(k) + [newParent]);
      if old(GridValid()) {
        EditsKeepFit(old(Parents(k)), MonthCount());
      }
    }

    /** `addIncomeSub` / `addExpenseSub`. */
    method AddSub(k: Kind, parentIndex: nat)
      requires parentIndex < |Parents(k)|
      modifies this
      ensures Parents(k) == WithSub(old(Parents(k)), parentIndex, MonthCount())
      ensures Parents(Other(k)) == old(Parents(Other(k)))
      ensures Controls() == old(Controls())
      ensures old(GridValid()) ==> GridValid()
    {
      var copy := Parents(k);
      var p := copy[parentIndex];
      var sub := Sub("", Filled(MonthCount(), 0.0));
      copy := copy[parentIndex := p.(items := p.items + [sub])];
      SetParents(k, copy);
      if old(GridValid()) {
        EditsKeepFit(old(Parents(k)), MonthCount());
      }
    }

    /** `updateSubValue`: the subcategory is replaced by one named `raw` holding zeros. */
    method UpdateSubValue(k: Kind, parentIndex: nat, subIndex: nat, raw: string)
      requires parentIndex < |Parents(k)| && subIndex < |Parents(k)[parentIndex].items|
      modifies this
      ensures Parents(k) == RenamedSub(old(Parents(k)), parentIndex, subIndex, raw, MonthCount())
      ensures Parents(Other(k)) == old(Parents(Other(k)))
      ensures Controls() == old(Controls())
      ensures old(GridValid()) ==> GridValid()
    {
      var copy := Parents(k);
      var p := copy[parentIndex];
      var newSub := Sub(raw, Filled(MonthCount(), 0.0));
      copy := copy[parentIndex := p.(items := p.items[subIndex := newSub])];
      SetParents(k, copy);
      if old(GridValid()) {
        SubEditsKeepFit(old(Parents(k)), MonthCount(), parentIndex, subIndex, raw, 0, 0.0);
      }
    }

    /** `removeSubValue`: overwrite the subcategory, then splice it out. */
    method RemoveSubValue(k: Kind, parentIndex: nat, subIndex: nat, raw: string)
      requires parentIndex < |Parents(k)| && subIndex < |Parents(k)[parentIndex].items|
      modifies this
      ensures Parents(k) == WithoutSub(old(Parents(k)), parentIndex, subIndex)
      ensures Parents(Other(k)) == old(Parents(Other(k)))
      ensures Controls() == old(Controls())
      ensures old(GridValid()) ==> GridValid()
    {
      var copy := Parents(k);
      var p := copy[parentIndex];
      var newSub := Sub(raw, Filled(MonthCount(), 0.0));
      var items := p.items[subIndex := newSub];
      items := items[..subIndex] + items[subIndex + 1..];
      assert items == p.items[..subIndex] + p.items[subIndex + 1..];
      copy := copy[parentIndex := p.(items := items)];
      SetParents(k, copy);
      if old(GridValid()) {
        SubEditsKeepFit(old(Parents(k)), MonthCount(), parentIndex, subIndex, raw, 0, 0.0);
      }
    }

    /**
     * `updateValue`: store the number read from `raw` in one cell. A parent or subcategory
     * that does not exist makes it do nothing; a month past the end extends the row.
     */
    method UpdateValue(k: Kind, parentIndex: int, subIndex: int, monthIndex: nat, raw: string)
      modifies this
      ensures var ps := old(Parents(k));
        if 0 <= parentIndex < |ps| && 0 <= subIndex < |ps[parentIndex].items|
        then Parents(k) == WithCell(ps, parentIndex, subIndex, monthIndex, CellValue(raw))
        else Parents(k) == ps
      ensures Parents(Other(k)) == old(Parents(Other(k)))
      ensures Controls() == old(Controls())
      ensures old(GridValid()) && monthIndex < MonthCount() ==> GridValid()
    {
      var val := CellValue(raw);
      var parents := Parents(k);
      if !(0 <= parentIndex < |parents|) || !(0 <= subIndex < |parents[parentIndex].items|) {
        return;
      }
      var target := parents[parentIndex].items[subIndex];
      var values := target.values;
      if monthIndex < |values| {
        values := values[monthIndex := val];
      } else {
        values := values + Filled(monthIndex - |values|, 0.0) + [val];
      }
      var p := parents[parentIndex];
      SetParents(k, parents[parentIndex := p.(items := p.items[subIndex := target.(values := values)])]);
      if old(GridValid()) && monthIndex < MonthCount() {
        SubEditsKeepFit(old(Parents(k)), MonthCount(), parentIndex, subIndex, "", monthIndex, val);
      }
    }

    /** `updateParentValue`: the parent takes the name `raw` and keeps its subcategories. */
    method UpdateParentValue(k: Kind, parentIndex: nat, raw: string)
      requires parentIndex < |Parents(k)|
      modifies this
      ensures Parents(k) == RenamedParent(old(Parents(k)), parentIndex, raw)
      ensures Parents(Other(k)) == old(Parents(Other(k)))
      ensures Controls() == old(Controls())
      ensures old(GridValid()) ==> GridValid()
    {
      var items := Parents(k);
      SetParents(k, items[..parentIndex] + [items[parentIndex].(name := raw)] + items[parentIndex + 1..]);
      if old(GridValid()) {
        EditsKeepFit(old(Parents(k)), MonthCount());
      }
    }

    /** `openingBalance`: 0 for the first month, else the profit or loss of every earlier month added up. */
    method OpeningBalance(monthIndex: int) returns (running: real)
      ensures running == Opening(incomeParents, expenseParents, monthIndex)
    {
      if monthIndex == 0 {
        return 0.0;
      }
      running := 0.0;
      var i := 0;
      while i < monthIndex
        invariant 0 <= i && (i <= monthIndex || i == 0)
        invariant running == Opening(incomeParents, expenseParents, i)
      {
        running := running + ProfitLoss(incomeParents, expenseParents, i);
        i := i + 1;
      }
    }

    /** `closingBalance`: the opening balance plus the month's profit or loss. */
    method ClosingBalance(monthIndex: int) returns (r: real)
      ensures r == Closing(incomeParents, expenseParents, monthIndex)
      ensures monthIndex >= 0 ==> r == Opening(incomeParents, expenseParents, monthIndex + 1)
    {
      var opening := OpeningBalance(monthIndex);
      r := opening + ProfitLoss(incomeParents, expenseParents, monthIndex);
    }

    /** `onRightClick`: remember the row and the value for `applyAll`. */
    method OnRightClick(k: Kind, parentIndex: int, subIndex: int, value: real)
      modifies this
      ensures selectedField == Selection(KindName(k), parentIndex, subIndex, value)
      ensures incomeParents == old(incomeParents) && expenseParents == old(expenseParents)
      ensures start == old(start) && end == old(end)
      ensures startMonthModel == old(startMonthModel) && endMonthModel == old(endMonthModel)
    {
      selectedField := Selection(KindName(k), parentIndex, subIndex, value);
    }

    /**
     * `applyAll`: the selected row becomes one copy of the selected value per month. The
     * income list is chosen only for the kind `"income"`; the selection stays as it is.
     */
    method ApplyAll()
      requires SelectionTargetExists()
      modifies this
      ensures var sel := old(selectedField);
        if sel.kind == "income"
        then incomeParents == WithRow(old(incomeParents), sel.parentIndex, sel.subIndex, sel.value, MonthCount())
             && expenseParents == old(expenseParents)
        else expenseParents == WithRow(old(expenseParents), sel.parentIndex, sel.subIndex, sel.value, MonthCount())
             && incomeParents == old(incomeParents)
      ensures Controls() == old(Controls())
      ensures old(GridValid()) ==> GridValid()
    {
      var k := if selectedField.kind == "income" then Income else Expense;
      var copy := Parents(k);
      var p := copy[selectedField.parentIndex];
      var s := selectedField.subIndex;
      var row := Filled(MonthCount(), selectedField.value);
      copy := copy[selectedField.parentIndex := p.(items := p.items[s := p.items[s].(values := row)])];
      SetParents(k, copy);
      if old(GridValid()) {
        SubEditsKeepFit(old(Parents(k)), MonthCount(), old(selectedField).parentIndex, s, "", 0, 0.0);
      }
    }
  }

  /**
   * A right click on a row followed by "apply to all" leaves that row holding one copy of
   * the value per month, every other row and both lists' names as they were, and the
   * selection still set.
   */
  method RightClickThenApplyAll(b: BudgetComponent, k: Kind, p: nat, s: nat, v: real)
    requires p < |b.Parents(k)| && s < |b.Parents(k)[p].items|
    modifies b
    ensures b.Parents(k) == WithRow(old(b.Parents(k)), p, s, v, b.MonthCount())
    ensures b.Parents(k)[p].items[s].values == Filled(b.MonthCount(), v)
    ensures b.Parents(Other(k)) == old(b.Parents(Other(k)))
    ensures b.selectedField == Selection(KindName(k), p, s, v)
  {
    b.OnRightClick(k, p, s, v);
    b.ApplyAll();
  }
}
