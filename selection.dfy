/** The check boxes of the preview grid, abstracted as one boolean per
    record in record order, and what `BarcodeGeneratorApp` derives from
    them: the select-all toggle, the label of its button, and the indices
    an export of the selection writes. */
module Selection {

  /** `sum(... isChecked() ...)`: how many boxes are checked. */
  function CountChecked(s: seq<bool>): (n: nat)
    ensures n <= |s|
  {
    if s == [] then 0 else CountChecked(s[..|s| - 1]) + (if s[|s| - 1] then 1 else 0)
  }

  /** `all(... isChecked() ...)` */
  predicate AllChecked(s: seq<bool>) {
    forall i :: 0 <= i < |s| ==> s[i]
  }

  predicate NoneChecked(s: seq<bool>) {
    forall i :: 0 <= i < |s| ==> !s[i]
  }

  /** The count reaches the total exactly when every box is checked, and is
      zero exactly when none is. */
  lemma {:induction false} CountCheckedExtremes(s: seq<bool>)
    ensures CountChecked(s) == |s| <==> AllChecked(s)
    ensures CountChecked(s) == 0 <==> NoneChecked(s)
  {
    if s != [] {
      var init := s[..|s| - 1];
      CountCheckedExtremes(init);
      assert forall i :: 0 <= i < |init| ==> init[i] == s[i];
    }
  }

  /** The effect of `toggle_select_all` on the boxes: every box becomes
      unchecked if all were checked, and checked otherwise. */
  function Toggled(s: seq<bool>): seq<bool> {
    var allSelected := AllChecked(s);
    seq(|s|, _ => !allSelected)
  }

  /** Toggle-all never leaves a partial selection: it keeps the number of
      boxes, clears a full selection, fills any other one, and does nothing
      to an empty grid. */
  lemma ToggledEffect(s: seq<bool>)
    ensures |Toggled(s)| == |s|
    ensures AllChecked(s) ==> NoneChecked(Toggled(s))
    ensures !AllChecked(s) ==> AllChecked(Toggled(s))
    ensures s == [] ==> Toggled(s) == s
  {
  }

  /** Starting from no selection on a non-empty grid, one toggle selects
      every box and a second one deselects every box again. */
  lemma ToggledTwiceFromNone(s: seq<bool>)
    requires s != [] && NoneChecked(s)
    ensures AllChecked(Toggled(s))
    ensures NoneChecked(Toggled(Toggled(s)))
  {
    assert !s[0];
  }

  const DeselectAllText: string := "Desmarcar Todos"
  const SelectAllText: string := "Selecionar Todos"
  const InvertSelectionText: string := "Inverter Seleção"

  /** `update_select_all_button`: the label for `checked` boxes checked out
      of `total`. */
  function SelectAllLabel(checked: nat, total: nat): string {
    if checked == total then DeselectAllText
    else if checked == 0 then SelectAllText
    else InvertSelectionText
  }

  /** The label says "deselect" exactly when every box is checked (an empty
      grid included), "select" exactly when the grid is non-empty and
      nothing is checked, and "invert" exactly for a partial selection. */
  lemma SelectAllLabelCases(s: seq<bool>)
    ensures SelectAllLabel(CountChecked(s), |s|) == DeselectAllText <==> AllChecked(s)
    ensures SelectAllLabel(CountChecked(s), |s|) == SelectAllText <==> s != [] && NoneChecked(s)
    ensures SelectAllLabel(CountChecked(s), |s|) == InvertSelectionText
            <==> !AllChecked(s) && !NoneChecked(s)
  {
    CountCheckedExtremes(s);
    if s != [] && NoneChecked(s) {
      assert !s[0];
    }
  }

  /** After a toggle the label is never "invert": it says "deselect" after a
      toggle that selected everything and "select" after one that cleared a
      non-empty grid. */
  lemma LabelAfterToggle(s: seq<bool>)
    ensures var t := Toggled(s);
      && SelectAllLabel(CountChecked(t), |t|) != InvertSelectionText
      && (SelectAllLabel(CountChecked(t), |t|) == DeselectAllText <==> !AllChecked(s) || s == [])
  {
    var t := Toggled(s);
    ToggledEffect(s);
    SelectAllLabelCases(t);
    if s != [] && AllChecked(s) {
      assert !t[0];
    }
  }

  /** The indices of the checked boxes, in increasing order. */
  function SelectedIndices(s: seq<bool>): (idx: seq<nat>)
    ensures forall k :: 0 <= k < |idx| ==> idx[k] < |s|
  {
    if s == [] then []
    else SelectedIndices(s[..|s| - 1]) + (if s[|s| - 1] then [|s| - 1] else [])
  }

  predicate StrictlyIncreasing(idx: seq<nat>) {
    forall k, m :: 0 <= k < m < |idx| ==> idx[k] < idx[m]
  }

  /** The selected indices are exactly the checked positions, each once, in
      increasing order, and there are as many of them as checked boxes. */
  lemma {:induction false} SelectedIndicesExact(s: seq<bool>)
    ensures var idx := SelectedIndices(s);
      && StrictlyIncreasing(idx)
      && |idx| == CountChecked(s)
      && (forall i :: 0 <= i < |s| ==> (s[i] <==> i in idx))
  {
    if s != [] {
      var init := s[..|s| - 1];
      SelectedIndicesExact(init);
      assert forall i :: 0 <= i < |init| ==> init[i] == s[i];
    }
  }

  /** `seq(n, i => i)`: the indices `enumerate` walks through. */
  function AllIndices(n: nat): (idx: seq<nat>)
    ensures |idx| == n && forall k :: 0 <= k < n ==> idx[k] == k
  {
    if n == 0 then [] else AllIndices(n - 1) + [n - 1]
  }

  /** With every box checked the selection is every index. */
  lemma {:induction false} SelectedIndicesAllChecked(s: seq<bool>)
    requires AllChecked(s)
    ensures SelectedIndices(s) == AllIndices(|s|)
  {
    if s != [] {
      SelectedIndicesAllChecked(s[..|s| - 1]);
    }
  }
}
