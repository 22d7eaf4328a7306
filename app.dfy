/** The state `BarcodeGeneratorApp` keeps and changes: the record list, the
    check box of every preview row, the text of the select-all button, the
    input fields, and the progress bar. The widgets themselves are not
    modelled; each is reduced to the value the code reads from it or
    writes to it.

    A slot that raises ends the application: PyQt6 answers an unhandled
    exception in a slot with a fatal error. `alive` records whether that
    happened; no slot runs afterwards. */
module App {
  import opened Generator
  import opened Selection
  import opened Export

  class BarcodeApp {
    var barcodes: seq<Record>
    /** `isChecked()` of the check box of every row of the preview grid. */
    var checked: seq<bool>
    var selectAllText: string
    var prefix: string
    var savePath: string
    var count1To5: nat
    var count6To9: nat
    var progressValue: int
    var alive: bool

    /** While the application runs there is one preview row per record, the
        spin boxes hold 0..100, and the progress bar holds 0..100 or -1, the
        value of a bar that was never set (minimum - 1). */
    ghost predicate Valid()
      reads this
    {
      alive ==>
        && |checked| == |barcodes|
        && count1To5 <= 100 && count6To9 <= 100
        && -1 <= progressValue <= 100
    }

    /** The window as `__init__` leaves it. */
    constructor ()
      ensures Valid() && alive
      ensures barcodes == [] && checked == []
      ensures selectAllText == SelectAllText
      ensures prefix == "barcode_" && savePath == ""
      ensures count1To5 == 0 && count6To9 == 0 && progressValue == -1
    {
      barcodes := [];
      checked := [];
      selectAllText := SelectAllText;
      prefix := "barcode_";
      savePath := "";
      count1To5, count6To9 := 0, 0;
      progressValue := -1;
      alive := true;
    }

    /** `update_select_all_button`: counts the checked boxes and sets the
        label from the count and the number of rows. */
    method UpdateSelectAllButton()
      modifies this`selectAllText
      ensures selectAllText == SelectAllLabel(CountChecked(checked), |checked|)
    {
      var total := |checked|;
      var n := 0;
      var i := 0;
      while i < total
        invariant 0 <= i <= total
        invariant n == CountChecked(checked[..i])
      {
        assert checked[..i + 1][..i] == checked[..i];
        if checked[i] {
          n := n + 1;
        }
        i := i + 1;
      }
      assert checked[..total] == checked;
      selectAllText := SelectAllLabel(n, total);
    }

    /** `toggle_select_all`: reads whether every box is checked, sets every
        box to the opposite, then refreshes the label. */
    method ToggleSelectAll()
      requires Valid() && alive
      modifies this`checked, this`selectAllText
      ensures Valid()
      ensures checked == Toggled(old(checked))
      ensures selectAllText == SelectAllLabel(CountChecked(checked), |checked|)
    {
      var allSelected := true;
      var i := 0;
      while i < |checked| && allSelected
        invariant 0 <= i <= |checked|
        invariant allSelected == (forall k :: 0 <= k < i ==> checked[k])
      {
        allSelected := checked[i];
        i := i + 1;
      }
      ghost var before := checked;
      i := 0;
      while i < |checked|
        invariant 0 <= i <= |checked| == |before|
        invariant forall k :: 0 <= k < i ==> checked[k] == !allSelected
        invariant forall k :: i <= k < |checked| ==> checked[k] == before[k]
      {
        checked := checked[i := !allSelected];
        i := i + 1;
      }
      UpdateSelectAllButton();
    }

    /** A click on the check box of row `i`. The box is not connected to
        any slot, so the label is left as it was. */
    method ClickCheckbox(i: nat)
      requires Valid() && alive && i < |checked|
      modifies this`checked
      ensures Valid()
      ensures checked == old(checked)[i := !old(checked)[i]]
    {
      checked := checked[i := !checked[i]];
    }

    /** `generation_finished` followed by `update_preview`: stores the
        records; then clearing the old grid raises unless it was empty, and
        otherwise one unchecked row per record is added and the label
        refreshed. */
    method GenerationFinished(records: seq<Record>)
      requires Valid() && alive
      modifies this
      ensures Valid()
      ensures barcodes == records
      ensures alive == (old(checked) == [])
      ensures alive ==> checked == seq(|records|, _ => false)
                        && selectAllText == SelectAllLabel(0, |records|)
      ensures !alive ==> checked == old(checked) && selectAllText == old(selectAllText)
      ensures prefix == old(prefix) && savePath == old(savePath)
      ensures count1To5 == old(count1To5) && count6To9 == old(count6To9)
      ensures progressValue == old(progressValue)
    {
      barcodes := records;
      if checked != [] {
        alive := false;
        return;
      }
      var rows: seq<bool> := [];
      while |rows| < |records|
        invariant |rows| <= |records|
        invariant rows == seq(|rows|, _ => false)
      {
        rows := rows + [false];
      }
      checked := rows;
      UpdateSelectAllButton();
      assert CountChecked(checked) == 0 by {
        CountCheckedExtremes(checked);
      }
    }

    /** `start_generation` with the worker run to completion: nothing
        happens without a target directory; otherwise the worker runs with
        the two counts, the progress bar ends at the last value it was sent
        (it keeps its value when none was), and the records are delivered to
        `GenerationFinished`. */
    method StartGeneration(lowDraws: seq<Draw>, highDraws: seq<Draw>, eans: seq<string>,
                           render: string -> Image, pct: (nat, nat) -> int)
      returns (started: bool)
      requires Valid() && alive && TruncatedPercent(pct)
      requires |lowDraws| == count1To5 && DrawsIn(lowDraws, LowFrom, LowTo, eans)
      requires |highDraws| == count6To9 && DrawsIn(highDraws, HighFrom, HighTo, eans)
      modifies this
      ensures Valid()
      ensures started == (old(savePath) != "")
      ensures !started ==> unchanged(this)
      ensures started ==>
        && barcodes == RunRecords(lowDraws, highDraws, eans, render)
        && progressValue == LastOr(RunProgress(old(count1To5), old(count6To9), pct), old(progressValue))
        && alive == (old(checked) == [])
        && (alive ==> checked == seq(|barcodes|, _ => false)
                      && selectAllText == SelectAllLabel(0, |barcodes|))
        && (!alive ==> checked == old(checked) && selectAllText == old(selectAllText))
        && prefix == old(prefix) && savePath == old(savePath)
        && count1To5 == old(count1To5) && count6To9 == old(count6To9)
    {
      if savePath == "" {
        return false;
      }
      var records, progress := Run(count1To5, count6To9, lowDraws, highDraws, eans, render, pct);
      RunProgressShape(count1To5, count6To9, pct);
      var shown := progressValue;
      var i := 0;
      while i < |progress|
        invariant 0 <= i <= |progress|
        invariant shown == LastOr(progress[..i], old(progressValue))
        invariant -1 <= shown <= 100
      {
        shown := progress[i];
        i := i + 1;
      }
      assert progress[..i] == progress;
      progressValue := shown;
      GenerationFinished(records);
      return true;
    }

    /** `generate_again`: empties the record list; clearing the grid then
        raises unless it was empty, and otherwise the directory, the counts,
        the prefix and the progress bar are reset. */
    method GenerateAgain()
      requires Valid() && alive
      modifies this
      ensures Valid()
      ensures barcodes == []
      ensures alive == (old(checked) == [])
      ensures checked == old(checked) && selectAllText == old(selectAllText)
      ensures alive ==> savePath == "" && count1To5 == 0 && count6To9 == 0
                        && prefix == "" && progressValue == 0
      ensures !alive ==> savePath == old(savePath) && prefix == old(prefix)
                         && count1To5 == old(count1To5) && count6To9 == old(count6To9)
                         && progressValue == old(progressValue)
    {
      barcodes := [];
      if checked != [] {
        alive := false;
        return;
      }
      savePath := "";
      count1To5, count6To9 := 0, 0;
      prefix := "";
      progressValue := 0;
    }

    /** `save_selected`: the file names passed to `save_barcode_image`, one
        per checked row in row order, each built from the row's own index. */
    method SaveSelected() returns (files: seq<string>)
      requires Valid() && alive
      ensures files == SelectedFileNames(prefix, barcodes, checked)
      ensures |files| == CountChecked(checked)
    {
      files := [];
      var i := 0;
      while i < |checked|
        invariant 0 <= i <= |checked|
        invariant files == SelectedFileNames(prefix, barcodes, checked[..i])
      {
        ghost var idx := SelectedIndices(checked[..i]);
        assert checked[..i + 1][..i] == checked[..i];
        assert SelectedIndices(checked[..i + 1]) == idx + (if checked[i] then [i] else []);
        if checked[i] {
          assert (idx + [i])[..|idx|] == idx;
          assert FileNames(prefix, barcodes, idx + [i])
              == FileNames(prefix, barcodes, idx) + [FileName(prefix, i, barcodes[i].payload)];
          var data := barcodes[i].payload;
          files := files + [FileName(prefix, i, data)];
        } else {
          assert idx + [] == idx;
        }
        i := i + 1;
      }
      assert checked[..i] == checked;
      SelectedFileNamesExact(prefix, barcodes, checked);
    }

    /** `save_all`: the file names passed to `save_barcode_image`, one per
        record in list order. */
    method SaveAll() returns (files: seq<string>)
      requires Valid() && alive
      ensures files == AllFileNames(prefix, barcodes)
      ensures |files| == |barcodes|
    {
      files := [];
      var i := 0;
      while i < |barcodes|
        invariant 0 <= i <= |barcodes|
        invariant files == FileNames(prefix, barcodes, AllIndices(i))
      {
        files := files + [FileName(prefix, i, barcodes[i].payload)];
        i := i + 1;
      }
    }
  }

  /** The last element of `s`, or `default` when `s` is empty: the value a
      progress bar shows after being sent the values of `s` in order. */
  function LastOr(s: seq<int>, default: int): int {
    if s == [] then default else s[|s| - 1]
  }
}
