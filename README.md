# CodeBarX in Dafny

CodeBarX is a desktop tool. It generates batches of Code128 barcodes whose payload is `"$$"`, two random digits and an EAN drawn from a fixed list. It shows the barcodes in a preview grid, with a check box per row. It saves the checked rows, or all rows, as images. For each row it builds the file name `prefix + (i+1) + "_" + payload + ".png"` and passes it to `save_barcode_image`.

This project models the logic under the Qt widgets, in five modules:

- `Decimal`: Python's `str()` on non-negative integers, with its inverse `ParseDecimal`.
- `Generator`: the worker `BarcodeGeneratorThread`.
  - `generate_barcodes` becomes the method `GenerateBatch`, a loop that appends records and progress values.
  - `run` becomes the method `Run`, which chains the 1..5 sub-batch and the 6..9 sub-batch.
  - The pure specifications, `BatchRecords`, `RunRecords`, `BatchProgress` and `RunProgress`, carry the lemmas.
  - `Payload` and its parser `ParsePayload` show that a payload determines its digits and its EAN.
- `Selection`: the check boxes, abstracted as a `seq<bool>` parallel to the record list. It defines:
  - `Toggled`, the toggle-all effect;
  - `SelectAllLabel`, the three-way button label;
  - `SelectedIndices`, the checked rows in increasing order.

  Lemmas tie these to `CountChecked`, `AllChecked` and `NoneChecked`.
- `Export`: the file names that `save_selected` and `save_all` build and pass to `save_barcode_image`. A lemma shows that a file name determines its index and payload, so one export never passes the same name for two rows.
- `App`: the class `BarcodeApp`, holding the window's state.
  - Its fields: the record list, one check-box state per row, the select-all label, the prefix and directory fields, the two spin-box counts, the progress bar, and `alive`.
  - Its methods are the slots of `BarcodeGeneratorApp`. The ones that change state say exactly what the new state is.

Random choices are inputs. Each record's `random.choice(ean_list)` and two `random.randint` calls become a `Draw` (an index into the EAN list and two digits), required to lie in the sub-batch's range. The EAN list is a parameter. The code128 renderer is a parameter `render: string -> Image`, where `Image` is a non-empty byte sequence.

Progress is `int(len(barcodes) / (count_1_to_5 + count_6_to_9) * 100)`, computed in floating point. It is a parameter `pct` constrained by the ghost predicate `TruncatedPercent`. The predicate speaks of `0 < k <= total <= 200`; 200 is the most the two 0..100 spin boxes allow (`MaxTotal`). For such totals `1/total` is far above the float rounding error, so the following hold:
- the value is at most the exact floor of `100k/total`, and at least that floor minus one;
- it is never negative;
- it is exactly 100 when `k == total`;
- it does not decrease as `k` grows.

`FloorPercentIsTruncated` shows that the exact integer floor satisfies this predicate.

An unhandled exception in a slot ends a PyQt6 application. In the code, `clear_preview` calls `.widget()` on grid items that are layouts; this returns `None`, and the next call raises. So clearing a non-empty grid ends the program. `GenerationFinished`, `StartGeneration` and `GenerateAgain` model this by setting `alive` to false. In particular, a second generation and a "generate again" after a non-empty generation both end the application.

Behaviour of the code worth noting:
- **No error on empty input.** With both counts zero no error is raised. No record and no progress value are produced, and `finished` carries the empty list.
- **Progress restarts.** The record counter is local to each sub-batch, so the second sub-batch restarts near zero. The last value is 100 only when one of the two counts is zero (`RunProgressFinal`).
- **Float progress.** Progress goes through float truncation, not an exact integer floor.
- **One symbology.** The symbology is always code128.
- **Double extension.** The name passed to `save` already ends in `.png`. python-barcode's `save` takes a name without extension and its `ImageWriter` appends `.png`, so the file on disk would end in `.png.png`.
- **Reset only once.** A generation resets the selection to all-unchecked only when the grid was empty; otherwise the application ends.

## Model

| member | source | states |
|---|---|---|
| Decimal.NatToString | codebarx.py:33 | `str(n)` is a non-empty run of decimal digits; it starts with '0' only for 0, and has one digit exactly below 10 |
| Decimal.ParseNatToString | codebarx.py:219 | reading `str(n)` back as a decimal number gives `n` |
| Decimal.NatToStringInjective | codebarx.py:219 | two numbers have the same decimal text exactly when they are equal |
| Generator.PayloadRoundTrip | codebarx.py:30-33 | a payload built from two single digits and an EAN has length 4 + \|ean\| and parses back to those digits and that EAN |
| Generator.ParsePayloadSound | codebarx.py:33 | every string that parses as a payload is the payload of its parsed digits and EAN, and both digits are single digits |
| Generator.FloorPercentIsTruncated | codebarx.py:40 | the exact floor(100k/total) is an admissible evaluation of the progress expression |
| Generator.PercentAtMost100 | codebarx.py:40 | every admissible progress value for 0 < k <= total <= 200 lies in 0..100, and is below 100 when k < total |
| Generator.GenerateBatch | codebarx.py:25-40 | the loop returns one record per draw, in draw order, with payload "$$"+d1+d2+ean, that EAN and its rendered image; after the k-th record it emits `pct(k, total)`, k counting only this sub-batch |
| Generator.Run | codebarx.py:42-55 | the run's records are the 1..5 sub-batch followed by the 6..9 sub-batch; its progress values are the two sub-batches' values in emission order |
| Generator.MakeRecordWellFormed | codebarx.py:30-38 | a record built from a draw in lo..hi (hi < 10) stores a listed EAN, and its payload is "$$", two digits in lo..hi and that EAN |
| Generator.RunRecordsLayout | codebarx.py:42-55 | a run has count_1_to_5 + count_6_to_9 records; the first count_1_to_5 come from the low draws in order with digits in 1..5, the rest from the high draws in order with digits in 6..9 |
| Generator.RunProgressShape | codebarx.py:46-53 | for a run of at most 200 records: one progress value per record, each in 0..100, non-decreasing inside each sub-batch |
| Generator.RunProgressRestarts | codebarx.py:26-40 | the second sub-batch repeats the first one's values position by position; when both counts are positive its first value is no larger than the last value before it and at most 100/total |
| Generator.RunProgressFinal | codebarx.py:40-55 | nothing is emitted exactly when both counts are 0; otherwise the last value is 100 exactly when one of the counts is 0 |
| Selection.CountCheckedExtremes | codebarx.py:195-204 | the checked count equals the total exactly when every box is checked, and is 0 exactly when none is |
| Selection.ToggledEffect | codebarx.py:194-199 | toggle-all keeps the number of boxes, unchecks all when all were checked, checks all otherwise, and leaves an empty grid as it is |
| Selection.ToggledTwiceFromNone | codebarx.py:194-199 | on a non-empty grid with nothing checked, one toggle checks every box and a second unchecks every box |
| Selection.SelectAllLabelCases | codebarx.py:202-210 | the label is "Desmarcar Todos" exactly when all boxes are checked (empty grid included); "Selecionar Todos" exactly when the grid is non-empty and none is checked; "Inverter Seleção" exactly for a partial selection |
| Selection.LabelAfterToggle | codebarx.py:194-210 | after a toggle the label is never "Inverter Seleção"; it is "Desmarcar Todos" exactly when the toggle selected everything or the grid is empty |
| Selection.SelectedIndicesExact | codebarx.py:214-217 | the rows save_selected visits are exactly the checked rows, each once, in increasing order; there are as many as checked boxes |
| Selection.SelectedIndicesAllChecked | codebarx.py:214-217 | with every box checked, the visited rows are all rows in order |
| Export.FileNameInjective | codebarx.py:219-227 | two file names are equal exactly when they have the same index and the same payload |
| Export.FileNamesAt | codebarx.py:218-219 | the k-th written name uses the row's original index in the full list, not its rank among the chosen rows |
| Export.AllFileNamesExact | codebarx.py:224-228 | save_all builds one file name per record and passes it to `save_barcode_image`; the i-th is prefix + str(i+1) + "_" + payload_i + ".png"; no two share a name |
| Export.SelectedFileNamesExact | codebarx.py:212-220 | save_selected builds and passes to `save_barcode_image` as many file names as checked boxes; record i's name is among them exactly when box i is checked; the list is the save_all list at the selected indices, in increasing order |
| Export.SelectedFileNamesAllChecked | codebarx.py:212-228 | with every box checked, save_selected and save_all build the same list of file names |
| App.BarcodeApp.constructor | codebarx.py:58-126 | the window starts with no records and no rows, label "Selecionar Todos", prefix "barcode_", no directory, both counts 0 and the progress bar at -1, the value of a bar that was never set |
| App.BarcodeApp.UpdateSelectAllButton | codebarx.py:202-210 | the loop counts the checked boxes and sets the label from that count and the row count |
| App.BarcodeApp.ToggleSelectAll | codebarx.py:194-200 | the boxes become the toggle-all of the old ones and the label is recomputed; records and other fields are untouched |
| App.BarcodeApp.ClickCheckbox | codebarx.py:184-185 | clicking a box flips that box only; the label is not refreshed, because no slot is connected to the box |
| App.BarcodeApp.GenerationFinished | codebarx.py:167-188 | the records are stored; if the old grid was empty, one unchecked row is added per record and the label is recomputed; otherwise clearing the grid raises and the application ends |
| App.BarcodeApp.StartGeneration | codebarx.py:149-165 | with no directory nothing changes; otherwise the records are the run's records, the progress bar shows the last emitted value (unchanged if none) and the records go through GenerationFinished |
| App.BarcodeApp.GenerateAgain | codebarx.py:236-243 | the record list is emptied; if the grid is empty the directory, counts, prefix and progress bar are reset, otherwise clearing the grid raises and the application ends |
| App.BarcodeApp.SaveSelected | codebarx.py:212-220 | the file names the code builds and passes to `save_barcode_image` are the selected-file names of the current prefix, records and boxes, one per checked box |
| App.BarcodeApp.SaveAll | codebarx.py:224-228 | the file names the code builds and passes to `save_barcode_image` are the all-file names of the current prefix and records, one per record |

## Left out

- Qt widgets, layouts, message boxes, pixmap scaling and grid placement (codebarx.py:57-143, 172-186): presentation only. Each widget is reduced to the value the code reads or writes.
- `choose_directory` (codebarx.py:144-147): a file dialog. The directory is the field `savePath`, set by the caller.
- Typing into the spin boxes and line edits: the caller assigns the fields directly. The 0..100 spin-box bounds are part of `Valid()`.
- `clear_preview` (codebarx.py:190-192) as widget manipulation. Only its outcome, that it raises on a non-empty grid, is modelled, through `alive`.
- `QThread` and the `progress`/`finished` signals (codebarx.py:14-16, 159-162). The worker runs to completion inside `StartGeneration`, and the progress values reach the progress bar in emission order. Starting a second run while one is in flight is not modelled.
- `random.choice` and `random.randint`: replaced by the `Draw` inputs.
- The contents of `ean_list`: the module is not part of this model, so the list is a parameter.
- The code128 renderer and `ImageWriter`: a parameter `render` that always returns a non-empty image. A renderer exception is not modelled, because the library's character and length rules are not visible. It would be raised inside `run`, and PyQt6 treats an unhandled exception there as it does one in a slot: the application ends.
- Generator.GenerateBatch: the progress values are those of an abstract `pct` satisfying `TruncatedPercent`, not the exact IEEE-754 result of `k / total * 100`. Float arithmetic is not modelled, so the contracts give bounds and monotonicity rather than exact values.
- App.BarcodeApp.SaveSelected: returns the base file names passed to `save_barcode_image`, not the names of the files on disk. python-barcode's `save` (codebarx.py:232-234) decides the on-disk name and appends its writer's own extension, so `name.png` becomes `name.png.png`. `os.path.join` with the directory, the re-rendering, the file writes and their failures are not modelled.
- App.BarcodeApp.SaveAll: the same as for SaveSelected.
- The success message boxes after generation and saving (codebarx.py:169, 222, 230): presentation only.
