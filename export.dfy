/** The file names `save_selected` and `save_all` build and pass to
    `save_barcode_image`:
    `prefix + str(i + 1) + "_" + payload + ".png"`, for the record at
    0-based index `i` of the record list. */
module Export {
  import opened Decimal
  import opened Generator
  import opened Selection

  const Extension: string := ".png"

  function FileName(prefix: string, i: nat, payload: string): string {
    prefix + NatToString(i + 1) + "_" + payload + Extension
  }

  /** A file name determines the index and payload it was made from, so one
      export never passes the same name for two records. */
  lemma FileNameInjective(prefix: string, i: nat, a: string, j: nat, b: string)
    ensures FileName(prefix, i, a) == FileName(prefix, j, b) <==> i == j && a == b
  {
    if FileName(prefix, i, a) == FileName(prefix, j, b) {
      var s, t := NatToString(i + 1), NatToString(j + 1);
      var x, y := s + "_" + (a + Extension), t + "_" + (b + Extension);
      assert FileName(prefix, i, a) == prefix + x;
      assert FileName(prefix, j, b) == prefix + y;
      CancelLeft(prefix, x, y);
      SplitAtUnderscore(s, a + Extension, t, b + Extension);
      NatToStringInjective(i + 1, j + 1);
      CancelRight(a, b, Extension);
    }
  }

  lemma CancelLeft(p: string, x: string, y: string)
    requires p + x == p + y
    ensures x == y
  {
    assert x == (p + x)[|p|..];
    assert y == (p + y)[|p|..];
  }

  lemma CancelRight(x: string, y: string, e: string)
    requires x + e == y + e
    ensures x == y
  {
    assert x == (x + e)[..|x|];
    assert |x| == |y|;
    assert y == (y + e)[..|y|];
  }

  /** Digits, an underscore, a rest: the underscore is where the digits end. */
  lemma SplitAtUnderscore(s: string, a: string, t: string, b: string)
    requires AllDigits(s) && AllDigits(t) && s + "_" + a == t + "_" + b
    ensures s == t && a == b
  {
    LeadingDigitsBeforeUnderscore(s, a);
    LeadingDigitsBeforeUnderscore(t, b);
    var w := s + "_" + a;
    assert s == w[..|s|];
    assert t == w[..|t|];
    assert a == w[|s| + 1..];
    assert b == (t + "_" + b)[|t| + 1..];
  }

  /** How many decimal digits a string starts with. */
  function LeadingDigits(w: string): nat {
    if w == [] || !IsDigit(w[0]) then 0 else 1 + LeadingDigits(w[1..])
  }

  /** A run of digits ends at the underscore that follows it. */
  lemma {:induction false} LeadingDigitsBeforeUnderscore(s: string, rest: string)
    requires AllDigits(s)
    ensures LeadingDigits(s + "_" + rest) == |s|
  {
    if s != [] {
      assert (s + "_" + rest)[1..] == s[1..] + "_" + rest;
      LeadingDigitsBeforeUnderscore(s[1..], rest);
    }
  }

  /** The names built for the records at the given indices, in order. */
  function FileNames(prefix: string, records: seq<Record>, idx: seq<nat>): (names: seq<string>)
    requires forall k :: 0 <= k < |idx| ==> idx[k] < |records|
    ensures |names| == |idx|
  {
    if idx == [] then []
    else
      var i := idx[|idx| - 1];
      FileNames(prefix, records, idx[..|idx| - 1]) + [FileName(prefix, i, records[i].payload)]
  }

  /** The k-th name is the file name of the k-th index: the record's index
      in the full list, not its rank among the chosen ones. */
  lemma {:induction false} FileNamesAt(prefix: string, records: seq<Record>, idx: seq<nat>, k: nat)
    requires forall m :: 0 <= m < |idx| ==> idx[m] < |records|
    requires k < |idx|
    ensures FileNames(prefix, records, idx)[k] == FileName(prefix, idx[k], records[idx[k]].payload)
  {
    if k < |idx| - 1 {
      FileNamesAt(prefix, records, idx[..|idx| - 1], k);
    }
  }

  /** The names `save_all` builds. */
  function AllFileNames(prefix: string, records: seq<Record>): seq<string> {
    FileNames(prefix, records, AllIndices(|records|))
  }

  /** The names `save_selected` builds, given one box per record. */
  function SelectedFileNames(prefix: string, records: seq<Record>, checked: seq<bool>): seq<string>
    requires |checked| <= |records|
  {
    FileNames(prefix, records, SelectedIndices(checked))
  }

  /** `save_all` builds one name per record, the i-th made from index i,
      and no two of them share a name. */
  lemma AllFileNamesExact(prefix: string, records: seq<Record>)
    ensures var names := AllFileNames(prefix, records);
      && |names| == |records|
      && (forall i :: 0 <= i < |records| ==> names[i] == FileName(prefix, i, records[i].payload))
      && (forall i, j :: 0 <= i < j < |records| ==> names[i] != names[j])
  {
    var names := AllFileNames(prefix, records);
    forall i | 0 <= i < |records|
      ensures names[i] == FileName(prefix, i, records[i].payload)
    {
      FileNamesAt(prefix, records, AllIndices(|records|), i);
    }
    forall i, j | 0 <= i < j < |records| ensures names[i] != names[j] {
      FileNameInjective(prefix, i, records[i].payload, j, records[j].payload);
    }
  }

  /** `save_selected` builds as many names as there are checked boxes; a
      record's name is among them exactly when its box is checked; and the
      list is the `save_all` list with the unchecked records left out, in
      the same order. */
  lemma SelectedFileNamesExact(prefix: string, records: seq<Record>, checked: seq<bool>)
    requires |checked| == |records|
    ensures var sel, all, idx := SelectedFileNames(prefix, records, checked),
                                 AllFileNames(prefix, records), SelectedIndices(checked);
      && |sel| == CountChecked(checked)
      && StrictlyIncreasing(idx)
      && (forall k :: 0 <= k < |sel| ==> sel[k] == all[idx[k]])
      && (forall i :: 0 <= i < |records| ==>
            (checked[i] <==> FileName(prefix, i, records[i].payload) in sel))
  {
    var sel, all, idx := SelectedFileNames(prefix, records, checked),
                         AllFileNames(prefix, records), SelectedIndices(checked);
    SelectedIndicesExact(checked);
    AllFileNamesExact(prefix, records);
    forall k | 0 <= k < |sel| ensures sel[k] == all[idx[k]] {
      FileNamesAt(prefix, records, idx, k);
    }
    forall i | 0 <= i < |records|
      ensures checked[i] <==> FileName(prefix, i, records[i].payload) in sel
    {
      if checked[i] {
        var k :| 0 <= k < |idx| && idx[k] == i;
        FileNamesAt(prefix, records, idx, k);
      }
      if FileName(prefix, i, records[i].payload) in sel {
        var k :| 0 <= k < |sel| && sel[k] == FileName(prefix, i, records[i].payload);
        FileNamesAt(prefix, records, idx, k);
        FileNameInjective(prefix, idx[k], records[idx[k]].payload, i, records[i].payload);
        assert idx[k] in idx;
      }
    }
  }

  /** With every box checked the two exports build the same list. */
  lemma SelectedFileNamesAllChecked(prefix: string, records: seq<Record>, checked: seq<bool>)
    requires |checked| == |records| && AllChecked(checked)
    ensures SelectedFileNames(prefix, records, checked) == AllFileNames(prefix, records)
  {
    SelectedIndicesAllChecked(checked);
  }
}
