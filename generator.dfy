/** The background worker `BarcodeGeneratorThread` of codebarx.py: it
    builds the list of barcode records `(payload, ean, image)` in two
    sub-batches (digits 1..5, then digits 6..9) and reports a progress
    percentage after every record.

    The random choices are lifted out as inputs (`Draw`), the code128
    renderer as a function from payload to a non-empty image, and the
    floating-point progress expression as a function `pct` that is only
    known to satisfy `TruncatedPercent`. */
module Generator {
  import opened Decimal

  datatype Option<T> = None | Some(value: T)

  newtype byte = x: int | 0 <= x < 256

  /** The PNG bytes a renderer produces: opaque, but never empty. */
  type Image = s: seq<byte> | |s| > 0 witness [0]

  /** One generated barcode: the encoded payload, the EAN it embeds and the
      rendered image. */
  datatype Record = Record(payload: string, ean: string, image: Image)

  /** The random decisions behind one record: `random.choice(ean_list)` as an
      index into the EAN list, and the two `random.randint` digits. */
  datatype Draw = Draw(eanIndex: nat, first: nat, second: nat)

  const Sentinel: string := "$$"

  /** The digit ranges of the two sub-batches. */
  const LowFrom: nat := 1
  const LowTo: nat := 5
  const HighFrom: nat := 6
  const HighTo: nat := 9

  /** `f"$${first_digit}{second_digit}{ean}"` */
  function Payload(first: nat, second: nat, ean: string): string {
    Sentinel + NatToString(first) + NatToString(second) + ean
  }

  /** The fields a payload is made of. */
  datatype PayloadFields = PayloadFields(first: nat, second: nat, ean: string)

  /** Reads a payload back into its two digits and its EAN. */
  function ParsePayload(p: string): Option<PayloadFields> {
    if |p| >= 4 && p[..2] == Sentinel && IsDigit(p[2]) && IsDigit(p[3])
    then Some(PayloadFields(DigitValue(p[2]), DigitValue(p[3]), p[4..]))
    else None
  }

  /** A payload built from single digits has length 4 + |ean| and reads back
      as the digits and EAN it was built from. */
  lemma PayloadRoundTrip(first: nat, second: nat, ean: string)
    requires first < 10 && second < 10
    ensures |Payload(first, second, ean)| == 4 + |ean|
    ensures ParsePayload(Payload(first, second, ean)) == Some(PayloadFields(first, second, ean))
  {
    var p := Payload(first, second, ean);
    assert p == ['$', '$', DigitChar(first), DigitChar(second)] + ean;
    assert p[..2] == Sentinel;
    assert p[4..] == ean;
  }

  /** Conversely, every string that parses is the payload of its fields. */
  lemma ParsePayloadSound(p: string)
    requires ParsePayload(p).Some?
    ensures var f := ParsePayload(p).value;
            f.first < 10 && f.second < 10 && Payload(f.first, f.second, f.ean) == p
  {
    var f := ParsePayload(p).value;
    assert NatToString(f.first) == [p[2]];
    assert NatToString(f.second) == [p[3]];
    assert p == p[..2] + [p[2]] + [p[3]] + p[4..];
  }

  predicate DrawIn(d: Draw, lo: nat, hi: nat, eans: seq<string>) {
    d.eanIndex < |eans| && lo <= d.first <= hi && lo <= d.second <= hi
  }

  predicate DrawsIn(draws: seq<Draw>, lo: nat, hi: nat, eans: seq<string>) {
    forall i :: 0 <= i < |draws| ==> DrawIn(draws[i], lo, hi, eans)
  }

  function MakeRecord(d: Draw, eans: seq<string>, render: string -> Image): Record
    requires d.eanIndex < |eans|
  {
    var ean := eans[d.eanIndex];
    var data := Payload(d.first, d.second, ean);
    Record(data, ean, render(data))
  }

  /** The records of one sub-batch, in generation order. */
  function BatchRecords(draws: seq<Draw>, eans: seq<string>, render: string -> Image): seq<Record>
    requires forall i :: 0 <= i < |draws| ==> draws[i].eanIndex < |eans|
  {
    seq(|draws|, i requires 0 <= i < |draws| => MakeRecord(draws[i], eans, render))
  }

  /** The largest run the window can request: two spin boxes of 0..100. */
  const MaxTotal: nat := 200

  /** What `int(k / total * 100)` can evaluate to in binary floating point,
      for 0 < k <= total <= MaxTotal: never more than the exact floor (for
      such totals 1/total is far above the rounding error, so a quotient
      that is not an integer cannot be rounded up past one), at most one
      less (when the exact quotient is an integer that the float lands just
      below), never negative, exactly 100 when k == total (1.0 * 100 is
      exact), and monotone in k (each rounding step is monotone). */
  ghost predicate TruncatedPercent(pct: (nat, nat) -> int) {
    && (forall k: nat, t: nat :: 0 < k <= t <= MaxTotal ==> 100 * k / t - 1 <= pct(k, t) <= 100 * k / t)
    && (forall k: nat, t: nat :: 0 < k <= t <= MaxTotal ==> 0 <= pct(k, t))
    && (forall t: nat :: 0 < t <= MaxTotal ==> pct(t, t) == 100)
    && (forall j: nat, k: nat, t: nat :: 0 < j <= k <= t <= MaxTotal ==> pct(j, t) <= pct(k, t))
  }

  /** The exact integer percentage floor(100 * k / total). */
  function FloorPercent(k: nat, total: nat): int {
    if total == 0 then 0 else 100 * k / total
  }

  lemma MulStrict(x: int, y: int, t: int)
    requires 0 < t
    ensures x < y ==> t * x + t <= t * y
  {
    if x < y {
      MulAtLeast(t, y - x);
      assert t * y == t * x + t * (y - x);
    }
  }

  lemma MulAtLeast(t: int, x: int)
    requires 0 < t && 0 < x
    ensures t * x >= t
    decreases x
  {
    if x > 1 {
      MulAtLeast(t, x - 1);
      assert t * x == t * (x - 1) + t;
    }
  }

  lemma DivMonotone(a: nat, b: nat, t: nat)
    requires 0 < t && a <= b
    ensures a / t <= b / t
  {
    var qa, qb := a / t, b / t;
    assert a == t * qa + a % t && b == t * qb + b % t;
    MulStrict(qb, qa, t);
  }

  lemma HundredTimesDiv(t: nat)
    requires 0 < t
    ensures 100 * t / t == 100
  {
    var q := 100 * t / t;
    assert t * q + 100 * t % t == 100 * t;
    MulStrict(100, q, t);
    MulStrict(q, 100, t);
  }

  lemma DivBelowHundred(a: nat, t: nat)
    requires 0 < t && a < 100 * t
    ensures a / t < 100
  {
    var q := a / t;
    assert t * q + a % t == a;
    MulStrict(99, q, t);
  }

  /** The exact floor is one of the admissible evaluations. */
  lemma FloorPercentIsTruncated()
    ensures TruncatedPercent(FloorPercent)
  {
    forall t: nat | 0 < t <= MaxTotal ensures FloorPercent(t, t) == 100 {
      HundredTimesDiv(t);
    }
    forall j: nat, k: nat, t: nat | 0 < j <= k <= t <= MaxTotal
      ensures FloorPercent(j, t) <= FloorPercent(k, t)
    {
      DivMonotone(100 * j, 100 * k, t);
    }
  }

  /** The percentile bound every admissible evaluation obeys. */
  lemma PercentAtMost100(pct: (nat, nat) -> int, k: nat, t: nat)
    requires TruncatedPercent(pct) && 0 < k <= t <= MaxTotal
    ensures 0 <= pct(k, t) <= 100
    ensures k < t ==> pct(k, t) < 100
  {
    DivMonotone(100 * k, 100 * t, t);
    HundredTimesDiv(t);
    if k < t {
      DivBelowHundred(100 * k, t);
    }
  }

  /** The progress values one sub-batch emits: after its k-th record,
      `pct(k, total)`, where `total` is the size of the whole run. */
  function BatchProgress(count: nat, total: nat, pct: (nat, nat) -> int): seq<int> {
    seq(count, i requires 0 <= i < count => pct(i + 1, total))
  }

  /** `generate_barcodes(count, (lo, hi))`: appends one record per draw
      and, after each, the progress value over the local record count. */
  method GenerateBatch(count: nat, lo: nat, hi: nat, total: nat, draws: seq<Draw>,
                       eans: seq<string>, render: string -> Image, pct: (nat, nat) -> int)
    returns (records: seq<Record>, progress: seq<int>)
    requires count <= total && |draws| == count
    requires DrawsIn(draws, lo, hi, eans)
    ensures records == BatchRecords(draws, eans, render)
    ensures progress == BatchProgress(count, total, pct)
  {
    records, progress := [], [];
    var i := 0;
    while i < count
      invariant 0 <= i <= count && |records| == i
      invariant records == BatchRecords(draws[..i], eans, render)
      invariant progress == BatchProgress(i, total, pct)
    {
      var d := draws[i];
      var ean := eans[d.eanIndex];
      var data := Payload(d.first, d.second, ean);
      var image := render(data);
      records := records + [Record(data, ean, image)];
      progress := progress + [pct(|records|, total)];
      i := i + 1;
    }
    assert draws[..count] == draws;
  }

  /** All records of a run: the low-digit sub-batch, then the high-digit one. */
  function RunRecords(lowDraws: seq<Draw>, highDraws: seq<Draw>, eans: seq<string>,
                      render: string -> Image): seq<Record>
    requires DrawsIn(lowDraws, LowFrom, LowTo, eans) && DrawsIn(highDraws, HighFrom, HighTo, eans)
  {
    BatchRecords(lowDraws, eans, render) + BatchRecords(highDraws, eans, render)
  }

  /** All progress values of a run. The record counter is local to each
      sub-batch while the divisor is the whole run, so the second sub-batch
      starts over from the beginning of the scale. */
  function RunProgress(count1To5: nat, count6To9: nat, pct: (nat, nat) -> int): seq<int> {
    BatchProgress(count1To5, count1To5 + count6To9, pct)
      + BatchProgress(count6To9, count1To5 + count6To9, pct)
  }

  /** `run()`: the two sub-batches in order; `finished` carries `records`. */
  method Run(count1To5: nat, count6To9: nat, lowDraws: seq<Draw>, highDraws: seq<Draw>,
             eans: seq<string>, render: string -> Image, pct: (nat, nat) -> int)
    returns (records: seq<Record>, progress: seq<int>)
    requires |lowDraws| == count1To5 && DrawsIn(lowDraws, LowFrom, LowTo, eans)
    requires |highDraws| == count6To9 && DrawsIn(highDraws, HighFrom, HighTo, eans)
    ensures records == RunRecords(lowDraws, highDraws, eans, render)
    ensures progress == RunProgress(count1To5, count6To9, pct)
  {
    var total := count1To5 + count6To9;
    var low, lowProgress := GenerateBatch(count1To5, LowFrom, LowTo, total, lowDraws, eans, render, pct);
    var high, highProgress := GenerateBatch(count6To9, HighFrom, HighTo, total, highDraws, eans, render, pct);
    records := low + high;
    progress := lowProgress + highProgress;
  }

  /** A record of a sub-batch with digit range lo..hi: its EAN is from the
      list, its payload is "$$", two digits in the range and that EAN. */
  predicate WellFormed(r: Record, lo: nat, hi: nat, eans: seq<string>) {
    && r.ean in eans
    && |r.payload| == 4 + |r.ean|
    && ParsePayload(r.payload).Some?
    && var f := ParsePayload(r.payload).value;
       lo <= f.first <= hi && lo <= f.second <= hi && f.ean == r.ean
  }

  lemma MakeRecordWellFormed(d: Draw, lo: nat, hi: nat, eans: seq<string>, render: string -> Image)
    requires DrawIn(d, lo, hi, eans) && hi < 10
    ensures WellFormed(MakeRecord(d, eans, render), lo, hi, eans)
  {
    PayloadRoundTrip(d.first, d.second, eans[d.eanIndex]);
  }

  /** A run yields count1To5 + count6To9 records: first count1To5 with both
      digits in 1..5, then count6To9 with both digits in 6..9, each in the
      order of its draws. */
  lemma RunRecordsLayout(lowDraws: seq<Draw>, highDraws: seq<Draw>, eans: seq<string>,
                         render: string -> Image)
    requires DrawsIn(lowDraws, LowFrom, LowTo, eans) && DrawsIn(highDraws, HighFrom, HighTo, eans)
    ensures var rs := RunRecords(lowDraws, highDraws, eans, render);
      && |rs| == |lowDraws| + |highDraws|
      && (forall i :: 0 <= i < |lowDraws| ==>
            rs[i] == MakeRecord(lowDraws[i], eans, render) && WellFormed(rs[i], LowFrom, LowTo, eans))
      && (forall j :: 0 <= j < |highDraws| ==>
            rs[|lowDraws| + j] == MakeRecord(highDraws[j], eans, render)
            && WellFormed(rs[|lowDraws| + j], HighFrom, HighTo, eans))
  {
    var rs := RunRecords(lowDraws, highDraws, eans, render);
    forall i | 0 <= i < |lowDraws|
      ensures rs[i] == MakeRecord(lowDraws[i], eans, render) && WellFormed(rs[i], LowFrom, LowTo, eans)
    {
      MakeRecordWellFormed(lowDraws[i], LowFrom, LowTo, eans, render);
    }
    forall j | 0 <= j < |highDraws|
      ensures rs[|lowDraws| + j] == MakeRecord(highDraws[j], eans, render)
      ensures WellFormed(rs[|lowDraws| + j], HighFrom, HighTo, eans)
    {
      MakeRecordWellFormed(highDraws[j], HighFrom, HighTo, eans, render);
    }
  }

  /** One value per record; every value lies in 0..100; values never
      decrease inside a sub-batch. */
  lemma RunProgressShape(count1To5: nat, count6To9: nat, pct: (nat, nat) -> int)
    requires TruncatedPercent(pct) && count1To5 + count6To9 <= MaxTotal
    ensures var ps := RunProgress(count1To5, count6To9, pct);
      && |ps| == count1To5 + count6To9
      && (forall i :: 0 <= i < |ps| ==> 0 <= ps[i] <= 100)
      && (forall i, j :: 0 <= i <= j < count1To5 ==> ps[i] <= ps[j])
      && (forall i, j :: count1To5 <= i <= j < |ps| ==> ps[i] <= ps[j])
  {
    var ps := RunProgress(count1To5, count6To9, pct);
    var t := count1To5 + count6To9;
    forall i | 0 <= i < |ps| ensures 0 <= ps[i] <= 100 {
      if i < count1To5 {
        PercentAtMost100(pct, i + 1, t);
      } else {
        PercentAtMost100(pct, i - count1To5 + 1, t);
      }
    }
  }

  /** The second sub-batch repeats the values of the first one position
      for position, and its first value is no larger than the last value of
      the first sub-batch and at most 100 / total. */
  lemma RunProgressRestarts(count1To5: nat, count6To9: nat, pct: (nat, nat) -> int)
    requires TruncatedPercent(pct) && count1To5 + count6To9 <= MaxTotal
    ensures var ps := RunProgress(count1To5, count6To9, pct);
      && (forall j :: 0 <= j < count1To5 && j < count6To9 ==> ps[count1To5 + j] == ps[j])
      && (0 < count1To5 && 0 < count6To9 ==>
            ps[count1To5] <= ps[count1To5 - 1] && ps[count1To5] <= 100 / (count1To5 + count6To9))
  {
    var ps := RunProgress(count1To5, count6To9, pct);
    var t := count1To5 + count6To9;
    if 0 < count1To5 && 0 < count6To9 {
      assert ps[count1To5] == pct(1, t);
      assert ps[count1To5 - 1] == pct(count1To5, t);
    }
  }

  /** The last value reaches 100 exactly when one of the two counts is zero;
      with both counts zero nothing is emitted. */
  lemma RunProgressFinal(count1To5: nat, count6To9: nat, pct: (nat, nat) -> int)
    requires TruncatedPercent(pct) && count1To5 + count6To9 <= MaxTotal
    ensures var ps := RunProgress(count1To5, count6To9, pct);
      && (ps == [] <==> count1To5 + count6To9 == 0)
      && (ps != [] ==> (ps[|ps| - 1] == 100 <==> count1To5 == 0 || count6To9 == 0))
  {
    var ps := RunProgress(count1To5, count6To9, pct);
    var t := count1To5 + count6To9;
    if ps != [] {
      if count6To9 == 0 {
        assert ps[|ps| - 1] == pct(t, t);
      } else {
        assert ps[|ps| - 1] == pct(count6To9, t);
        PercentAtMost100(pct, count6To9, t);
      }
    }
  }
}
