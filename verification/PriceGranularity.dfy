/**
 * Price granularities: the range checks of `PriceGranularity.UnmarshalJSON` and the rounding of
 * `GetPriceBucket`. Prices are reals, and a bucket is the number handed to `FormatFloat`
 * (`None` stands for the empty string the source returns when no bucket applies).
 */
module PriceGranularity {
  import opened Lists

  const MAX_DECIMAL_FIGURES := 15

  datatype Range = Range(min: real, max: real, increment: real)

  datatype Granularity = Granularity(precision: int, ranges: seq<Range>)

  /** The JSON documents the unmarshaller distinguishes. */
  datatype Document =
    | Absent
    | Text(name: string)
    | Object(precision: Option<int>, ranges: seq<Range>)
    | Malformed

  datatype Error = NotAnObject | NegativePrecision | PrecisionTooLarge | MaxNotIncreasing | IncrementNotPositive

  datatype Parsed = Accepted(granularity: Granularity) | Refused(error: Error)

  const LOW := Granularity(2, [Range(0.0, 5.0, 0.5)])
  const MED := Granularity(2, [Range(0.0, 20.0, 0.1)])
  const HIGH := Granularity(2, [Range(0.0, 20.0, 0.01)])
  const DENSE := Granularity(2, [Range(0.0, 3.0, 0.01), Range(3.0, 8.0, 0.05), Range(8.0, 20.0, 0.5)])
  const AUTO := Granularity(2, [Range(0.0, 5.0, 0.05), Range(5.0, 10.0, 0.1), Range(10.0, 20.0, 0.5)])

  function FromString(name: string): Granularity {
    if name == "low" then LOW
    else if name == "med" || name == "medium" then MED
    else if name == "high" then HIGH
    else if name == "auto" then AUTO
    else if name == "dense" then DENSE
    else Granularity(0, [])
  }

  /** The ranges tile [0, max] without gap or overlap, and every increment is positive. */
  ghost predicate Contiguous(ranges: seq<Range>) {
    && (ranges != [] ==> ranges[0].min == 0.0)
    && (forall i :: 0 < i < |ranges| ==> ranges[i].min == ranges[i - 1].max)
    && (forall i :: 0 <= i < |ranges| ==> ranges[i].min < ranges[i].max && ranges[i].increment > 0.0)
  }

  /** The upper end of the range before position `i`, which is where range `i` has to start. */
  function PrevMax(ranges: seq<Range>, i: nat): real
    requires i <= |ranges|
  {
    if i == 0 then 0.0 else ranges[i - 1].max
  }

  /** What the parser objects to in range `i`, the order complaint coming first. */
  function Complaint(ranges: seq<Range>, i: nat): Option<Error>
    requires i < |ranges|
  {
    if ranges[i].max <= PrevMax(ranges, i) then Some(MaxNotIncreasing)
    else if ranges[i].increment <= 0.0 then Some(IncrementNotPositive)
    else None
  }

  /** The maxima increase from zero and the increments are positive. */
  ghost predicate InOrder(ranges: seq<Range>) {
    && (ranges != [] ==> ranges[0].max > 0.0)
    && (forall i :: 0 < i < |ranges| ==> ranges[i].max > ranges[i - 1].max)
    && (forall i :: 0 <= i < |ranges| ==> ranges[i].increment > 0.0)
  }

  /** The error fits some range: its max does not exceed the one before, or its increment is not positive. */
  ghost predicate Blames(ranges: seq<Range>, e: Error) {
    && (e == MaxNotIncreasing || e == IncrementNotPositive)
    && (e == MaxNotIncreasing ==>
          (ranges != [] && ranges[0].max <= 0.0) || exists i :: 0 < i < |ranges| && ranges[i].max <= ranges[i - 1].max)
    && (e == IncrementNotPositive ==> exists i :: 0 <= i < |ranges| && ranges[i].increment <= 0.0)
  }

  lemma ComplaintBlames(ranges: seq<Range>, i: nat)
    requires i < |ranges| && Complaint(ranges, i).Some?
    ensures Blames(ranges, Complaint(ranges, i).value)
  {
  }

  lemma InOrderIff(ranges: seq<Range>)
    ensures InOrder(ranges) <==> forall i :: 0 <= i < |ranges| ==> Complaint(ranges, i) == None
  {
    if forall i :: 0 <= i < |ranges| ==> Complaint(ranges, i) == None {
      assert ranges != [] ==> Complaint(ranges, 0) == None;
      forall i | 0 < i < |ranges| ensures ranges[i].max > ranges[i - 1].max {
        assert Complaint(ranges, i) == None;
      }
      forall i | 0 <= i < |ranges| ensures ranges[i].increment > 0.0 {
        assert Complaint(ranges, i) == None;
      }
    }
  }

  /** `i` is the first range the parser objects to. */
  ghost predicate FirstComplaint(ranges: seq<Range>, i: nat, e: Error) {
    && i < |ranges|
    && Complaint(ranges, i) == Some(e)
    && forall j :: 0 <= j < i ==> Complaint(ranges, j) == None
  }

  /** The precision of an explicit granularity; two digits unless the document says otherwise. */
  function Precision(doc: Document): int
    requires doc.Object?
  {
    if doc.precision.Some? then doc.precision.value else 2
  }

  /** Overwrites every `min`; stops at the first range that is out of order or has no increment. */
  method CheckRanges(given: seq<Range>) returns (ranges: seq<Range>, error: Option<Error>)
    ensures error.Some? <==> exists i: nat :: i < |given| && Complaint(given, i).Some?
    ensures error.Some? ==> exists i: nat :: FirstComplaint(given, i, error.value)
    ensures error.None? <==> InOrder(given)
    ensures error.Some? ==> Blames(given, error.value)
    ensures error.None? ==> Contiguous(ranges)
    ensures error.None? ==> |ranges| == |given|
    ensures error.None? ==> forall i :: 0 <= i < |given| ==> ranges[i] == given[i].(min := ranges[i].min)
  {
    hide InOrder, Blames;
    InOrderIff(given);
    ranges := given;
    var prevMax := 0.0;
    for i := 0 to |given|
      invariant |ranges| == |given|
      invariant prevMax == PrevMax(given, i)
      invariant forall j :: 0 <= j < i ==> Complaint(given, j) == None
      invariant forall j :: 0 <= j < |given| ==> ranges[j] == given[j].(min := ranges[j].min)
      invariant forall j :: 0 <= j < i ==> ranges[j].min == PrevMax(given, j)
      invariant forall j :: 0 <= j < i ==> ranges[j].min < ranges[j].max && ranges[j].increment > 0.0
    {
      if given[i].max <= prevMax {
        assert FirstComplaint(given, i, MaxNotIncreasing);
        ComplaintBlames(given, i);
        return ranges, Some(MaxNotIncreasing);
      }
      if given[i].increment <= 0.0 {
        assert FirstComplaint(given, i, IncrementNotPositive);
        ComplaintBlames(given, i);
        return ranges, Some(IncrementNotPositive);
      }
      ranges := ranges[i := ranges[i].(min := prevMax)];
      prevMax := given[i].max;
    }
    error := None;
  }

  /**
   * The unmarshaller. Whatever is accepted can be priced with: it has ranges, they tile the price
   * line from zero, and an explicit list keeps its own maxima and increments.
   */
  method Unmarshal(doc: Document) returns (r: Parsed)
    ensures r.Accepted? ==> r.granularity.ranges != [] && Contiguous(r.granularity.ranges)
    ensures r.Accepted? ==> 0 <= r.granularity.precision <= MAX_DECIMAL_FIGURES
    ensures doc.Absent? ==> r == Accepted(MED)
    ensures doc.Text? ==>
      r == if FromString(doc.name).ranges != [] then Accepted(FromString(doc.name)) else Refused(NotAnObject)
    ensures doc.Malformed? ==> r == Refused(NotAnObject)
    ensures doc.Object? && Precision(doc) < 0 ==> r == Refused(NegativePrecision)
    ensures doc.Object? && Precision(doc) > MAX_DECIMAL_FIGURES ==> r == Refused(PrecisionTooLarge)
    ensures doc.Object? && 0 <= Precision(doc) <= MAX_DECIMAL_FIGURES ==>
      && (r.Accepted? <==> forall i :: 0 <= i < |doc.ranges| ==> Complaint(doc.ranges, i).None?)
      && (r.Refused? ==> exists i: nat :: FirstComplaint(doc.ranges, i, r.error))
      && (doc.ranges == [] ==> r == Accepted(MED))
      && (r.Accepted? <==> InOrder(doc.ranges))
    ensures doc.Object? && doc.ranges != [] && r.Accepted? ==>
      r.granularity.precision == if doc.precision.Some? then doc.precision.value else 2
    ensures doc.Object? && doc.ranges != [] && r.Accepted? ==>
      && r.granularity.precision == Precision(doc)
      && |r.granularity.ranges| == |doc.ranges|
      && forall i :: 0 <= i < |doc.ranges| ==>
           r.granularity.ranges[i] == doc.ranges[i].(min := PrevMax(doc.ranges, i))
  {
    match doc
    case Absent =>
      return Accepted(MED);
    case Text(name) =>
      var g := FromString(name);
      if |g.ranges| > 0 {
        return Accepted(g);
      }
      return Refused(NotAnObject);
    case Malformed =>
      return Refused(NotAnObject);
    case Object(givenPrecision, given) =>
      var precision := 2;
      if givenPrecision.Some? {
        precision := givenPrecision.value;
      }
      if precision < 0 {
        return Refused(NegativePrecision);
      }
      if precision > MAX_DECIMAL_FIGURES {
        return Refused(PrecisionTooLarge);
      }
      if |given| > 0 {
        var ranges, error := CheckRanges(given);
        if error.Some? {
          return Refused(error.value);
        }
        return Accepted(Granularity(precision, ranges));
      }
      return Accepted(MED);
  }

  // ---------- buckets ----------

  function RoundDown(cpm: real, increment: real): real
    requires increment > 0.0
  {
    Multiple((cpm / increment).Floor, increment)
  }

  function Multiple(n: int, increment: real): real {
    n as real * increment
  }

  function BucketMax(ranges: seq<Range>): real {
    if ranges == [] then 0.0
    else
      var m := BucketMax(ranges[..|ranges| - 1]);
      var last := ranges[|ranges| - 1].max;
      if last > m then last else m
  }

  /** The last range that contains the price, or -1. */
  function Containing(cpm: real, ranges: seq<Range>): (i: int)
    ensures -1 <= i < |ranges|
    ensures i >= 0 ==> ranges[i].min <= cpm <= ranges[i].max
    ensures forall j :: i < j < |ranges| ==> !(ranges[j].min <= cpm <= ranges[j].max)
  {
    if ranges == [] then -1
    else
      var n := |ranges| - 1;
      if ranges[n].min <= cpm <= ranges[n].max then n else Containing(cpm, ranges[..n])
  }

  function Bucket(cpm: real, ranges: seq<Range>): Option<real> {
    if cpm > BucketMax(ranges) then Some(BucketMax(ranges))
    else
      var i := Containing(cpm, ranges);
      if i >= 0 && ranges[i].increment > 0.0 then Some(RoundDown(cpm, ranges[i].increment)) else None
  }

  /** The price text of a bid: its bucket formatted, or nothing. */
  function BucketText(cpm: real, g: Granularity, format: (real, int) -> string): string {
    match Bucket(cpm, g.ranges)
    case None => ""
    case Some(b) => format(b, g.precision)
  }

  method GetPriceBucket(cpm: real, config: Granularity) returns (bucket: Option<real>)
    ensures bucket == Bucket(cpm, config.ranges)
  {
    var bucketMax := 0.0;
    var increment := 0.0;
    for i := 0 to |config.ranges|
      invariant bucketMax == BucketMax(config.ranges[..i])
      invariant var c := Containing(cpm, config.ranges[..i]);
                increment == if c >= 0 then config.ranges[c].increment else 0.0
    {
      assert config.ranges[..i + 1][..i] == config.ranges[..i];
      if config.ranges[i].max > bucketMax {
        bucketMax := config.ranges[i].max;
      }
      if cpm >= config.ranges[i].min && cpm <= config.ranges[i].max {
        increment := config.ranges[i].increment;
      }
    }
    assert config.ranges[..|config.ranges|] == config.ranges;
    if cpm > bucketMax {
      bucket := Some(bucketMax);
    } else if increment > 0.0 {
      bucket := Some(RoundDown(cpm, increment));
    } else {
      bucket := None;
    }
  }

  // ---------- rounding ----------

  lemma ScaleLess(a: real, b: real, c: real)
    requires c > 0.0
    ensures a < b ==> a * c < b * c
    ensures a <= b ==> a * c <= b * c
  {
  }

  lemma FloorBracket(ratio: real, increment: real)
    requires increment > 0.0
    ensures Multiple(ratio.Floor, increment) <= ratio * increment < Multiple(ratio.Floor, increment) + increment
  {
    var q := ratio.Floor;
    ScaleLess(q as real, ratio, increment);
    ScaleLess(ratio, (q + 1) as real, increment);
    MultipleNext(q, increment);
  }

  lemma RoundDownBounds(cpm: real, increment: real)
    requires increment > 0.0
    ensures RoundDown(cpm, increment) <= cpm < RoundDown(cpm, increment) + increment
  {
    FloorBracket(cpm / increment, increment);
  }

  lemma MultipleNext(n: int, increment: real)
    ensures Multiple(n + 1, increment) == Multiple(n, increment) + increment
  {
  }

  /** Any multiple of the increment at or below the price is at or below its bucket. */
  lemma RoundDownIsLargest(n: int, cpm: real, increment: real)
    requires increment > 0.0
    requires Multiple(n, increment) <= cpm
    ensures Multiple(n, increment) <= RoundDown(cpm, increment)
  {
    MultiplesApart((cpm / increment).Floor, n, increment);
    RoundDownBounds(cpm, increment);
  }

  /** Two multiples are ordered as their factors, and differ by an increment unless equal. */
  lemma MultiplesApart(m: int, n: int, increment: real)
    requires increment > 0.0
    ensures m < n ==> Multiple(m, increment) + increment <= Multiple(n, increment)
    ensures n <= m ==> Multiple(n, increment) <= Multiple(m, increment)
  {
    if m < n {
      ScaleLess((m + 1) as real, n as real, increment);
      MultipleNext(m, increment);
      assert Multiple(m + 1, increment) <= Multiple(n, increment);
    } else {
      ScaleLess(n as real, m as real, increment);
    }
  }

  lemma RoundDownMonotone(x: real, y: real, increment: real)
    requires increment > 0.0
    requires x <= y
    ensures RoundDown(x, increment) <= RoundDown(y, increment)
  {
    RoundDownBounds(x, increment);
    RoundDownIsLargest((x / increment).Floor, y, increment);
  }

  // ---------- properties of accepted granularities ----------

  lemma {:induction false} BucketMaxIsLast(ranges: seq<Range>)
    requires Contiguous(ranges) && ranges != []
    ensures BucketMax(ranges) == ranges[|ranges| - 1].max > 0.0
  {
    var n := |ranges| - 1;
    if n > 0 {
      BucketMaxIsLast(ranges[..n]);
    }
  }

  /** Contiguity leaves no price in [0, max] without a range. */
  lemma {:induction false} EveryPriceHasARange(cpm: real, ranges: seq<Range>)
    requires Contiguous(ranges) && ranges != []
    requires 0.0 <= cpm <= ranges[|ranges| - 1].max
    ensures Containing(cpm, ranges) >= 0
    ensures var i := Containing(cpm, ranges); i < |ranges| - 1 ==> cpm < ranges[i].max
  {
    var n := |ranges| - 1;
    if !(ranges[n].min <= cpm <= ranges[n].max) {
      EveryPriceHasARange(cpm, ranges[..n]);
    }
  }

  /**
   * The bucket of any price under an accepted granularity: none below zero, at most one increment
   * under the price up to the maximum, and the maximum above that.
   */
  lemma BucketBounds(cpm: real, ranges: seq<Range>)
    requires Contiguous(ranges) && ranges != []
    ensures cpm < 0.0 <==> Bucket(cpm, ranges) == None
    ensures cpm > ranges[|ranges| - 1].max ==> Bucket(cpm, ranges) == Some(ranges[|ranges| - 1].max)
    ensures 0.0 <= cpm <= ranges[|ranges| - 1].max ==>
      var i := Containing(cpm, ranges);
      && i >= 0
      && ranges[i].increment > 0.0
      && cpm - ranges[i].increment < Bucket(cpm, ranges).value <= cpm
    ensures Bucket(cpm, ranges).Some? ==> Bucket(cpm, ranges).value >= 0.0
  {
    BucketMaxIsLast(ranges);
    if cpm < 0.0 {
      MinsNonNegative(ranges);
    } else if cpm <= ranges[|ranges| - 1].max {
      EveryPriceHasARange(cpm, ranges);
      var i := Containing(cpm, ranges);
      RoundDownBounds(cpm, ranges[i].increment);
      RoundDownIsLargest(0, cpm, ranges[i].increment);
    }
  }

  lemma {:induction false} MinsNonNegative(ranges: seq<Range>)
    requires Contiguous(ranges)
    ensures forall i :: 0 <= i < |ranges| ==> ranges[i].min >= 0.0
  {
    if |ranges| > 1 {
      var n := |ranges| - 1;
      MinsNonNegative(ranges[..n]);
      assert ranges[n].min == ranges[n - 1].max > ranges[..n][n - 1].min;
    }
  }

  // ---------- monotonicity ----------

  /** The bucket at the foot of a range. */
  function Bottom(r: Range): real
    requires r.increment > 0.0
  {
    RoundDown(r.min, r.increment)
  }

  /** The largest multiple of the increment strictly under the range's maximum. */
  function Top(r: Range): real
    requires r.increment > 0.0
  {
    var t := RoundDown(r.max, r.increment);
    if t == r.max then t - r.increment else t
  }

  /** No range starts with a bucket below one its predecessor hands out. */
  ghost predicate Stepwise(ranges: seq<Range>)
    requires Contiguous(ranges)
  {
    forall i :: 0 < i < |ranges| ==> Top(ranges[i - 1]) <= Bottom(ranges[i])
  }

  ghost predicate BucketsMonotone(ranges: seq<Range>)
    requires Contiguous(ranges) && ranges != []
  {
    forall x, y :: 0.0 <= x <= y ==>
      && Bucket(x, ranges).Some? && Bucket(y, ranges).Some?
      && Bucket(x, ranges).value <= Bucket(y, ranges).value
  }

  lemma TopIsMultipleBelowMax(r: Range) returns (n: int)
    requires r.increment > 0.0
    ensures Top(r) == Multiple(n, r.increment)
    ensures Top(r) < r.max <= Top(r) + r.increment
  {
    RoundDownBounds(r.max, r.increment);
    var q := (r.max / r.increment).Floor;
    if RoundDown(r.max, r.increment) == r.max {
      n := q - 1;
      MultipleNext(n, r.increment);
    } else {
      n := q;
    }
  }

  /** Below the maximum of a range no bucket exceeds `Top`. */
  lemma TopBounds(x: real, r: Range)
    requires r.increment > 0.0 && x < r.max
    ensures RoundDown(x, r.increment) <= Top(r)
  {
    var n := TopIsMultipleBelowMax(r);
    MultiplesApart(n, (x / r.increment).Floor, r.increment);
    RoundDownBounds(x, r.increment);
  }

  /** `Top` is handed out to some price of the range. */
  lemma TopAttained(r: Range) returns (x: real)
    requires r.increment > 0.0 && r.min < r.max
    ensures r.min <= x < r.max
    ensures RoundDown(x, r.increment) == Top(r)
  {
    var n := TopIsMultipleBelowMax(r);
    x := if Top(r) >= r.min then Top(r) else r.min;
    RoundDownIsLargest(n, x, r.increment);
    TopBounds(x, r);
  }

  lemma {:induction false} BottomsClimb(ranges: seq<Range>, i: nat, j: nat)
    requires Contiguous(ranges) && Stepwise(ranges)
    requires i < j < |ranges|
    ensures Top(ranges[i]) <= Bottom(ranges[j])
    decreases j - i
  {
    if i + 1 < j {
      BottomsClimb(ranges, i + 1, j);
      TopBounds(ranges[i + 1].min, ranges[i + 1]);
      assert Top(ranges[i]) <= Bottom(ranges[i + 1]);
    }
  }

  lemma {:induction false} RangesOrdered(ranges: seq<Range>, i: nat, j: nat)
    requires Contiguous(ranges)
    requires i < j < |ranges|
    ensures ranges[i].max <= ranges[j].min
    decreases j - i
  {
    if i + 1 < j {
      RangesOrdered(ranges, i + 1, j);
    }
  }

  lemma MonotonePair(x: real, y: real, ranges: seq<Range>)
    requires Contiguous(ranges) && ranges != [] && Stepwise(ranges)
    requires 0.0 <= x <= y
    ensures Bucket(x, ranges).Some? && Bucket(y, ranges).Some?
    ensures Bucket(x, ranges).value <= Bucket(y, ranges).value
  {
    BucketMaxIsLast(ranges);
    BucketBounds(x, ranges);
    BucketBounds(y, ranges);
    if y <= ranges[|ranges| - 1].max {
      EveryPriceHasARange(x, ranges);
      EveryPriceHasARange(y, ranges);
      var i, j := Containing(x, ranges), Containing(y, ranges);
      if i > j {
        RangesOrdered(ranges, j, i);
        assert false;
      } else if i == j {
        RoundDownMonotone(x, y, ranges[i].increment);
      } else {
        TopBounds(x, ranges[i]);
        BottomsClimb(ranges, i, j);
        RoundDownMonotone(ranges[j].min, y, ranges[j].increment);
      }
    }
  }

  lemma ContainingFoot(ranges: seq<Range>, i: nat, x: real)
    requires Contiguous(ranges)
    requires i < |ranges| && ranges[i].min <= x < ranges[i].max
    ensures Containing(x, ranges) == i
    ensures x <= ranges[|ranges| - 1].max
  {
  }

  /** Exactly when a dearer bid never lands in a cheaper bucket. */
  lemma MonotoneIffStepwise(ranges: seq<Range>)
    requires Contiguous(ranges) && ranges != []
    ensures BucketsMonotone(ranges) <==> Stepwise(ranges)
  {
    if Stepwise(ranges) {
      forall x, y | 0.0 <= x <= y
        ensures && Bucket(x, ranges).Some? && Bucket(y, ranges).Some?
                && Bucket(x, ranges).value <= Bucket(y, ranges).value
      {
        MonotonePair(x, y, ranges);
      }
    }
    if BucketsMonotone(ranges) {
      MinsNonNegative(ranges);
      BucketMaxIsLast(ranges);
      forall i | 0 < i < |ranges| ensures Top(ranges[i - 1]) <= Bottom(ranges[i]) {
        var x := TopAttained(ranges[i - 1]);
        var y := ranges[i].min;
        ContainingFoot(ranges, i - 1, x);
        ContainingFoot(ranges, i, y);
        assert Bucket(x, ranges) == Some(Top(ranges[i - 1]));
        assert Bucket(y, ranges) == Some(Bottom(ranges[i]));
      }
    }
  }

  /** Every range starts on a multiple of its own increment. */
  ghost predicate Aligned(ranges: seq<Range>) {
    forall i :: 0 <= i < |ranges| ==> exists n: int :: ranges[i].min == Multiple(n, ranges[i].increment)
  }

  lemma AlignedIsMonotone(ranges: seq<Range>)
    requires Contiguous(ranges) && ranges != [] && Aligned(ranges)
    ensures BucketsMonotone(ranges)
  {
    forall i | 0 < i < |ranges| ensures Top(ranges[i - 1]) <= Bottom(ranges[i]) {
      var n: int :| ranges[i].min == Multiple(n, ranges[i].increment);
      RoundDownIsLargest(n, ranges[i].min, ranges[i].increment);
      var _ := TopIsMultipleBelowMax(ranges[i - 1]);
    }
    MonotoneIffStepwise(ranges);
  }

  lemma BuiltInTablesMonotone(name: string)
    requires FromString(name).ranges != []
    ensures Contiguous(FromString(name).ranges)
    ensures BucketsMonotone(FromString(name).ranges)
  {
    var r := FromString(name).ranges;
    assert 0.0 == Multiple(0, r[0].increment);
    if name == "dense" {
      assert r[1].min == Multiple(60, r[1].increment);
      assert r[2].min == Multiple(16, r[2].increment);
    } else if name == "auto" {
      assert r[1].min == Multiple(50, r[1].increment);
      assert r[2].min == Multiple(20, r[2].increment);
    }
    AlignedIsMonotone(r);
  }

  /** The parser accepts lists that are not monotone: a price of 1.10 is bucketed below one of 0.95. */
  lemma AcceptedButNotMonotone()
    ensures var ranges := [Range(0.0, 1.0, 0.3), Range(1.0, 2.0, 0.7)];
            && Contiguous(ranges)
            && Bucket(0.95, ranges) == Some(0.9) && Bucket(1.1, ranges) == Some(0.7)
            && !BucketsMonotone(ranges)
  {
  }

  // ---------- in plain terms ----------

  /** The bucket is the largest multiple of the step at or below the price. */
  ghost predicate LargestMultiple(cpm: real, step: real, bucket: Option<real>) {
    exists n: int {:trigger Multiple(n, step)} ::
      && bucket == Some(Multiple(n, step)) && Multiple(n, step) == n as real * step
      && Multiple(n, step) <= cpm < Multiple(n, step) + step
  }

  /** In [0, max] the bucket is the largest multiple of the increment of the range the price is in. */
  lemma BucketIsLargestMultiple(cpm: real, ranges: seq<Range>, i: nat)
    requires Contiguous(ranges) && i < |ranges| && ranges[i].min <= cpm
    requires if i < |ranges| - 1 then cpm < ranges[i].max else cpm <= ranges[i].max
    ensures LargestMultiple(cpm, ranges[i].increment, Bucket(cpm, ranges))
  {
    BucketMaxIsLast(ranges);
    var step := ranges[i].increment;
    if i < |ranges| - 1 {
      ContainingFoot(ranges, i, cpm);
    }
    RoundDownBounds(cpm, step);
    assert Bucket(cpm, ranges) == Some(Multiple((cpm / step).Floor, step));
  }

  /** Buckets under one range from zero. */
  lemma OneStep(cpm: real, max: real, step: real)
    requires cpm >= 0.0 && max > 0.0 && step > 0.0
    ensures var bucket := Bucket(cpm, [Range(0.0, max, step)]);
            if cpm <= max then LargestMultiple(cpm, step, bucket) else bucket == Some(max)
  {
    hide LargestMultiple, Bucket;
    var ranges := [Range(0.0, max, step)];
    if cpm <= max {
      BucketIsLargestMultiple(cpm, ranges, 0);
    } else {
      BucketBounds(cpm, ranges);
    }
  }

  /** Buckets under three ranges from zero. */
  lemma ThreeSteps(cpm: real, a: Range, b: Range, c: Range)
    requires cpm >= 0.0 && Contiguous([a, b, c])
    ensures var bucket := Bucket(cpm, [a, b, c]);
            if cpm < a.max then LargestMultiple(cpm, a.increment, bucket)
            else if cpm < b.max then LargestMultiple(cpm, b.increment, bucket)
            else if cpm <= c.max then LargestMultiple(cpm, c.increment, bucket)
            else bucket == Some(c.max)
  {
    hide LargestMultiple, Bucket;
    var ranges := [a, b, c];
    assert b.min == a.max < b.max == c.min < c.max by {
      assert ranges[1].min == ranges[0].max && ranges[2].min == ranges[1].max;
      assert ranges[1].min < ranges[1].max && ranges[2].min < ranges[2].max;
    }
    if cpm <= c.max {
      BucketIsLargestMultiple(cpm, ranges, if cpm < a.max then 0 else if cpm < b.max then 1 else 2);
    } else {
      BucketBounds(cpm, ranges);
    }
  }

  /** The steps of every built-in granularity, by price. */
  lemma BuiltInBuckets(name: string, cpm: real)
    requires cpm >= 0.0
    ensures var bucket := Bucket(cpm, FromString(name).ranges);
            && (name == "low" ==> if cpm <= 5.0 then LargestMultiple(cpm, 0.5, bucket) else bucket == Some(5.0))
            && (name == "med" || name == "medium" ==>
                  if cpm <= 20.0 then LargestMultiple(cpm, 0.1, bucket) else bucket == Some(20.0))
            && (name == "high" ==> if cpm <= 20.0 then LargestMultiple(cpm, 0.01, bucket) else bucket == Some(20.0))
            && (name == "auto" ==>
                  if cpm < 5.0 then LargestMultiple(cpm, 0.05, bucket)
                  else if cpm < 10.0 then LargestMultiple(cpm, 0.1, bucket)
                  else if cpm <= 20.0 then LargestMultiple(cpm, 0.5, bucket)
                  else bucket == Some(20.0))
            && (name == "dense" ==>
                  if cpm < 3.0 then LargestMultiple(cpm, 0.01, bucket)
                  else if cpm < 8.0 then LargestMultiple(cpm, 0.05, bucket)
                  else if cpm <= 20.0 then LargestMultiple(cpm, 0.5, bucket)
                  else bucket == Some(20.0))
  {
    hide LargestMultiple, Bucket;
    if name == "low" {
      OneStep(cpm, 5.0, 0.5);
    } else if name == "med" || name == "medium" {
      OneStep(cpm, 20.0, 0.1);
    } else if name == "high" {
      OneStep(cpm, 20.0, 0.01);
    } else if name == "auto" {
      ThreeSteps(cpm, Range(0.0, 5.0, 0.05), Range(5.0, 10.0, 0.1), Range(10.0, 20.0, 0.5));
    } else if name == "dense" {
      ThreeSteps(cpm, Range(0.0, 3.0, 0.01), Range(3.0, 8.0, 0.05), Range(8.0, 20.0, 0.5));
    }
  }
}
