/** What competitive exclusion decides about one bid alone: its category, duration, key and label. */
module CategoryRules {
  import opened Lists
  import opened Bids
  import PG = PriceGranularity

  /** The number formatting the source takes from `strconv`. */
  datatype NumberText = NumberText(format: (real, int) -> string, parse: string -> Option<real>)

  datatype Config = Config(
    withCategory: bool,
    translateCategories: Option<bool>,
    primaryAdServer: int,
    publisher: string,
    durations: seq<int>,
    appendBidderNames: bool,
    granularity: PG.Granularity,
    fetchCategory: (string, string, string) -> Option<string>,
    text: NumberText
  )

  datatype Reason = NoCategory | NoMapping(adServer: string, publisher: string) | TooLong | Deduplicated

  datatype Rejection = Rejection(id: string, reason: Reason)

  /** What the bid alone decides, before it is compared with any other. */
  datatype Outcome = Rejected(reason: Reason) | Eligible(pb: string, category: string, duration: int)

  predicate Translates(cfg: Config) {
    cfg.translateCategories.None? || cfg.translateCategories.value
  }

  function AdServerName(id: int): Option<string> {
    if id == 1 then Some("freewheel") else if id == 2 then Some("dfp") else None
  }

  /** The name used in mapping lookups; empty when no translation takes place. */
  function AdServer(cfg: Config): string {
    if cfg.withCategory && Translates(cfg) && AdServerName(cfg.primaryAdServer).Some?
    then AdServerName(cfg.primaryAdServer).value else ""
  }

  function Publisher(cfg: Config): string {
    if cfg.withCategory && Translates(cfg) then cfg.publisher else ""
  }

  function PriceText(cfg: Config, price: real): string {
    PG.BucketText(price, cfg.granularity, cfg.text.format)
  }

  /** A price text that does not parse counts as zero. */
  function PriceValue(cfg: Config, pb: string): real {
    match cfg.text.parse(pb)
    case None => 0.0
    case Some(x) => x
  }

  /** The first listed duration that is long enough. */
  function FirstAtLeast(sorted: seq<int>, duration: int): Option<int> {
    if sorted == [] then None
    else if duration <= sorted[0] then Some(sorted[0])
    else FirstAtLeast(sorted[1..], duration)
  }

  /** The duration a bid is filed under, or nothing if it is longer than every listed one. */
  function RoundDuration(durations: seq<int>, duration: int): Option<int> {
    if durations == [] then Some(duration) else FirstAtLeast(SortInts(durations), duration)
  }

  /** The category a bid is filed under, or the reason it has none. */
  function CategoryOf(cfg: Config, bid: BidData): (string, Option<Reason>) {
    var own := if bid.video.Some? then bid.video.value.primaryCategory else "";
    if cfg.withCategory && own == "" then
      if |bid.bid.cat| != 1 then ("", Some(NoCategory))
      else if Translates(cfg) then
        var mapped := cfg.fetchCategory(AdServer(cfg), Publisher(cfg), bid.bid.cat[0]);
        if mapped.None? || mapped.value == "" then ("", Some(NoMapping(AdServer(cfg), Publisher(cfg))))
        else (mapped.value, None)
      else (bid.bid.cat[0], None)
    else (own, None)
  }

  function Classify(cfg: Config, bid: BidData): Outcome {
    var (category, problem) := CategoryOf(cfg, bid);
    if problem.Some? then Rejected(problem.value)
    else
      match RoundDuration(cfg.durations, if bid.video.Some? then bid.video.value.duration else 0)
      case None => Rejected(TooLong)
      case Some(d) => Eligible(PriceText(cfg, bid.bid.price), category, d)
  }

  function BaseKey(cfg: Config, o: Outcome): string
    requires o.Eligible?
  {
    if cfg.withCategory then o.pb + "_" + o.category + "_" + Itoa(o.duration) + "s"
    else o.pb + "_" + Itoa(o.duration) + "s"
  }

  function DupeKey(cfg: Config, o: Outcome): string
    requires o.Eligible?
  {
    if cfg.withCategory then o.category else BaseKey(cfg, o)
  }

  function CategoryDuration(cfg: Config, o: Outcome, bidder: string): string
    requires o.Eligible?
  {
    if cfg.appendBidderNames then BaseKey(cfg, o) + "_" + bidder else BaseKey(cfg, o)
  }

  lemma {:induction false} FirstAtLeastIsLeast(sorted: seq<int>, duration: int)
    requires Ascending(sorted)
    ensures FirstAtLeast(sorted, duration).None? <==> forall d :: d in sorted ==> d < duration
    ensures FirstAtLeast(sorted, duration).Some? ==>
      var r := FirstAtLeast(sorted, duration).value;
      r in sorted && duration <= r && forall d :: d in sorted && duration <= d ==> r <= d
  {
    if sorted != [] {
      assert forall d :: d in sorted <==> d == sorted[0] || d in sorted[1..];
      assert sorted[0] in sorted;
      FirstAtLeastIsLeast(sorted[1..], duration);
    }
  }

  /** A listed duration is never rounded down, and rounding up goes to the nearest listed one. */
  lemma RoundDurationIsLeast(durations: seq<int>, duration: int)
    requires durations != []
    ensures RoundDuration(durations, duration).None? <==> forall d :: d in durations ==> d < duration
    ensures RoundDuration(durations, duration).Some? ==>
      var r := RoundDuration(durations, duration).value;
      r in durations && duration <= r && forall d :: d in durations && duration <= d ==> r <= d
  {
    SortIntsAscending(durations);
    SameMembers(SortInts(durations), durations);
    FirstAtLeastIsLeast(SortInts(durations), duration);
  }

  // ---------- in plain terms ----------

  /** What becomes of a bid's category, case by case. */
  lemma CategoryCases(cfg: Config, d: BidData)
    ensures var own := if d.video.Some? then d.video.value.primaryCategory else "";
            var translates := cfg.translateCategories != Some(false);
            var server :=
              if cfg.primaryAdServer == 1 then "freewheel" else if cfg.primaryAdServer == 2 then "dfp" else "";
            var (category, problem) := CategoryOf(cfg, d);
            && (own != "" || !cfg.withCategory ==> category == own && problem == None)
            && (own == "" && cfg.withCategory && |d.bid.cat| != 1 ==> problem == Some(NoCategory))
            && (own == "" && cfg.withCategory && |d.bid.cat| == 1 ==>
                  && (!translates ==> category == d.bid.cat[0] && problem == None)
                  && (translates ==>
                        var mapped := cfg.fetchCategory(server, cfg.publisher, d.bid.cat[0]);
                        if mapped.None? || mapped == Some("") then problem == Some(NoMapping(server, cfg.publisher))
                        else category == mapped.value && problem == None))
  {
  }

  /** A bid is eligible unless its category is missing or it is longer than every listed duration. */
  lemma EligibleCases(cfg: Config, d: BidData)
    ensures var o, (category, problem) := Classify(cfg, d), CategoryOf(cfg, d);
            var duration := if d.video.Some? then d.video.value.duration else 0;
            && (problem.Some? ==> o == Rejected(problem.value))
            && (problem.None? && cfg.durations != [] && (forall x :: x in cfg.durations ==> x < duration) ==>
                  o == Rejected(TooLong))
            && (problem.None? && (cfg.durations == [] || exists x :: x in cfg.durations && duration <= x) ==>
                  && o.Eligible? && o.category == category
                  && o.pb == PG.BucketText(d.bid.price, cfg.granularity, cfg.text.format)
                  && (cfg.durations == [] ==> o.duration == duration)
                  && (cfg.durations != [] ==>
                        && o.duration in cfg.durations && duration <= o.duration
                        && forall x :: x in cfg.durations && duration <= x ==> o.duration <= x))
  {
    hide CategoryOf, RoundDuration;
    var duration := if d.video.Some? then d.video.value.duration else 0;
    if cfg.durations != [] {
      RoundDurationIsLeast(cfg.durations, duration);
    } else {
      NoDurations(duration);
    }
  }

  lemma NoDurations(duration: int)
    ensures RoundDuration([], duration) == Some(duration)
  {
  }

  /** The label and the key of a bid, spelled out. */
  lemma LabelAndKey(cfg: Config, o: Outcome, bidder: string)
    requires o.Eligible?
    ensures var suffix := if cfg.appendBidderNames then "_" + bidder else "";
            var seconds := Itoa(o.duration) + "s";
            && (cfg.withCategory ==>
                  && CategoryDuration(cfg, o, bidder) == o.pb + "_" + o.category + "_" + seconds + suffix
                  && DupeKey(cfg, o) == o.category)
            && (!cfg.withCategory ==>
                  && CategoryDuration(cfg, o, bidder) == o.pb + "_" + seconds + suffix
                  && DupeKey(cfg, o) == o.pb + "_" + seconds)
  {
  }
}
