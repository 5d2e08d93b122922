/**
 * The category-duration labels of surviving bids: when two of them can be the same. Prices are
 * taken to be formatted without underscores, as `strconv.FormatFloat` does.
 */
module CategoryLabels {
  import opened Lists
  import opened Bids
  import opened CategoryRules
  import opened DedupeLedger
  import opened CategoryMapping

  lemma SameSeconds(d: int, d': int)
    requires Seconds(d) == Seconds(d')
    ensures d == d'
  {
    assert Itoa(d) == Seconds(d)[..|Itoa(d)|] && Itoa(d') == Seconds(d')[..|Itoa(d')|];
    ItoaInjective(d, d');
  }

  /** A label without bidder name tells price, category and duration, provided price texts have no underscore. */
  lemma LabelTellsAll(cfg: Config, o: Outcome, o': Outcome)
    requires o.Eligible? && o'.Eligible? && BaseKey(cfg, o) == BaseKey(cfg, o')
    requires cfg.withCategory ==> '_' !in o.pb && '_' !in o'.pb
    ensures o.pb == o'.pb && o.duration == o'.duration && (cfg.withCategory ==> o.category == o'.category)
  {
    var secs, secs' := Seconds(o.duration), Seconds(o'.duration);
    ItoaPlain(o.duration);
    ItoaPlain(o'.duration);
    if cfg.withCategory {
      var front, front' := o.pb + "_" + o.category, o'.pb + "_" + o'.category;
      assert BaseKey(cfg, o) == front + ['_'] + secs && BaseKey(cfg, o') == front' + ['_'] + secs';
      JoinedOnce(front, secs, front', secs', '_');
      JoinedOnce(o.pb, o.category, o'.pb, o'.category, '_');
    } else {
      assert BaseKey(cfg, o) == o.pb + ['_'] + secs && BaseKey(cfg, o') == o'.pb + ['_'] + secs';
      JoinedOnce(o.pb, secs, o'.pb, secs', '_');
    }
    SameSeconds(o.duration, o'.duration);
  }

  // ---------- labels with bidder names ----------

  function Seconds(d: int): string {
    Itoa(d) + "s"
  }

  /** Some bid can be filed under the duration. */
  predicate Filed(cfg: Config, d: int) {
    cfg.durations == [] || d in cfg.durations
  }

  lemma FiledDurations(cfg: Config, d: int)
    ensures RoundDuration(cfg.durations, d).Some? ==> Filed(cfg, RoundDuration(cfg.durations, d).value)
    ensures Filed(cfg, d) ==> RoundDuration(cfg.durations, d) == Some(d)
  {
    hide FirstAtLeast;
    if cfg.durations != [] {
      RoundDurationIsLeast(cfg.durations, d);
    }
  }

  /** Nothing, or something that ends in an underscore. */
  predicate IsHead(front: string) {
    front == "" || front[|front| - 1] == '_'
  }

  /** The name is the other one with a duration in front of it, which begins the name or follows an underscore. */
  predicate ExtendsBy(name: string, other: string, front: string, d: int) {
    IsHead(front) && name == front + Seconds(d) + "_" + other
  }

  /** Some duration that bids are filed under extends the other name to this one. */
  ghost predicate Extends(cfg: Config, name: string, other: string) {
    exists front, d :: Filed(cfg, d) && ExtendsBy(name, other, front, d)
  }

  /** Names without underscore extend nothing; `5s_x` extends `x` wherever five seconds is a duration. */
  lemma WhichNamesExtend(cfg: Config, name: string, other: string)
    ensures Extends(cfg, name, other) ==> '_' in name && |name| > |other|
    ensures Filed(cfg, 5) ==> Extends(cfg, "5s_x", "x")
  {
    hide Filed;
    if front, d :| Filed(cfg, d) && ExtendsBy(name, other, front, d) {
      assert name[|front| + |Seconds(d)|] == '_';
    }
    assert Itoa(5) == "5";
    assert ExtendsBy("5s_x", "x", "", 5);
  }

  lemma {:induction false} LastPart(s: string) returns (front: string, part: string)
    ensures s == front + part && IsHead(front) && '_' !in part
  {
    if s == "" || s[|s| - 1] == '_' {
      front, part := s, "";
    } else {
      front, part := LastPart(s[..|s| - 1]);
      part := part + [s[|s| - 1]];
    }
  }

  /** If what follows a category and its duration is longer on one side, the other side's duration ends the surplus. */
  lemma SurplusEndsInDuration(m: string, surplus: string, category: string, d: int) returns (front: string)
    requires m + "_" + surplus == category + "_" + Seconds(d)
    ensures IsHead(front) && surplus == front + Seconds(d)
  {
    var part;
    front, part := LastPart(surplus);
    var before := m + "_" + front;
    assert before[|before| - 1] == '_';
    var rest := before[..|before| - 1];
    assert m + "_" + surplus == rest + ['_'] + part;
    assert category + "_" + Seconds(d) == category + ['_'] + Seconds(d);
    ItoaPlain(d);
    JoinedOnce(rest, part, category, Seconds(d), '_');
  }

  /** Two labels with bidder names that agree after the price: the longer name extends the shorter one. */
  lemma LongerNameExtends(m: string, name: string, category: string, d: int, other: string) returns (front: string)
    requires m + "_" + name == category + "_" + Seconds(d) + "_" + other && |name| > |other|
    ensures ExtendsBy(name, other, front, d)
  {
    var m' := category + "_" + Seconds(d);
    var n := |name| - |other|;
    var all := m + "_" + name;
    assert name[n..] == all[|all| - |other|..] == other;
    var x := all[..|all| - |other|];
    assert x == m + "_" + name[..n] == m' + "_";
    assert name[n - 1] == x[|x| - 1] == '_';
    assert m + "_" + name[..n - 1] == x[..|x| - 1] == m';
    front := SurplusEndsInDuration(m, name[..n - 1], category, d);
    assert name == name[..n - 1] + "_" + other;
  }

  lemma SameNameSameBase(m: string, m': string, name: string, name': string)
    requires m + "_" + name == m' + "_" + name' && |name| == |name'|
    ensures m == m' && name == name'
  {
    var all := m + "_" + name;
    assert m == all[..|m|] && name == all[|m| + 1..];
    assert m' == all[..|m'|] && name' == all[|m'| + 1..];
  }

  function AfterPrice(o: Outcome): string
    requires o.Eligible?
  {
    o.category + "_" + Seconds(o.duration)
  }

  lemma SamePrice(cfg: Config, o: Outcome, name: string, o': Outcome, name': string)
    requires o.Eligible? && o'.Eligible? && cfg.withCategory && cfg.appendBidderNames
    requires '_' !in o.pb && '_' !in o'.pb && CategoryDuration(cfg, o, name) == CategoryDuration(cfg, o', name')
    ensures o.pb == o'.pb && AfterPrice(o) + "_" + name == AfterPrice(o') + "_" + name'
  {
    hide CategoryDuration, Seconds;
    var rest, rest' := AfterPrice(o) + "_" + name, AfterPrice(o') + "_" + name';
    LabelParts(cfg, o.pb, o.category, o.duration, name);
    LabelParts(cfg, o'.pb, o'.category, o'.duration, name');
    assert (o.category + "_") + (Seconds(o.duration) + "_" + name) == rest;
    assert (o'.category + "_") + (Seconds(o'.duration) + "_" + name') == rest';
    JoinedOnce(o.pb, rest, o'.pb, rest', '_');
  }

  /** Bids shown under one label have one key, unless one bidder's name extends the other's. */
  lemma SameLabel(cfg: Config, o: Outcome, name: string, o': Outcome, name': string)
    requires o.Eligible? && o'.Eligible? && Filed(cfg, o.duration) && Filed(cfg, o'.duration)
    requires cfg.withCategory || cfg.appendBidderNames ==> '_' !in o.pb && '_' !in o'.pb
    requires CategoryDuration(cfg, o, name) == CategoryDuration(cfg, o', name')
    ensures DupeKey(cfg, o) == DupeKey(cfg, o')
            || (cfg.withCategory && cfg.appendBidderNames && (Extends(cfg, name, name') || Extends(cfg, name', name)))
  {
    if !cfg.appendBidderNames {
      LabelTellsAll(cfg, o, o');
    } else if !cfg.withCategory {
      SameLabelWithoutCategory(cfg, o, name, o', name');
    } else {
      SamePrice(cfg, o, name, o', name');
      var m, m' := AfterPrice(o), AfterPrice(o');
      if |name| > |name'| {
        var front := LongerNameExtends(m, name, o'.category, o'.duration, name');
        assert Extends(cfg, name, name');
      } else if |name| < |name'| {
        var front := LongerNameExtends(m', name', o.category, o.duration, name);
        assert Extends(cfg, name', name);
      } else {
        SameNameSameBase(m, m', name, name');
        ItoaPlain(o.duration);
        ItoaPlain(o'.duration);
        JoinedOnce(o.category, Seconds(o.duration), o'.category, Seconds(o'.duration), '_');
      }
    }
  }

  lemma SameLabelWithoutCategory(cfg: Config, o: Outcome, name: string, o': Outcome, name': string)
    requires o.Eligible? && o'.Eligible? && '_' !in o.pb && '_' !in o'.pb && !cfg.withCategory && cfg.appendBidderNames
    requires CategoryDuration(cfg, o, name) == CategoryDuration(cfg, o', name')
    ensures DupeKey(cfg, o) == DupeKey(cfg, o')
  {
    var rest, rest' := Seconds(o.duration) + "_" + name, Seconds(o'.duration) + "_" + name';
    assert CategoryDuration(cfg, o, name) == o.pb + ['_'] + rest;
    assert CategoryDuration(cfg, o', name') == o'.pb + ['_'] + rest';
    JoinedOnce(o.pb, rest, o'.pb, rest', '_');
    ItoaPlain(o.duration);
    ItoaPlain(o'.duration);
    JoinedOnce(Seconds(o.duration), name, Seconds(o'.duration), name', '_');
    SameSeconds(o.duration, o'.duration);
  }

  /** The category under which the shorter name's bid gets the label of the longer one's bid in category "c". */
  function CollidingCategory(front: string, d: int): string {
    if front == "" then "c_" + Seconds(d) else "c_" + Seconds(d) + "_" + front[..|front| - 1]
  }

  lemma CollidingCategoryFits(front: string, d: int)
    requires IsHead(front)
    ensures "c_" + Seconds(d) + "_" + front == CollidingCategory(front, d) + "_"
    ensures |CollidingCategory(front, d)| > 1
  {
    hide Seconds;
    if front != "" {
      assert front == front[..|front| - 1] + "_";
    }
  }

  /** A label with category and bidder name, cut behind the category. */
  lemma LabelParts(cfg: Config, pb: string, category: string, d: int, name: string)
    requires cfg.withCategory && cfg.appendBidderNames
    ensures CategoryDuration(cfg, Eligible(pb, category, d), name) ==
            pb + "_" + ((category + "_") + (Seconds(d) + "_" + name))
  {
    hide Itoa;
  }

  /** An extended name gives two bids with different keys the same label. */
  lemma LabelsCollide(cfg: Config, pb: string, name: string, other: string, front: string, d: int)
    requires cfg.withCategory && cfg.appendBidderNames && ExtendsBy(name, other, front, d)
    ensures var o, o' := Eligible(pb, "c", d), Eligible(pb, CollidingCategory(front, d), d);
            DupeKey(cfg, o) != DupeKey(cfg, o') && CategoryDuration(cfg, o, name) == CategoryDuration(cfg, o', other)
  {
    hide CategoryDuration, Seconds, CollidingCategory, BaseKey;
    var category, tail := CollidingCategory(front, d), Seconds(d) + "_" + other;
    CollidingCategoryFits(front, d);
    LabelParts(cfg, pb, "c", d, name);
    LabelParts(cfg, pb, category, d, other);
    assert ("c" + "_") + (Seconds(d) + "_" + name) == ("c_" + Seconds(d) + "_" + front) + tail;
  }

  /** A bid that is filed under the given category and duration. */
  function BidFor(id: string, category: string, d: int): BidData {
    BidData(Bid(id, "imp", 1.0, "", [], 0, 0, 0, "", ""), Some(BidVideo(d, category)))
  }

  lemma BidForIsEligible(cfg: Config, id: string, category: string, d: int)
    requires Filed(cfg, d) && category != ""
    ensures Classify(cfg, BidFor(id, category, d)) == Eligible(PriceText(cfg, 1.0), category, d)
  {
    hide RoundDuration;
    FiledDurations(cfg, d);
  }

  // ---------- whole runs ----------

  /** What a run of `applyCategoryMapping` may return for these bids. */
  ghost predicate Returned(cfg: Config, cards: Cards, res: map<string, string>) {
    if UnknownAdServer(cfg) then res == map[] else Exclusive(cards, res)
  }

  /** No two surviving bids are shown under the same label. */
  ghost predicate ShownApart(cards: Cards, res: map<string, string>) {
    forall p, q {:trigger Survives(cards, res, p), Survives(cards, res, q)} ::
      Survives(cards, res, p) && Survives(cards, res, q) && res[cards[p].id] == res[cards[q].id] ==> p == q
  }

  ghost predicate AlwaysShownApart(cfg: Config, names: set<string>) {
    forall offers: Offers, res :: offers.Keys == names && UniqueAcross(CardsOf(cfg, offers)) ==>
      Returned(cfg, CardsOf(cfg, offers), res) ==> ShownApart(CardsOf(cfg, offers), res)
  }

  /** Labels carry category and bidder name, and one name extends another by a duration bids are filed under. */
  ghost predicate NamesClash(cfg: Config, names: set<string>) {
    && !UnknownAdServer(cfg) && cfg.withCategory && cfg.appendBidderNames
    && exists name, other :: name in names && other in names && Extends(cfg, name, other)
  }

  /** Formatted prices have no underscore. */
  ghost predicate PlainPrices(cfg: Config) {
    forall x, n :: '_' !in cfg.text.format(x, n)
  }

  /** A bid with a key: its card, and the duration and price text it is filed under. */
  lemma EligibleCard(cfg: Config, name: string, data: BidData)
    requires CardOf(cfg, name, data).key.Some?
    ensures var o := Classify(cfg, data);
            && o.Eligible? && Filed(cfg, o.duration) && (PlainPrices(cfg) ==> '_' !in o.pb)
            && CardOf(cfg, name, data).key == Some(DupeKey(cfg, o))
            && CardOf(cfg, name, data).shown == CategoryDuration(cfg, o, name)
  {
    hide CategoryOf, RoundDuration, BaseKey;
    FiledDurations(cfg, if data.video.Some? then data.video.value.duration else 0);
  }

  lemma ShownApartUnlessClash(cfg: Config, offers: Offers, res: map<string, string>, p: Pos, q: Pos)
    requires cfg.withCategory || cfg.appendBidderNames ==> PlainPrices(cfg)
    requires !NamesClash(cfg, offers.Keys) && Returned(cfg, CardsOf(cfg, offers), res)
    requires var cards := CardsOf(cfg, offers);
             Survives(cards, res, p) && Survives(cards, res, q) && res[cards[p].id] == res[cards[q].id]
    ensures p == q
  {
    hide Classify, CardOf, Extends, PlainPrices, DupeKey, CategoryDuration, Filed;
    var cards := CardsOf(cfg, offers);
    var data, data' := offers[p.seat][p.index], offers[q.seat][q.index];
    EligibleCard(cfg, p.seat, data);
    EligibleCard(cfg, q.seat, data');
    SameLabel(cfg, Classify(cfg, data), p.seat, Classify(cfg, data'), q.seat);
  }

  /** One bid in each of two seats and none in the others. */
  function TwoBids(names: set<string>, name: string, a: BidData, other: string, b: BidData): Offers {
    map s | s in names :: if s == name then [a] else if s == other then [b] else []
  }

  lemma TwoCards(cfg: Config, names: set<string>, name: string, a: BidData, other: string, b: BidData)
    requires name in names && other in names && name != other
    ensures var cards := CardsOf(cfg, TwoBids(names, name, a, other, b));
            cards == map[Pos(name, 0) := CardOf(cfg, name, a), Pos(other, 0) := CardOf(cfg, other, b)]
  {
    hide CardOf;
  }

  /** Two bids with different keys both survive every run, each under its own label. */
  lemma TwoSurvivors(cards: Cards, p: Pos, q: Pos)
    requires p != q && cards.Keys == {p, q} && cards[p].id != cards[q].id
    requires cards[p].key.Some? && cards[q].key.Some? && cards[p].key != cards[q].key
    ensures UniqueAcross(cards)
    ensures Exclusive(cards, map[cards[p].id := cards[p].shown, cards[q].id := cards[q].shown])
    ensures forall res :: Exclusive(cards, res) ==> Survives(cards, res, p) && Survives(cards, res, q)
  {
    var res := map[cards[p].id := cards[p].shown, cards[q].id := cards[q].shown];
    assert cards[p].id in res && cards[q].id in res;
    forall r | Exclusive(cards, r) ensures Survives(cards, r, p) && Survives(cards, r, q) {
      assert Represented(cards, r, p) && Represented(cards, r, q);
    }
  }

  /** The cards of two bids that collide. */
  ghost predicate Collide(cards: Cards, p: Pos, q: Pos) {
    && p != q && cards.Keys == {p, q} && cards[p].id != cards[q].id
    && cards[p].key.Some? && cards[q].key.Some? && cards[p].key != cards[q].key
    && cards[p].shown == cards[q].shown
  }

  lemma CollidingCards(cfg: Config, names: set<string>, name: string, other: string, front: string, d: int)
    requires cfg.withCategory && cfg.appendBidderNames
    requires name in names && other in names && Filed(cfg, d) && ExtendsBy(name, other, front, d)
    ensures var offers := TwoBids(names, name, BidFor("1", "c", d), other, BidFor("2", CollidingCategory(front, d), d));
            Collide(CardsOf(cfg, offers), Pos(name, 0), Pos(other, 0))
  {
    hide Classify, CategoryDuration, DupeKey, CollidingCategory, PriceText, CardsOf, TwoBids, Filed;
    var category := CollidingCategory(front, d);
    CollidingCategoryFits(front, d);
    var a, b := BidFor("1", "c", d), BidFor("2", category, d);
    BidForIsEligible(cfg, "1", "c", d);
    BidForIsEligible(cfg, "2", category, d);
    LabelsCollide(cfg, PriceText(cfg, 1.0), name, other, front, d);
    assert |name| > |other|;
    TwoCards(cfg, names, name, a, other, b);
  }

  /** Where names clash, two seats' bids survive every run and are shown under one label. */
  lemma ClashingNamesCollide(cfg: Config, names: set<string>, name: string, other: string)
    returns (offers: Offers, p: Pos, q: Pos)
    requires !UnknownAdServer(cfg) && cfg.withCategory && cfg.appendBidderNames
    requires name in names && other in names && Extends(cfg, name, other)
    ensures offers.Keys == names && UniqueAcross(CardsOf(cfg, offers)) && p != q
    ensures exists res :: Returned(cfg, CardsOf(cfg, offers), res)
    ensures var cards := CardsOf(cfg, offers);
            forall res :: Returned(cfg, cards, res) ==>
              Survives(cards, res, p) && Survives(cards, res, q) && res[cards[p].id] == res[cards[q].id]
  {
    hide CardsOf, CollidingCategory, ExtendsBy, Filed, Exclusive, UniqueAcross, Survives;
    var front, d :| Filed(cfg, d) && ExtendsBy(name, other, front, d);
    offers := TwoBids(names, name, BidFor("1", "c", d), other, BidFor("2", CollidingCategory(front, d), d));
    p, q := Pos(name, 0), Pos(other, 0);
    CollidingCards(cfg, names, name, other, front, d);
    TwoSurvivors(CardsOf(cfg, offers), p, q);
    SurvivorsShown(CardsOf(cfg, offers), p, q);
    var cards := CardsOf(cfg, offers);
    assert Returned(cfg, cards, map[cards[p].id := cards[p].shown, cards[q].id := cards[q].shown]);
  }

  lemma SurvivorsShown(cards: Cards, p: Pos, q: Pos)
    ensures forall res :: Exclusive(cards, res) && Survives(cards, res, p) && Survives(cards, res, q) ==>
      && p in cards && cards[p].id in res && res[cards[p].id] == cards[p].shown
      && q in cards && cards[q].id in res && res[cards[q].id] == cards[q].shown
  {
  }

  /** Exactly when no run, whatever the bids, shows two surviving bids of these seats under one label. */
  lemma ShownApartIff(cfg: Config, names: set<string>)
    requires cfg.withCategory || cfg.appendBidderNames ==> PlainPrices(cfg)
    ensures AlwaysShownApart(cfg, names) <==> !NamesClash(cfg, names)
  {
    hide Extends, Returned, UniqueAcross, CardsOf, PlainPrices;
    if NamesClash(cfg, names) {
      var name, other :| name in names && other in names && Extends(cfg, name, other);
      var offers, p, q := ClashingNamesCollide(cfg, names, name, other);
      var res :| Returned(cfg, CardsOf(cfg, offers), res);
      assert !ShownApart(CardsOf(cfg, offers), res);
    } else {
      forall offers: Offers, res | offers.Keys == names && Returned(cfg, CardsOf(cfg, offers), res)
        ensures ShownApart(CardsOf(cfg, offers), res)
      {
        var cards := CardsOf(cfg, offers);
        forall p, q | Survives(cards, res, p) && Survives(cards, res, q) && res[cards[p].id] == res[cards[q].id]
          ensures p == q
        {
          ShownApartUnlessClash(cfg, offers, res, p, q);
        }
      }
    }
  }
}
