/**
 * `setTargeting`: the key-value pairs an ad server sees. Every bidder's best bid gets its keys
 * suffixed with the bidder's name; the overall winner of an imp gets them without suffix as well.
 */
module Targeting {
  import opened Lists
  import opened Bids
  import opened Auction

  const MAX_KEY_LENGTH := 20

  const HB_PB := "hb_pb"
  const HB_ENV := "hb_env"
  const HB_CACHE_HOST := "hb_cache_host"
  const HB_CACHE_PATH := "hb_cache_path"
  const HB_BIDDER := "hb_bidder"
  const HB_SIZE := "hb_size"
  const HB_DEAL := "hb_deal"
  const HB_FORMAT := "hb_format"
  const HB_CACHE_ID := "hb_cache_id"
  const HB_UUID := "hb_uuid"
  const HB_PB_CAT_DUR := "hb_pb_cat_dur"

  const ENV_APP := "mobile-app"

  ghost predicate IsTargetingKey(key: string) {
    || key == HB_PB || key == HB_ENV || key == HB_CACHE_HOST || key == HB_CACHE_PATH || key == HB_BIDDER
    || key == HB_SIZE || key == HB_DEAL || key == HB_FORMAT || key == HB_CACHE_ID
    || key == HB_UUID || key == HB_PB_CAT_DUR
  }

  datatype TargetData = TargetData(
    includeWinners: bool,
    includeBidderKeys: bool,
    includeFormat: bool,
    cacheHost: string,
    cachePath: string,
    isApp: bool,
    categoryMapping: map<string, string>
  )

  /** The per-bid tables of the auction that targeting reads. */
  datatype Tables = Tables(
    roundedPrices: map<PbsBid, string>,
    cacheIds: map<PbsBid, string>,
    vastCacheIds: map<PbsBid, string>
  )

  function BidderKey(key: string, bidder: string): string {
    var s := key + "_" + bidder;
    if |s| < MAX_KEY_LENGTH then s else s[..MAX_KEY_LENGTH]
  }

  function AddKeys(td: TargetData, keys: map<string, string>, key: string, value: string, bidder: string,
                   winner: bool): map<string, string>
  {
    var withBidder := if td.includeBidderKeys then keys[BidderKey(key, bidder) := value] else keys;
    if td.includeWinners && winner then withBidder[key := value] else withBidder
  }

  function TypeName(bidType: BidType): string {
    match bidType
    case Banner => "banner"
    case Video => "video"
    case Audio => "audio"
    case Native => "native"
    case OtherType(name) => name
  }

  function MakeHbSize(bid: Bid): string {
    if bid.w != 0 && bid.h != 0 then Itoa(bid.w) + "x" + Itoa(bid.h) else ""
  }

  /** A key with its value, offered or not. */
  datatype Offer = Offer(key: string, value: Option<string>)

  function NonEmpty(s: string): Option<string> {
    if s != "" then Some(s) else None
  }

  /** Everything that can be said about a bid, in the order the source says it. */
  function Offers(td: TargetData, t: Tables, bidder: string, b: PbsBid): seq<Offer> {
    [ Offer(HB_PB, Lookup(t.roundedPrices, b)),
      Offer(HB_BIDDER, Some(bidder)),
      Offer(HB_SIZE, NonEmpty(MakeHbSize(b.bid))),
      Offer(HB_CACHE_ID, Lookup(t.cacheIds, b)),
      Offer(HB_UUID, Lookup(t.vastCacheIds, b)),
      Offer(HB_FORMAT, if td.includeFormat then Some(TypeName(b.bidType)) else None),
      Offer(HB_CACHE_HOST, NonEmpty(td.cacheHost)),
      Offer(HB_CACHE_PATH, NonEmpty(td.cachePath)),
      Offer(HB_DEAL, NonEmpty(b.bid.dealId)),
      Offer(HB_ENV, if td.isApp then Some(ENV_APP) else None),
      Offer(HB_PB_CAT_DUR,
            if |td.categoryMapping| > 0
            then Some(if b.bid.id in td.categoryMapping then td.categoryMapping[b.bid.id] else "") else None) ]
  }

  /** The keys that the first `n` offers leave behind. */
  function Written(td: TargetData, offers: seq<Offer>, n: nat, bidder: string, winner: bool): map<string, string>
    requires n <= |offers|
  {
    if n == 0 then map[]
    else
      var before := Written(td, offers, n - 1, bidder, winner);
      if offers[n - 1].value.None? then before
      else AddKeys(td, before, offers[n - 1].key, offers[n - 1].value.value, bidder, winner)
  }

  function Targets(td: TargetData, t: Tables, bidder: string, b: PbsBid, winner: bool): map<string, string> {
    var offers := Offers(td, t, bidder, b);
    Written(td, offers, |offers|, bidder, winner)
  }

  /** One more offer. */
  lemma WrittenStep(td: TargetData, offers: seq<Offer>, n: nat, bidder: string, winner: bool)
    requires n < |offers|
    ensures var before := Written(td, offers, n, bidder, winner);
            Written(td, offers, n + 1, bidder, winner) ==
              if offers[n].value.None? then before
              else AddKeys(td, before, offers[n].key, offers[n].value.value, bidder, winner)
  {
  }

  lemma NothingWritten(td: TargetData, offers: seq<Offer>, bidder: string, winner: bool)
    ensures Written(td, offers, 0, bidder, winner) == map[]
  {
  }

  lemma OfferList(td: TargetData, t: Tables, bidder: string, b: PbsBid)
    ensures var offers := Offers(td, t, bidder, b);
            && |offers| == 11
            && offers[0] == Offer(HB_PB, Lookup(t.roundedPrices, b))
            && offers[1] == Offer(HB_BIDDER, Some(bidder))
            && offers[2] == Offer(HB_SIZE, NonEmpty(MakeHbSize(b.bid)))
            && offers[3] == Offer(HB_CACHE_ID, Lookup(t.cacheIds, b))
            && offers[4] == Offer(HB_UUID, Lookup(t.vastCacheIds, b))
            && offers[5] == Offer(HB_FORMAT, if td.includeFormat then Some(TypeName(b.bidType)) else None)
            && offers[6] == Offer(HB_CACHE_HOST, NonEmpty(td.cacheHost))
            && offers[7] == Offer(HB_CACHE_PATH, NonEmpty(td.cachePath))
            && offers[8] == Offer(HB_DEAL, NonEmpty(b.bid.dealId))
            && offers[9] == Offer(HB_ENV, if td.isApp then Some(ENV_APP) else None)
            && offers[10].key == HB_PB_CAT_DUR && (offers[10].value.Some? <==> |td.categoryMapping| > 0)
            && (|td.categoryMapping| > 0 ==>
                  offers[10].value.value == if b.bid.id in td.categoryMapping then td.categoryMapping[b.bid.id] else "")
  {
    hide MakeHbSize, TypeName;
  }

  /** Price, bidder and size. */
  method AddBidKeys(td: TargetData, t: Tables, bidder: string, b: PbsBid, winner: bool, keys: map<string, string>)
    returns (targets: map<string, string>)
    requires |Offers(td, t, bidder, b)| == 11 && keys == Written(td, Offers(td, t, bidder, b), 0, bidder, winner)
    ensures targets == Written(td, Offers(td, t, bidder, b), 3, bidder, winner)
  {
    hide Written, AddKeys, MakeHbSize, TypeName, Offers;
    ghost var offers := Offers(td, t, bidder, b);
    OfferList(td, t, bidder, b);
    targets := keys;
    WrittenStep(td, offers, 0, bidder, winner);
    if b in t.roundedPrices {
      targets := AddKeys(td, targets, HB_PB, t.roundedPrices[b], bidder, winner);
    }
    assert targets == Written(td, offers, 1, bidder, winner);
    WrittenStep(td, offers, 1, bidder, winner);
    targets := AddKeys(td, targets, HB_BIDDER, bidder, bidder, winner);
    assert targets == Written(td, offers, 2, bidder, winner);
    WrittenStep(td, offers, 2, bidder, winner);
    if MakeHbSize(b.bid) != "" {
      targets := AddKeys(td, targets, HB_SIZE, MakeHbSize(b.bid), bidder, winner);
    }
  }

  /** Cache ids and format. */
  method AddCacheKeys(td: TargetData, t: Tables, bidder: string, b: PbsBid, winner: bool, keys: map<string, string>)
    returns (targets: map<string, string>)
    requires |Offers(td, t, bidder, b)| == 11 && keys == Written(td, Offers(td, t, bidder, b), 3, bidder, winner)
    ensures targets == Written(td, Offers(td, t, bidder, b), 6, bidder, winner)
  {
    hide Written, AddKeys, MakeHbSize, TypeName, Offers;
    ghost var offers := Offers(td, t, bidder, b);
    OfferList(td, t, bidder, b);
    targets := keys;
    WrittenStep(td, offers, 3, bidder, winner);
    if b in t.cacheIds {
      targets := AddKeys(td, targets, HB_CACHE_ID, t.cacheIds[b], bidder, winner);
    }
    assert targets == Written(td, offers, 4, bidder, winner);
    WrittenStep(td, offers, 4, bidder, winner);
    if b in t.vastCacheIds {
      targets := AddKeys(td, targets, HB_UUID, t.vastCacheIds[b], bidder, winner);
    }
    assert targets == Written(td, offers, 5, bidder, winner);
    WrittenStep(td, offers, 5, bidder, winner);
    if td.includeFormat {
      targets := AddKeys(td, targets, HB_FORMAT, TypeName(b.bidType), bidder, winner);
    }
  }

  /** Where the cache is. */
  method AddHostKeys(td: TargetData, t: Tables, bidder: string, b: PbsBid, winner: bool, keys: map<string, string>)
    returns (targets: map<string, string>)
    requires |Offers(td, t, bidder, b)| == 11 && keys == Written(td, Offers(td, t, bidder, b), 6, bidder, winner)
    ensures targets == Written(td, Offers(td, t, bidder, b), 8, bidder, winner)
  {
    hide Written, AddKeys, MakeHbSize, TypeName, Offers;
    ghost var offers := Offers(td, t, bidder, b);
    OfferList(td, t, bidder, b);
    targets := keys;
    WrittenStep(td, offers, 6, bidder, winner);
    if td.cacheHost != "" {
      targets := AddKeys(td, targets, HB_CACHE_HOST, td.cacheHost, bidder, winner);
    }
    assert targets == Written(td, offers, 7, bidder, winner);
    WrittenStep(td, offers, 7, bidder, winner);
    if td.cachePath != "" {
      targets := AddKeys(td, targets, HB_CACHE_PATH, td.cachePath, bidder, winner);
    }
  }

  /** Deal, environment and category. */
  method AddDealKeys(td: TargetData, t: Tables, bidder: string, b: PbsBid, winner: bool, keys: map<string, string>)
    returns (targets: map<string, string>)
    requires |Offers(td, t, bidder, b)| == 11 && keys == Written(td, Offers(td, t, bidder, b), 8, bidder, winner)
    ensures targets == Written(td, Offers(td, t, bidder, b), 11, bidder, winner)
  {
    hide Written, AddKeys, MakeHbSize, TypeName, Offers;
    ghost var offers := Offers(td, t, bidder, b);
    OfferList(td, t, bidder, b);
    targets := keys;
    WrittenStep(td, offers, 8, bidder, winner);
    if |b.bid.dealId| > 0 {
      targets := AddKeys(td, targets, HB_DEAL, b.bid.dealId, bidder, winner);
    }
    assert targets == Written(td, offers, 9, bidder, winner);
    WrittenStep(td, offers, 9, bidder, winner);
    if td.isApp {
      targets := AddKeys(td, targets, HB_ENV, ENV_APP, bidder, winner);
    }
    assert targets == Written(td, offers, 10, bidder, winner);
    WrittenStep(td, offers, 10, bidder, winner);
    if |td.categoryMapping| > 0 {
      var category := if b.bid.id in td.categoryMapping then td.categoryMapping[b.bid.id] else "";
      targets := AddKeys(td, targets, HB_PB_CAT_DUR, category, bidder, winner);
    }
  }

  /** The body of `setTargeting` for one bid, part after part. */
  method BidTargets(td: TargetData, t: Tables, bidder: string, b: PbsBid, winner: bool)
    returns (targets: map<string, string>)
    ensures targets == Targets(td, t, bidder, b, winner)
  {
    hide Written, Offers;
    OfferList(td, t, bidder, b);
    NothingWritten(td, Offers(td, t, bidder, b), bidder, winner);
    targets := AddBidKeys(td, t, bidder, b, winner, map[]);
    targets := AddCacheKeys(td, t, bidder, b, winner, targets);
    targets := AddHostKeys(td, t, bidder, b, winner, targets);
    targets := AddDealKeys(td, t, bidder, b, winner, targets);
  }

  ghost predicate Targeted(td: TargetData, t: Tables, bidder: string, winner: PbsBid, top: PbsBid)
    reads top
  {
    top.bidTargets == Targets(td, t, bidder, top, winner == top)
  }

  method TargetImp(td: TargetData, t: Tables, winner: PbsBid, tops: map<string, PbsBid>)
    requires forall s, u :: s in tops && u in tops && tops[s] == tops[u] ==> s == u
    modifies tops.Values
    ensures forall s :: s in tops ==> Targeted(td, t, s, winner, tops[s])
  {
    hide Targets;
    var bidders := tops.Keys;
    while bidders != {}
      invariant bidders <= tops.Keys
      invariant forall s :: s in tops && s !in bidders ==> Targeted(td, t, s, winner, tops[s])
      decreases |bidders|
    {
      var s :| s in bidders;
      var targets := BidTargets(td, t, s, tops[s], winner == tops[s]);
      tops[s].bidTargets := targets;
      bidders := bidders - {s};
    }
  }

  /** Writes the targets of every bidder's best bid, and touches no other bid. */
  method SetTargeting(td: TargetData, t: Tables, winningBids: Winners, winningBidsByBidder: WinnersByBidder)
    requires winningBids.Keys == winningBidsByBidder.Keys && DistinctTops(winningBidsByBidder)
    modifies set imp, s | imp in winningBidsByBidder && s in winningBidsByBidder[imp] :: winningBidsByBidder[imp][s]
    ensures forall imp, s :: imp in winningBidsByBidder && s in winningBidsByBidder[imp] ==>
      Targeted(td, t, s, winningBids[imp], winningBidsByBidder[imp][s])
    ensures forall imp, s :: imp in winningBidsByBidder && s in winningBidsByBidder[imp] ==>
      var b := winningBidsByBidder[imp][s];
      && (td.includeWinners && winningBids[imp] == b ==> WinnerShows(td, t, s, b, b.bidTargets))
      && (td.includeBidderKeys ==> SuffixedShow(td, t, s, b, b.bidTargets))
      && (!td.includeBidderKeys && !(td.includeWinners && winningBids[imp] == b) ==> b.bidTargets == map[])
  {
    hide Targets, DistinctTops, WinnerShows, SuffixedShow;
    var imps := winningBidsByBidder.Keys;
    while imps != {}
      invariant imps <= winningBidsByBidder.Keys
      invariant forall imp, s :: imp in winningBidsByBidder && imp !in imps && s in winningBidsByBidder[imp] ==>
        Targeted(td, t, s, winningBids[imp], winningBidsByBidder[imp][s])
      decreases |imps|
    {
      var imp :| imp in imps;
      TopsOfImp(winningBidsByBidder, imp);
      TargetImp(td, t, winningBids[imp], winningBidsByBidder[imp]);
      imps := imps - {imp};
    }
    forall imp, s | imp in winningBidsByBidder && s in winningBidsByBidder[imp]
      ensures var b := winningBidsByBidder[imp][s];
              && (td.includeWinners && winningBids[imp] == b ==> WinnerShows(td, t, s, b, b.bidTargets))
              && (td.includeBidderKeys ==> SuffixedShow(td, t, s, b, b.bidTargets))
              && (!td.includeBidderKeys && !(td.includeWinners && winningBids[imp] == b) ==> b.bidTargets == map[])
    {
      var b := winningBidsByBidder[imp][s];
      assert Targeted(td, t, s, winningBids[imp], b);
      TargetsInPlainTerms(td, t, s, b, winningBids[imp] == b);
    }
  }

  lemma TargetsInPlainTerms(td: TargetData, t: Tables, bidder: string, b: PbsBid, winner: bool)
    ensures var targets := Targets(td, t, bidder, b, winner);
            && (td.includeWinners && winner ==> WinnerShows(td, t, bidder, b, targets))
            && (td.includeBidderKeys ==> SuffixedShow(td, t, bidder, b, targets))
            && (!td.includeBidderKeys && !(td.includeWinners && winner) ==> targets == map[])
  {
    hide Offers, Written, WinnerShows, SuffixedShow;
    if td.includeWinners && winner {
      WinnerInPlainTerms(td, t, bidder, b);
    }
    if td.includeBidderKeys {
      SuffixedInPlainTerms(td, t, bidder, b, winner);
    } else {
      NoSuffixes(td, Offers(td, t, bidder, b), |Offers(td, t, bidder, b)|, bidder, winner);
    }
  }

  /** The best bids on an imp differ from each other and from those on other imps. */
  lemma TopsOfImp(byBidder: WinnersByBidder, imp: string)
    requires DistinctTops(byBidder) && imp in byBidder
    ensures forall s, u :: s in byBidder[imp] && u in byBidder[imp] && byBidder[imp][s] == byBidder[imp][u] ==> s == u
    ensures forall i, u :: i in byBidder && i != imp && u in byBidder[i] ==> byBidder[i][u] !in byBidder[imp].Values
  {
    forall s, u | s in byBidder[imp] && u in byBidder[imp] && byBidder[imp][s] == byBidder[imp][u] ensures s == u {
      assert EntryFor(byBidder, imp, s) == EntryFor(byBidder, imp, u);
    }
    forall i, u | i in byBidder && i != imp && u in byBidder[i] ensures byBidder[i][u] !in byBidder[imp].Values {
      forall s | s in byBidder[imp] ensures byBidder[imp][s] != byBidder[i][u] {
        assert EntryFor(byBidder, imp, s) != EntryFor(byBidder, i, u);
      }
    }
  }

  // ---------- which bids get the unsuffixed keys ----------

  /** A suffixed key is a targeting key in one case only: bidder `cat_dur` and the price key. */
  lemma SuffixedKeyIsPlain(key: string, other: string, bidder: string)
    requires IsTargetingKey(key) && IsTargetingKey(other)
    ensures BidderKey(key, bidder) == other <==> key == HB_PB && other == HB_PB_CAT_DUR && bidder == "cat_dur"
  {
    var s := key + "_" + bidder;
    assert |other| <= 13;
    if BidderKey(key, bidder) == other {
      assert s == other;
      assert |key| < |other| && other[..|key|] == key && other[|key|] == '_' && other[|key| + 1..] == bidder;
      assert other[3] == key[3];
    }
  }

  /** The targeting keys among what the offers leave behind. */
  lemma {:induction false} PlainKeysWritten(td: TargetData, offers: seq<Offer>, n: nat, bidder: string, winner: bool,
                                            key: string)
    requires n <= |offers| && IsTargetingKey(key)
    requires forall i :: 0 <= i < |offers| ==> IsTargetingKey(offers[i].key)
    ensures key in Written(td, offers, n, bidder, winner) <==>
      || (td.includeWinners && winner && exists i :: 0 <= i < n && offers[i].key == key && offers[i].value.Some?)
      || (td.includeBidderKeys && key == HB_PB_CAT_DUR && bidder == "cat_dur"
          && exists i :: 0 <= i < n && offers[i].key == HB_PB && offers[i].value.Some?)
  {
    hide IsTargetingKey, BidderKey;
    if n > 0 {
      PlainKeysWritten(td, offers, n - 1, bidder, winner, key);
      SuffixedKeyIsPlain(offers[n - 1].key, key, bidder);
    }
  }

  /** The targeting keys in the order they are offered. */
  const KEYS := [HB_PB, HB_BIDDER, HB_SIZE, HB_CACHE_ID, HB_UUID, HB_FORMAT, HB_CACHE_HOST, HB_CACHE_PATH, HB_DEAL,
                 HB_ENV, HB_PB_CAT_DUR]

  /** Length and one telling character tell the keys apart. */
  ghost function Tag(key: string): (int, char)
    requires |key| > 3
  {
    (|key|, if |key| > 9 then key[9] else key[3])
  }

  lemma KeysDiffer()
    ensures |KEYS| == 11
    ensures forall i :: 0 <= i < 11 ==> IsTargetingKey(KEYS[i])
    ensures forall i, j :: 0 <= i < j < 11 ==> KEYS[i] != KEYS[j]
  {
    var tags := [(5, 'p'), (9, 'b'), (7, 's'), (11, 'i'), (7, 'u'), (9, 'f'), (13, 'h'), (13, 'p'), (7, 'd'),
                 (6, 'e'), (13, '_')];
    assert forall i :: 0 <= i < 11 ==> |KEYS[i]| > 3 && Tag(KEYS[i]) == tags[i];
    forall i, j | 0 <= i < j < 11 ensures KEYS[i] != KEYS[j] {
      assert tags[i] != tags[j];
    }
  }

  lemma OffersAreDistinct(td: TargetData, t: Tables, bidder: string, b: PbsBid)
    ensures var offers := Offers(td, t, bidder, b);
            && |offers| == 11
            && (forall i :: 0 <= i < |offers| ==> IsTargetingKey(offers[i].key))
            && (forall i, j :: 0 <= i < j < |offers| ==> offers[i].key != offers[j].key)
            && offers[0].key == HB_PB && offers[1].key == HB_BIDDER
  {
    hide IsTargetingKey, MakeHbSize, TypeName;
    KeysDiffer();
    var offers := Offers(td, t, bidder, b);
    assert forall i :: 0 <= i < |offers| ==> offers[i].key == KEYS[i];
  }

  /** The bidder's best bid carries keys without suffix; the bidder key is always among them. */
  ghost predicate Unsuffixed(td: TargetData, t: Tables, winning: Winners, byBidder: WinnersByBidder, imp: string,
                             u: string)
    requires imp in winning && imp in byBidder && u in byBidder[imp]
  {
    HB_BIDDER in Targets(td, t, u, byBidder[imp][u], winning[imp] == byBidder[imp][u])
  }

  ghost predicate OneUnsuffixed(td: TargetData, t: Tables, winning: Winners, byBidder: WinnersByBidder, imp: string)
    requires imp in winning && imp in byBidder
  {
    exists u :: u in byBidder[imp] && Unsuffixed(td, t, winning, byBidder, imp, u)
      && forall v :: v in byBidder[imp] && Unsuffixed(td, t, winning, byBidder, imp, v) ==> v == u
  }

  /**
   * With winners included, exactly one bid per imp carries the unsuffixed keys, and it is the
   * winner, if and only if the winner's seat has a top-ranked best bid; otherwise no bid does. The
   * single leak: bidder `cat_dur` spells the unsuffixed category key with its own price key.
   */
  lemma OneBidPerImpIsUnsuffixed(seats: Seats, winning: Winners, byBidder: WinnersByBidder, preferDeals: bool,
                                 td: TargetData, t: Tables, imp: string, s: string)
    requires Decided(seats, winning, byBidder, preferDeals) && DistinctBids(seats)
    requires imp in winning && InAuction(seats, s, winning[imp]) && td.includeWinners
    ensures OneUnsuffixed(td, t, winning, byBidder, imp) <==> BestIsTop(seats, s, imp, preferDeals)
    ensures forall u :: u in byBidder[imp] ==>
      (Unsuffixed(td, t, winning, byBidder, imp, u) <==> byBidder[imp][u] == winning[imp])
    ensures forall u, key :: u in byBidder[imp] && byBidder[imp][u] != winning[imp] && IsTargetingKey(key) ==>
      (key in Targets(td, t, u, byBidder[imp][u], false) <==>
       td.includeBidderKeys && key == HB_PB_CAT_DUR && u == "cat_dur" && byBidder[imp][u] in t.roundedPrices)
  {
    hide WinnersOptimal, BestIsTop, Offers, Targets, DistinctBids;
    forall u | u in byBidder[imp]
      ensures Unsuffixed(td, t, winning, byBidder, imp, u) <==> byBidder[imp][u] == winning[imp]
    {
      PlainKeysOf(td, t, u, byBidder[imp][u], winning[imp] == byBidder[imp][u], HB_BIDDER);
      KeysDiffer();
      assert KEYS[1] == HB_BIDDER && KEYS[10] == HB_PB_CAT_DUR;
    }
    forall u, key | u in byBidder[imp] && byBidder[imp][u] != winning[imp] && IsTargetingKey(key)
      ensures key in Targets(td, t, u, byBidder[imp][u], false) <==>
              td.includeBidderKeys && key == HB_PB_CAT_DUR && u == "cat_dur" && byBidder[imp][u] in t.roundedPrices
    {
      PlainKeysOf(td, t, u, byBidder[imp][u], false, key);
    }
    TopsAreDistinct(seats, byBidder);
    ListedIsOne(td, t, winning, byBidder, imp);
    ListedIffBestIsTop(seats, winning, byBidder, preferDeals, imp, s);
  }

  lemma ListedIsOne(td: TargetData, t: Tables, winning: Winners, byBidder: WinnersByBidder, imp: string)
    requires DistinctTops(byBidder) && imp in winning && imp in byBidder
    requires forall u :: u in byBidder[imp] ==>
      (Unsuffixed(td, t, winning, byBidder, imp, u) <==> byBidder[imp][u] == winning[imp])
    ensures OneUnsuffixed(td, t, winning, byBidder, imp) <==> Listed(winning, byBidder, imp)
  {
    hide Unsuffixed;
    if Listed(winning, byBidder, imp) {
      var u :| u in byBidder[imp] && byBidder[imp][u] == winning[imp];
      assert Unsuffixed(td, t, winning, byBidder, imp, u);
      forall v | v in byBidder[imp] && Unsuffixed(td, t, winning, byBidder, imp, v) ensures v == u {
        assert EntryFor(byBidder, imp, u) == EntryFor(byBidder, imp, v);
      }
    }
  }

  ghost predicate OneUnsuffixedInEveryRun(seats: Seats, preferDeals: bool, td: TargetData, t: Tables, imp: string) {
    forall order :: Enumerates(order, seats.Keys) ==>
      var run := Visit(seats, order, preferDeals);
      imp in run.winning && imp in run.byBidder && OneUnsuffixed(td, t, run.winning, run.byBidder, imp)
  }

  /**
   * Exactly when one bid on the imp carries the unsuffixed keys in every run; without preferred
   * deals it always does.
   */
  lemma OneUnsuffixedInEveryRunIff(seats: Seats, preferDeals: bool, td: TargetData, t: Tables, imp: string)
    requires DistinctBids(seats) && td.includeWinners
    requires exists s, b :: InAuction(seats, s, b) && b.bid.impId == imp
    ensures OneUnsuffixedInEveryRun(seats, preferDeals, td, t, imp) <==> TopSeatsAgree(seats, imp, preferDeals)
    ensures !preferDeals ==> OneUnsuffixedInEveryRun(seats, preferDeals, td, t, imp)
  {
    hide DistinctBids, TopSeatsAgree, Visit, Listed, OneUnsuffixed;
    forall order | Enumerates(order, seats.Keys)
      ensures var run := Visit(seats, order, preferDeals);
              && imp in run.winning && imp in run.byBidder
              && (OneUnsuffixed(td, t, run.winning, run.byBidder, imp) <==> Listed(run.winning, run.byBidder, imp))
    {
      OneUnsuffixedIffListed(seats, order, preferDeals, td, t, imp);
    }
    ListedInEveryRunIff(seats, imp, preferDeals);
    if !preferDeals {
      SeatsAgreeWithoutDeals(seats, imp);
    }
  }

  lemma OneUnsuffixedIffListed(seats: Seats, order: seq<string>, preferDeals: bool, td: TargetData, t: Tables,
                               imp: string)
    requires DistinctBids(seats) && td.includeWinners && Enumerates(order, seats.Keys)
    requires exists s, b :: InAuction(seats, s, b) && b.bid.impId == imp
    ensures var run := Visit(seats, order, preferDeals);
            && imp in run.winning && imp in run.byBidder
            && (OneUnsuffixed(td, t, run.winning, run.byBidder, imp) <==> Listed(run.winning, run.byBidder, imp))
  {
    hide DistinctBids, Visit, Listed, OneUnsuffixed, FirstOfRank, BestIsTop, Targets, IsTargetingKey;
    EverySeatVisited(seats, order, preferDeals);
    var run := Visit(seats, order, preferDeals);
    var s :| s in seats && FirstOfRank(seats[s], run.winning[imp], preferDeals);
    FirstOfRankIsMember(seats[s], run.winning[imp], preferDeals);
    assert InAuction(seats, s, run.winning[imp]);
    OneBidPerImpIsUnsuffixed(seats, run.winning, run.byBidder, preferDeals, td, t, imp, s);
    ListedIffBestIsTop(seats, run.winning, run.byBidder, preferDeals, imp, s);
  }

  lemma PlainKeysOf(td: TargetData, t: Tables, bidder: string, b: PbsBid, winner: bool, key: string)
    requires IsTargetingKey(key)
    ensures td.includeWinners && winner && key == HB_BIDDER ==> key in Targets(td, t, bidder, b, winner)
    ensures !winner ==>
      (key in Targets(td, t, bidder, b, winner) <==>
       td.includeBidderKeys && key == HB_PB_CAT_DUR && bidder == "cat_dur" && b in t.roundedPrices)
  {
    hide IsTargetingKey;
    var offers := Offers(td, t, bidder, b);
    OffersAreDistinct(td, t, bidder, b);
    PlainKeysWritten(td, offers, |offers|, bidder, winner, key);
    assert offers[1].key == HB_BIDDER && offers[1].value.Some?;
    assert offers[0].key == HB_PB && (offers[0].value.Some? <==> b in t.roundedPrices);
  }

  // ---------- the values ----------

  /** A name that, after the price key, spells the category key and itself again as far as 20 characters reach. */
  predicate Doubled(bidder: string) {
    "cat_dur_cat_du" <= bidder
  }

  /** Truncation makes two suffixed keys of a bidder equal in one case only. */
  lemma SuffixedKeysDiffer(key: string, other: string, bidder: string)
    requires IsTargetingKey(key) && IsTargetingKey(other) && key != other
    ensures BidderKey(key, bidder) == BidderKey(other, bidder) <==>
      Doubled(bidder) && ((key == HB_PB && other == HB_PB_CAT_DUR) || (key == HB_PB_CAT_DUR && other == HB_PB))
  {
    PriceKeysDiffer(bidder);
    if !(key == HB_PB && other == HB_PB_CAT_DUR) && !(key == HB_PB_CAT_DUR && other == HB_PB) {
      OtherKeysDiffer(key, other, bidder);
    }
  }

  lemma OtherKeysDiffer(key: string, other: string, bidder: string)
    requires IsTargetingKey(key) && IsTargetingKey(other) && key != other
    requires !(key == HB_PB && other == HB_PB_CAT_DUR) && !(key == HB_PB_CAT_DUR && other == HB_PB)
    ensures BidderKey(key, bidder) != BidderKey(other, bidder)
  {
    var k, o := BidderKey(key, bidder), BidderKey(other, bidder);
    assert k[3] == key[3] && o[3] == other[3];
    if |key| > 10 && |other| > 10 {
      assert k[9] == key[9] && o[9] == other[9];
    }
  }

  lemma PriceKeysDiffer(bidder: string)
    ensures BidderKey(HB_PB, bidder) == BidderKey(HB_PB_CAT_DUR, bidder) <==> Doubled(bidder)
  {
    var k, o := BidderKey(HB_PB, bidder), BidderKey(HB_PB_CAT_DUR, bidder);
    if |bidder| >= 14 {
      assert |k| == |o| == 20;
      assert forall i :: 0 <= i < 14 ==> k[6 + i] == bidder[i];
      assert forall i :: 0 <= i < 8 ==> o[6 + i] == "cat_dur_"[i];
      assert forall i :: 0 <= i < 6 ==> o[14 + i] == bidder[i];
    }
  }

  /** A write of the category key hits the bidder's own price key. */
  predicate PriceKeyHit(td: TargetData, bidder: string, winner: bool) {
    Doubled(bidder) || (bidder == "cat_dur" && td.includeWinners && winner)
  }

  /** What the suffixed key of offer `i` holds after `n` offers. */
  function Held(td: TargetData, offers: seq<Offer>, n: nat, bidder: string, winner: bool, i: nat): string
    requires i < n <= |offers| == 11 && offers[i].value.Some?
  {
    if i == 0 && n == 11 && offers[10].value.Some? && PriceKeyHit(td, bidder, winner) then offers[10].value.value
    else offers[i].value.value
  }

  /** What an offer writes stays written, except for a price key that is hit by the category. */
  lemma {:induction false} ValuesWritten(td: TargetData, offers: seq<Offer>, n: nat, bidder: string, winner: bool,
                                         i: nat)
    requires i < n <= |offers| == 11 && offers[i].value.Some?
    requires forall j :: 0 <= j < |offers| ==> IsTargetingKey(offers[j].key)
    requires forall j, k :: 0 <= j < k < |offers| ==> offers[j].key != offers[k].key
    requires offers[0].key == HB_PB && offers[10].key == HB_PB_CAT_DUR
    ensures td.includeWinners && winner ==>
      Lookup(Written(td, offers, n, bidder, winner), offers[i].key) == offers[i].value
    ensures td.includeBidderKeys ==>
      Lookup(Written(td, offers, n, bidder, winner), BidderKey(offers[i].key, bidder)) ==
        Some(Held(td, offers, n, bidder, winner, i))
  {
    hide IsTargetingKey, BidderKey, Doubled;
    if i < n - 1 {
      ValuesWritten(td, offers, n - 1, bidder, winner, i);
      SuffixedKeyIsPlain(offers[n - 1].key, offers[i].key, bidder);
      SuffixedKeyIsPlain(offers[i].key, offers[n - 1].key, bidder);
      SuffixedKeysDiffer(offers[n - 1].key, offers[i].key, bidder);
    } else {
      SuffixedKeyIsPlain(offers[i].key, offers[i].key, bidder);
    }
  }

  /**
   * Every fact offered about a bid is readable under its suffixed key, and under the plain one on
   * the winner. The one exception: a price key that is hit by the category shows the category.
   */
  lemma TargetsCarryOffers(td: TargetData, t: Tables, bidder: string, b: PbsBid, winner: bool, i: nat)
    requires i < |Offers(td, t, bidder, b)| && Offers(td, t, bidder, b)[i].value.Some?
    ensures var offers, targets := Offers(td, t, bidder, b), Targets(td, t, bidder, b, winner);
            var hit := offers[i].key == HB_PB && |td.categoryMapping| > 0 && PriceKeyHit(td, bidder, winner);
            && |offers| == 11
            && (td.includeWinners && winner ==> Lookup(targets, offers[i].key) == offers[i].value)
            && (td.includeBidderKeys ==>
                  && (!hit ==> Lookup(targets, BidderKey(offers[i].key, bidder)) == offers[i].value)
                  && (hit ==> Lookup(targets, BidderKey(offers[i].key, bidder)) == offers[10].value))
  {
    hide BidderKey, Written, PriceKeyHit, IsTargetingKey, Offers;
    OffersAreDistinct(td, t, bidder, b);
    OfferList(td, t, bidder, b);
    var offers := Offers(td, t, bidder, b);
    ValuesWritten(td, offers, |offers|, bidder, winner, i);
  }

  // ---------- in plain terms ----------

  /** The plain keys on the winner, one by one. */
  ghost predicate WinnerShows(td: TargetData, t: Tables, bidder: string, b: PbsBid, targets: map<string, string>) {
    && Lookup(targets, "hb_pb") == Lookup(t.roundedPrices, b)
    && Lookup(targets, "hb_bidder") == Some(bidder)
    && Lookup(targets, "hb_size") ==
      (if b.bid.w != 0 && b.bid.h != 0 then Some(Itoa(b.bid.w) + "x" + Itoa(b.bid.h)) else None)
    && Lookup(targets, "hb_cache_id") == Lookup(t.cacheIds, b)
    && Lookup(targets, "hb_uuid") == Lookup(t.vastCacheIds, b)
    && (!td.includeFormat ==> "hb_format" !in targets)
    && (td.includeFormat ==> FormatShown(b.bidType, Lookup(targets, "hb_format")))
    && Lookup(targets, "hb_cache_host") == (if td.cacheHost != "" then Some(td.cacheHost) else None)
    && Lookup(targets, "hb_cache_path") == (if td.cachePath != "" then Some(td.cachePath) else None)
    && Lookup(targets, "hb_deal") == (if b.bid.dealId != "" then Some(b.bid.dealId) else None)
    && Lookup(targets, "hb_env") == (if td.isApp then Some("mobile-app") else None)
    && (td.categoryMapping != map[] ==>
          Lookup(targets, "hb_pb_cat_dur") ==
            Some(if b.bid.id in td.categoryMapping then td.categoryMapping[b.bid.id] else ""))
  }

  ghost predicate FormatShown(bidType: BidType, shown: Option<string>) {
    && (bidType == Banner ==> shown == Some("banner")) && (bidType == Video ==> shown == Some("video"))
    && (bidType == Audio ==> shown == Some("audio")) && (bidType == Native ==> shown == Some("native"))
    && (bidType.OtherType? ==> shown == Some(bidType.name))
  }

  lemma TypeNames(bidType: BidType)
    ensures FormatShown(bidType, Some(TypeName(bidType)))
  {
  }

  /** The suffixed keys: the plain key, an underscore and the bidder, cut to 20 characters. */
  ghost predicate SuffixedShow(td: TargetData, t: Tables, bidder: string, b: PbsBid, targets: map<string, string>) {
    && (b in t.roundedPrices && bidder != "cat_dur" && !("cat_dur_cat_du" <= bidder) ==>
          Lookup(targets, Cut("hb_pb_" + bidder)) == Some(t.roundedPrices[b]))
    && Lookup(targets, Cut("hb_bidder_" + bidder)) == Some(bidder)
    && (b in t.cacheIds ==> Lookup(targets, Cut("hb_cache_id_" + bidder)) == Some(t.cacheIds[b]))
    && (b in t.vastCacheIds ==> Lookup(targets, Cut("hb_uuid_" + bidder)) == Some(t.vastCacheIds[b]))
    && (b.bid.dealId != "" ==> Lookup(targets, Cut("hb_deal_" + bidder)) == Some(b.bid.dealId))
  }

  function Cut(s: string): string {
    if |s| <= 20 then s else s[..20]
  }

  lemma OfferedKeys(td: TargetData, t: Tables, bidder: string, b: PbsBid, winner: bool, i: nat)
    requires i < 11
    ensures var offers, targets := Offers(td, t, bidder, b), Targets(td, t, bidder, b, winner);
            && |offers| == 11
            && (td.includeWinners && winner && (i < 10 || offers[i].value.Some?) ==>
                  Lookup(targets, offers[i].key) == offers[i].value)
  {
    hide BidderKey, IsTargetingKey, Offers;
    OffersAreDistinct(td, t, bidder, b);
    OfferList(td, t, bidder, b);
    var offers := Offers(td, t, bidder, b);
    if offers[i].value.Some? {
      ValuesWritten(td, offers, |offers|, bidder, winner, i);
    } else {
      PlainKeysWritten(td, offers, |offers|, bidder, winner, offers[i].key);
    }
  }

  lemma WinnerInPlainTerms(td: TargetData, t: Tables, bidder: string, b: PbsBid)
    requires td.includeWinners
    ensures WinnerShows(td, t, bidder, b, Targets(td, t, bidder, b, true))
  {
    hide Offers, Targets, TypeName, FormatShown;
    OfferList(td, t, bidder, b);
    TypeNames(b.bidType);
    forall i: nat | i < 11
      ensures var offers, targets := Offers(td, t, bidder, b), Targets(td, t, bidder, b, true);
              i < 10 || offers[i].value.Some? ==> Lookup(targets, offers[i].key) == offers[i].value
    {
      OfferedKeys(td, t, bidder, b, true, i);
    }
  }

  lemma CutKey(key: string, joined: string, bidder: string)
    requires joined == key + "_"
    ensures BidderKey(key, bidder) == Cut(joined + bidder)
  {
    assert key + "_" + bidder == joined + bidder;
  }

  lemma SuffixedOffer(td: TargetData, t: Tables, bidder: string, b: PbsBid, winner: bool, i: nat, joined: string)
    requires td.includeBidderKeys && i < |Offers(td, t, bidder, b)| && Offers(td, t, bidder, b)[i].value.Some?
    requires joined == Offers(td, t, bidder, b)[i].key + "_"
    requires i == 0 ==> bidder != "cat_dur" && !("cat_dur_cat_du" <= bidder)
    ensures Lookup(Targets(td, t, bidder, b, winner), Cut(joined + bidder)) == Offers(td, t, bidder, b)[i].value
  {
    hide Offers, Targets, IsTargetingKey;
    OffersAreDistinct(td, t, bidder, b);
    CutKey(Offers(td, t, bidder, b)[i].key, joined, bidder);
    TargetsCarryOffers(td, t, bidder, b, winner, i);
  }

  lemma SuffixedInPlainTerms(td: TargetData, t: Tables, bidder: string, b: PbsBid, winner: bool)
    requires td.includeBidderKeys
    ensures SuffixedShow(td, t, bidder, b, Targets(td, t, bidder, b, winner))
  {
    hide Offers, Targets, TypeName, Cut;
    OfferList(td, t, bidder, b);
    if b in t.roundedPrices && bidder != "cat_dur" && !("cat_dur_cat_du" <= bidder) {
      SuffixedOffer(td, t, bidder, b, winner, 0, "hb_pb_");
    }
    SuffixedOffer(td, t, bidder, b, winner, 1, "hb_bidder_");
    if b in t.cacheIds {
      SuffixedOffer(td, t, bidder, b, winner, 3, "hb_cache_id_");
    }
    if b in t.vastCacheIds {
      SuffixedOffer(td, t, bidder, b, winner, 4, "hb_uuid_");
    }
    if b.bid.dealId != "" {
      SuffixedOffer(td, t, bidder, b, winner, 8, "hb_deal_");
    }
  }

  /** Without bidder keys there are none but plain ones, and none at all on a bid that is not the winner. */
  lemma {:induction false} NoSuffixes(td: TargetData, offers: seq<Offer>, n: nat, bidder: string, winner: bool)
    requires !td.includeBidderKeys && n <= |offers|
    ensures !(td.includeWinners && winner) ==> Written(td, offers, n, bidder, winner) == map[]
    ensures forall k :: k in Written(td, offers, n, bidder, winner) ==> exists i :: 0 <= i < n && offers[i].key == k
  {
    if n > 0 {
      NoSuffixes(td, offers, n - 1, bidder, winner);
    }
  }
}
