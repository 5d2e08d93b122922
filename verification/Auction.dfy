/**
 * The auction: `newAuction` picks the winner of every imp and the best bid of every bidder on it.
 * Seats are visited in an arbitrary order.
 */
module Auction {
  import opened Lists
  import opened Bids
  import PG = PriceGranularity

  type Winners = map<string, PbsBid>
  type WinnersByBidder = map<string, map<string, PbsBid>>

  /** Whether `bid` replaces `wbid` as the winner. */
  predicate IsNewWinningBid(bid: Bid, wbid: Bid, preferDeals: bool) {
    if preferDeals && |wbid.dealId| > 0 && |bid.dealId| == 0 then false
    else if preferDeals && |wbid.dealId| == 0 && |bid.dealId| > 0 then true
    else bid.price > wbid.price
  }

  /** What the winner is chosen by. */
  function Rank(bid: Bid, preferDeals: bool): (int, real) {
    (if preferDeals && |bid.dealId| > 0 then 1 else 0, bid.price)
  }

  ghost predicate RankBelow(a: (int, real), b: (int, real)) {
    a.0 < b.0 || (a.0 == b.0 && a.1 < b.1)
  }

  /** Replacing the winner is a strict comparison of ranks. */
  lemma NewWinnerIsHigherRank(bid: Bid, wbid: Bid, preferDeals: bool)
    ensures IsNewWinningBid(bid, wbid, preferDeals) <==> RankBelow(Rank(wbid, preferDeals), Rank(bid, preferDeals))
  {
  }

  /** The first of a seat's dearest bids on an imp. */
  function BestOf(bids: seq<PbsBid>, imp: string): (r: Option<PbsBid>)
    ensures r.Some? ==> r.value in bids && r.value.bid.impId == imp
    ensures r.None? <==> forall i :: 0 <= i < |bids| ==> bids[i].bid.impId != imp
    ensures forall i :: 0 <= i < |bids| && bids[i].bid.impId == imp ==> bids[i].bid.price <= r.value.bid.price
  {
    if bids == [] then None
    else
      var n := |bids| - 1;
      var best := BestOf(bids[..n], imp);
      if bids[n].bid.impId == imp && (best.None? || bids[n].bid.price > best.value.bid.price)
      then Some(bids[n]) else best
  }

  function SeatOf(seats: Seats, s: string): seq<PbsBid> {
    if s in seats then seats[s] else []
  }

  ghost predicate InAuction(seats: Seats, s: string, older b: PbsBid) {
    s in seats && b in seats[s]
  }

  /** The bid replaces every bid on its imp that comes before it in the list. */
  ghost predicate FirstOfRank(bids: seq<PbsBid>, b: PbsBid, preferDeals: bool) {
    exists k :: 0 <= k < |bids| && bids[k] == b && ReplacesAll(bids[..k], b, preferDeals)
  }

  ghost predicate ReplacesAll(bids: seq<PbsBid>, b: PbsBid, preferDeals: bool) {
    forall j :: 0 <= j < |bids| && bids[j].bid.impId == b.bid.impId ==> IsNewWinningBid(b.bid, bids[j].bid, preferDeals)
  }

  /** The overall winner of an imp is the first of its rank in some seat, and no bid on the imp replaces it. */
  ghost predicate WinnersOptimal(seats: Seats, winning: Winners, preferDeals: bool) {
    && (forall s, b :: InAuction(seats, s, b) ==>
          b.bid.impId in winning && !IsNewWinningBid(b.bid, winning[b.bid.impId].bid, preferDeals))
    && (forall imp :: imp in winning ==>
          && winning[imp].bid.impId == imp
          && exists s :: s in seats && FirstOfRank(seats[s], winning[imp], preferDeals))
  }

  function EntryFor(byBidder: WinnersByBidder, imp: string, s: string): Option<PbsBid> {
    if imp in byBidder && s in byBidder[imp] then Some(byBidder[imp][s]) else None
  }

  /** Each bidder's entry is the first of its dearest bids on the imp; there is none if it has no bid. */
  ghost predicate BiddersOptimal(seats: Seats, byBidder: WinnersByBidder) {
    forall imp, s {:trigger EntryFor(byBidder, imp, s)} :: EntryFor(byBidder, imp, s) == BestOf(SeatOf(seats, s), imp)
  }

  ghost predicate Listed(winning: Winners, byBidder: WinnersByBidder, imp: string)
    requires imp in winning && imp in byBidder
  {
    exists s :: s in byBidder[imp] && byBidder[imp][s] == winning[imp]
  }

  ghost predicate Decided(seats: Seats, winning: Winners, byBidder: WinnersByBidder, preferDeals: bool) {
    && WinnersOptimal(seats, winning, preferDeals)
    && BiddersOptimal(seats, byBidder)
    && winning.Keys == byBidder.Keys
  }

  /** The seats as values; a nil seat has no bids. */
  ghost function SeatsOf(seatBids: map<string, SeatBid?>): Seats
    reads set s | s in seatBids && seatBids[s] != null :: seatBids[s]
  {
    map s | s in seatBids :: if seatBids[s] != null then seatBids[s].bids else []
  }

  ghost function WinningAfter(winning: Winners, b: PbsBid, preferDeals: bool): Winners {
    if b.bid.impId !in winning || IsNewWinningBid(b.bid, winning[b.bid.impId].bid, preferDeals)
    then winning[b.bid.impId := b] else winning
  }

  ghost function ByBidderAfter(byBidder: WinnersByBidder, s: string, b: PbsBid): WinnersByBidder {
    var imp := b.bid.impId;
    if imp !in byBidder then byBidder[imp := map[s := b]]
    else if s !in byBidder[imp] || b.bid.price > byBidder[imp][s].bid.price
    then byBidder[imp := byBidder[imp][s := b]] else byBidder
  }

  lemma FirstOfRankAppend(bids: seq<PbsBid>, b: PbsBid, x: PbsBid, preferDeals: bool)
    ensures FirstOfRank(bids, b, preferDeals) ==> FirstOfRank(bids + [x], b, preferDeals)
    ensures ReplacesAll(bids, x, preferDeals) ==> FirstOfRank(bids + [x], x, preferDeals)
  {
    hide ReplacesAll;
    var more := bids + [x];
    assert forall k :: 0 <= k <= |bids| ==> more[..k] == bids[..k];
    assert bids[..|bids|] == bids && more[|bids|] == x;
    if FirstOfRank(bids, b, preferDeals) {
      var k :| 0 <= k < |bids| && bids[k] == b && ReplacesAll(bids[..k], b, preferDeals);
      assert more[k] == b;
    }
  }

  /** A bid that becomes the winner of its imp replaces every bid on it seen so far. */
  lemma NewWinnerReplacesAll(seats: Seats, s: string, b: PbsBid, winning: Winners, preferDeals: bool)
    requires WinnersOptimal(seats, winning, preferDeals)
    requires b.bid.impId in winning ==> IsNewWinningBid(b.bid, winning[b.bid.impId].bid, preferDeals)
    ensures ReplacesAll(SeatOf(seats, s), b, preferDeals)
  {
    hide FirstOfRank;
    var bids := SeatOf(seats, s);
    forall j | 0 <= j < |bids| && bids[j].bid.impId == b.bid.impId
      ensures IsNewWinningBid(b.bid, bids[j].bid, preferDeals)
    {
      assert InAuction(seats, s, bids[j]);
    }
  }

  lemma WinnersStep(seats: Seats, s: string, b: PbsBid, winning: Winners, preferDeals: bool)
    requires WinnersOptimal(seats, winning, preferDeals)
    ensures WinnersOptimal(seats[s := SeatOf(seats, s) + [b]], WinningAfter(winning, b, preferDeals), preferDeals)
  {
    hide FirstOfRank, ReplacesAll;
    var seats' := seats[s := SeatOf(seats, s) + [b]];
    var winning' := WinningAfter(winning, b, preferDeals);
    forall t, x | InAuction(seats', t, x)
      ensures x.bid.impId in winning' && !IsNewWinningBid(x.bid, winning'[x.bid.impId].bid, preferDeals)
    {
      assert x == b || InAuction(seats, t, x);
    }
    forall imp | imp in winning'
      ensures winning'[imp].bid.impId == imp
      ensures exists t :: t in seats' && FirstOfRank(seats'[t], winning'[imp], preferDeals)
    {
      if imp in winning && winning'[imp] == winning[imp] {
        var t :| t in seats && FirstOfRank(seats[t], winning[imp], preferDeals);
        FirstOfRankAppend(seats[t], winning[imp], b, preferDeals);
        assert FirstOfRank(seats'[t], winning'[imp], preferDeals);
      } else {
        NewWinnerReplacesAll(seats, s, b, winning, preferDeals);
        FirstOfRankAppend(SeatOf(seats, s), b, b, preferDeals);
        assert FirstOfRank(seats'[s], b, preferDeals);
      }
    }
  }

  lemma BiddersStep(seats: Seats, s: string, b: PbsBid, byBidder: WinnersByBidder)
    requires BiddersOptimal(seats, byBidder)
    ensures BiddersOptimal(seats[s := SeatOf(seats, s) + [b]], ByBidderAfter(byBidder, s, b))
  {
    var seats', byBidder' := seats[s := SeatOf(seats, s) + [b]], ByBidderAfter(byBidder, s, b);
    assert (SeatOf(seats, s) + [b])[..|SeatOf(seats, s)|] == SeatOf(seats, s);
    forall imp, t ensures EntryFor(byBidder', imp, t) == BestOf(SeatOf(seats', t), imp) {
      assert EntryFor(byBidder, imp, t) == BestOf(SeatOf(seats, t), imp);
    }
  }

  /** One more bid keeps the tables decided. */
  lemma DecidedStep(seats: Seats, s: string, b: PbsBid, t: Tables, preferDeals: bool)
    requires Decided(seats, t.winning, t.byBidder, preferDeals)
    ensures var t' := After(t, s, b, preferDeals);
            Decided(seats[s := SeatOf(seats, s) + [b]], t'.winning, t'.byBidder, preferDeals)
  {
    hide WinnersOptimal, BiddersOptimal;
    WinnersStep(seats, s, b, t.winning, preferDeals);
    BiddersStep(seats, s, b, t.byBidder);
  }

  // ---------- in plain terms ----------

  /** The bid does not beat the winner: by price, or with deals preferred by having a deal and then by price. */
  ghost predicate Unbeaten(b: Bid, winner: Bid, preferDeals: bool) {
    && (!preferDeals ==> b.price <= winner.price)
    && (preferDeals && b.dealId != "" ==> winner.dealId != "")
    && (preferDeals && (b.dealId == "" <==> winner.dealId == "") ==> b.price <= winner.price)
  }

  /** Every bid has an unbeaten winner on its imp, and its bidder an entry there that is no cheaper. */
  ghost predicate Served(seatBids: map<string, SeatBid?>, winning: Winners, byBidder: WinnersByBidder,
                         preferDeals: bool)
    reads set s | s in seatBids && seatBids[s] != null :: seatBids[s]
  {
    forall s, i :: s in seatBids && seatBids[s] != null && 0 <= i < |seatBids[s].bids| ==>
      var b := seatBids[s].bids[i].bid;
      && b.impId in winning && winning[b.impId].bid.impId == b.impId && Unbeaten(b, winning[b.impId].bid, preferDeals)
      && b.impId in byBidder && s in byBidder[b.impId] && b.price <= byBidder[b.impId][s].bid.price
  }

  /** Winners and entries are bids of the seats, on their own imps. */
  ghost predicate Genuine(seatBids: map<string, SeatBid?>, winning: Winners, byBidder: WinnersByBidder)
    reads set s | s in seatBids && seatBids[s] != null :: seatBids[s]
  {
    && winning.Keys == byBidder.Keys
    && (forall imp :: imp in winning ==>
      exists s :: s in seatBids && seatBids[s] != null && winning[imp] in seatBids[s].bids)
    && (forall imp, s :: imp in byBidder && s in byBidder[imp] ==>
          && s in seatBids && seatBids[s] != null
          && byBidder[imp][s] in seatBids[s].bids && byBidder[imp][s].bid.impId == imp)
  }

  lemma DecidedServes(seatBids: map<string, SeatBid?>, winning: Winners, byBidder: WinnersByBidder, preferDeals: bool)
    requires Decided(SeatsOf(seatBids), winning, byBidder, preferDeals)
    ensures Served(seatBids, winning, byBidder, preferDeals)
  {
    hide FirstOfRank;
    var seats := SeatsOf(seatBids);
    forall s, i | s in seatBids && seatBids[s] != null && 0 <= i < |seatBids[s].bids|
      ensures var b := seatBids[s].bids[i].bid;
              && b.impId in winning && winning[b.impId].bid.impId == b.impId
              && Unbeaten(b, winning[b.impId].bid, preferDeals)
              && b.impId in byBidder && s in byBidder[b.impId] && b.price <= byBidder[b.impId][s].bid.price
    {
      var x := seatBids[s].bids[i];
      assert InAuction(seats, s, x) && seats[s][i] == x;
      assert EntryFor(byBidder, x.bid.impId, s) == BestOf(SeatOf(seats, s), x.bid.impId);
    }
  }

  lemma DecidedIsGenuine(seatBids: map<string, SeatBid?>, winning: Winners, byBidder: WinnersByBidder,
                         preferDeals: bool)
    requires Decided(SeatsOf(seatBids), winning, byBidder, preferDeals)
    ensures Genuine(seatBids, winning, byBidder)
  {
    hide FirstOfRank;
    var seats := SeatsOf(seatBids);
    forall imp | imp in winning
      ensures exists s :: s in seatBids && seatBids[s] != null && winning[imp] in seatBids[s].bids
    {
      var s :| s in seats && FirstOfRank(seats[s], winning[imp], preferDeals);
      FirstOfRankIsMember(seats[s], winning[imp], preferDeals);
    }
    forall imp, s | imp in byBidder && s in byBidder[imp]
      ensures s in seatBids && seatBids[s] != null
      ensures byBidder[imp][s] in seatBids[s].bids && byBidder[imp][s].bid.impId == imp
    {
      assert EntryFor(byBidder, imp, s) == BestOf(SeatOf(seats, s), imp);
    }
  }

  // ---------- runs ----------

  datatype Tables = Tables(winning: Winners, byBidder: WinnersByBidder)

  ghost function After(t: Tables, s: string, b: PbsBid, preferDeals: bool): Tables {
    Tables(WinningAfter(t.winning, b, preferDeals), ByBidderAfter(t.byBidder, s, b))
  }

  ghost function AfterBids(t: Tables, s: string, bids: seq<PbsBid>, preferDeals: bool): Tables {
    if bids == [] then t
    else After(AfterBids(t, s, bids[..|bids| - 1], preferDeals), s, bids[|bids| - 1], preferDeals)
  }

  /** The tables when the seats are visited in the given order. */
  ghost function Visit(seats: Seats, order: seq<string>, preferDeals: bool): Tables {
    if order == [] then Tables(map[], map[])
    else
      var n := |order| - 1;
      AfterBids(Visit(seats, order[..n], preferDeals), order[n], SeatOf(seats, order[n]), preferDeals)
  }

  function Only(seats: Seats, order: seq<string>): Seats {
    map s | s in order :: SeatOf(seats, s)
  }

  lemma {:induction false} AfterBidsDecided(seats: Seats, s: string, bids: seq<PbsBid>, t: Tables, preferDeals: bool)
    requires Decided(seats, t.winning, t.byBidder, preferDeals) && s !in seats
    ensures var t' := AfterBids(t, s, bids, preferDeals);
            Decided(seats[s := bids], t'.winning, t'.byBidder, preferDeals)
  {
    hide Decided, After;
    if bids == [] {
      NewSeat(seats, s, t.winning, t.byBidder, preferDeals);
    } else {
      var n := |bids| - 1;
      AfterBidsDecided(seats, s, bids[..n], t, preferDeals);
      DecidedStep(seats[s := bids[..n]], s, bids[n], AfterBids(t, s, bids[..n], preferDeals), preferDeals);
      assert bids[..n] + [bids[n]] == bids;
      assert seats[s := bids[..n]][s := bids] == seats[s := bids];
    }
  }

  lemma OnlySteps(seats: Seats, order: seq<string>)
    requires Distinct(order)
    ensures Only(seats, []) == map[]
    ensures order != [] ==>
      var n := |order| - 1;
      && order[n] !in Only(seats, order[..n])
      && Only(seats, order) == Only(seats, order[..n])[order[n] := SeatOf(seats, order[n])]
  {
    if order != [] {
      assert order == order[..|order| - 1] + [order[|order| - 1]];
    }
  }

  /** Whatever the order, the tables are decided. */
  lemma {:induction false} VisitDecided(seats: Seats, order: seq<string>, preferDeals: bool)
    requires Distinct(order)
    ensures var t := Visit(seats, order, preferDeals);
            Decided(Only(seats, order), t.winning, t.byBidder, preferDeals)
  {
    hide Decided, AfterBids, Only;
    OnlySteps(seats, order);
    if order == [] {
      NothingDecided(preferDeals);
    } else {
      var n := |order| - 1;
      VisitDecided(seats, order[..n], preferDeals);
      var before := Visit(seats, order[..n], preferDeals);
      AfterBidsDecided(Only(seats, order[..n]), order[n], SeatOf(seats, order[n]), before, preferDeals);
    }
  }

  lemma EverySeatVisited(seats: Seats, order: seq<string>, preferDeals: bool)
    requires Enumerates(order, seats.Keys)
    ensures var t := Visit(seats, order, preferDeals);
            Decided(seats, t.winning, t.byBidder, preferDeals)
  {
    hide Decided, Visit;
    VisitDecided(seats, order, preferDeals);
    assert Only(seats, order) == seats;
  }

  /** `order` is the order in which the seats happened to be visited. */
  method NewAuction(seatBids: map<string, SeatBid?>, preferDeals: bool)
    returns (winningBids: Winners, winningBidsByBidder: WinnersByBidder, ghost order: seq<string>)
    ensures Decided(SeatsOf(seatBids), winningBids, winningBidsByBidder, preferDeals)
    ensures !preferDeals ==> forall imp :: imp in winningBids ==> Listed(winningBids, winningBidsByBidder, imp)
    ensures Served(seatBids, winningBids, winningBidsByBidder, preferDeals)
    ensures Genuine(seatBids, winningBids, winningBidsByBidder)
    ensures Enumerates(order, seatBids.Keys)
    ensures Tables(winningBids, winningBidsByBidder) == Visit(SeatsOf(seatBids), order, preferDeals)
  {
    hide Decided, Visit, After, AfterBids, Served, Genuine;
    winningBids, winningBidsByBidder, order := map[], map[], [];
    ghost var seats := SeatsOf(seatBids);
    var remaining := seatBids.Keys;
    VisitSteps(seats, order, "", preferDeals);
    while remaining != {}
      invariant remaining <= seatBids.Keys
      invariant Enumerates(order, seatBids.Keys - remaining)
      invariant Tables(winningBids, winningBidsByBidder) == Visit(seats, order, preferDeals)
      decreases |remaining|
    {
      var bidderName :| bidderName in remaining;
      var seatBid := seatBids[bidderName];
      ghost var before := Tables(winningBids, winningBidsByBidder);
      VisitSteps(seats, order, bidderName, preferDeals);
      if seatBid != null {
        for i := 0 to |seatBid.bids|
          invariant Tables(winningBids, winningBidsByBidder) ==
            AfterBids(before, bidderName, seatBid.bids[..i], preferDeals)
        {
          AfterBidsStep(before, bidderName, seatBid.bids, i, preferDeals);
          winningBids, winningBidsByBidder :=
            Consider(winningBids, winningBidsByBidder, bidderName, seatBid.bids[i], preferDeals);
        }
        assert seatBid.bids[..|seatBid.bids|] == seatBid.bids;
      }
      order := order + [bidderName];
      remaining := remaining - {bidderName};
    }
    assert seatBids.Keys - {} == seats.Keys;
    EverySeatVisited(seats, order, preferDeals);
    DecidedServes(seatBids, winningBids, winningBidsByBidder, preferDeals);
    DecidedIsGenuine(seatBids, winningBids, winningBidsByBidder, preferDeals);
    if !preferDeals {
      forall imp | imp in winningBids
        ensures imp in winningBidsByBidder && Listed(winningBids, winningBidsByBidder, imp)
      {
        ListedWithoutDeals(seats, winningBids, winningBidsByBidder, imp);
      }
    }
  }

  lemma VisitSteps(seats: Seats, order: seq<string>, s: string, preferDeals: bool)
    ensures Visit(seats, [], preferDeals) == Tables(map[], map[])
    ensures Visit(seats, order + [s], preferDeals) ==
            AfterBids(Visit(seats, order, preferDeals), s, SeatOf(seats, s), preferDeals)
    ensures forall t :: AfterBids(t, s, [], preferDeals) == t
  {
    assert (order + [s])[..|order|] == order;
  }

  lemma AfterBidsStep(t: Tables, s: string, bids: seq<PbsBid>, i: nat, preferDeals: bool)
    requires i < |bids|
    ensures AfterBids(t, s, bids[..i + 1], preferDeals) ==
      After(AfterBids(t, s, bids[..i], preferDeals), s, bids[i], preferDeals)
  {
    assert bids[..i + 1][..i] == bids[..i];
  }

  /** The loop body of `newAuction`. */
  method Consider(winning: Winners, byBidder: WinnersByBidder, bidderName: string, bid: PbsBid, preferDeals: bool)
    returns (winning': Winners, byBidder': WinnersByBidder)
    ensures Tables(winning', byBidder') == After(Tables(winning, byBidder), bidderName, bid, preferDeals)
  {
    winning', byBidder' := winning, byBidder;
    var imp := bid.bid.impId;
    if imp !in winning || IsNewWinningBid(bid.bid, winning[imp].bid, preferDeals) {
      winning' := winning[imp := bid];
    }
    if imp in byBidder {
      var bidMap := byBidder[imp];
      if bidderName !in bidMap || bid.bid.price > bidMap[bidderName].bid.price {
        byBidder' := byBidder[imp := bidMap[bidderName := bid]];
      }
    } else {
      byBidder' := byBidder[imp := map[bidderName := bid]];
    }
  }

  lemma NothingDecided(preferDeals: bool)
    ensures Decided(map[], map[], map[], preferDeals)
  {
  }

  lemma NewSeat(seats: Seats, s: string, winning: Winners, byBidder: WinnersByBidder, preferDeals: bool)
    requires Decided(seats, winning, byBidder, preferDeals) && s !in seats
    ensures Decided(seats[s := []], winning, byBidder, preferDeals)
  {
    hide FirstOfRank;
    var seats' := seats[s := []];
    assert forall t, b :: InAuction(seats', t, b) <==> InAuction(seats, t, b);
    assert forall t :: SeatOf(seats', t) == SeatOf(seats, t);
    forall imp | imp in winning ensures exists t :: t in seats' && FirstOfRank(seats'[t], winning[imp], preferDeals) {
      var t :| t in seats && FirstOfRank(seats[t], winning[imp], preferDeals);
      assert FirstOfRank(seats'[t], winning[imp], preferDeals);
    }
  }

  // ---------- consequences ----------

  /** Among equally dear bids of a seat the earliest is kept. */
  lemma {:induction false} BestOfIsFirst(bids: seq<PbsBid>, imp: string) returns (k: nat)
    requires BestOf(bids, imp).Some?
    ensures k < |bids| && bids[k] == BestOf(bids, imp).value
    ensures forall i :: 0 <= i < k && bids[i].bid.impId == imp ==> bids[i].bid.price < bids[k].bid.price
    ensures forall i :: k < i < |bids| && bids[i].bid.impId == imp ==> bids[i].bid.price <= bids[k].bid.price
  {
    var n := |bids| - 1;
    var best := BestOf(bids[..n], imp);
    if bids[n].bid.impId == imp && (best.None? || bids[n].bid.price > best.value.bid.price) {
      k := n;
      assert forall i :: 0 <= i < n ==> bids[i] == bids[..n][i];
    } else {
      k := BestOfIsFirst(bids[..n], imp);
      assert forall i :: 0 <= i < n ==> bids[i] == bids[..n][i];
    }
  }

  /** No bid object sits in two seats. */
  ghost predicate DistinctBids(seats: Seats) {
    forall s, t, b {:trigger InAuction(seats, s, b), InAuction(seats, t, b)} ::
      InAuction(seats, s, b) && InAuction(seats, t, b) ==> s == t
  }

  /** No bid object is the best of two bidders or on two imps. */
  ghost predicate DistinctTops(byBidder: WinnersByBidder) {
    forall imp, s, imp', s' {:trigger EntryFor(byBidder, imp, s), EntryFor(byBidder, imp', s')} ::
      EntryFor(byBidder, imp, s).Some? && EntryFor(byBidder, imp, s) == EntryFor(byBidder, imp', s') ==>
        imp == imp' && s == s'
  }

  lemma TopsAreDistinct(seats: Seats, byBidder: WinnersByBidder)
    requires BiddersOptimal(seats, byBidder) && DistinctBids(seats)
    ensures DistinctTops(byBidder)
  {
    forall imp, s, imp', s' |
      EntryFor(byBidder, imp, s).Some? && EntryFor(byBidder, imp, s) == EntryFor(byBidder, imp', s')
      ensures imp == imp' && s == s'
    {
      var b := EntryFor(byBidder, imp, s).value;
      assert InAuction(seats, s, b) && InAuction(seats, s', b);
    }
  }

  /** No bid on the same imp replaces it. */
  ghost predicate TopRanked(seats: Seats, b: PbsBid, preferDeals: bool) {
    forall s, x :: InAuction(seats, s, x) && x.bid.impId == b.bid.impId ==> !IsNewWinningBid(x.bid, b.bid, preferDeals)
  }

  /** The best bid by price of the seat, which has one on the imp, is top-ranked. */
  ghost predicate BestIsTop(seats: Seats, s: string, imp: string, preferDeals: bool) {
    var best := BestOf(SeatOf(seats, s), imp);
    best.Some? && TopRanked(seats, best.value, preferDeals)
  }

  /** Of a seat's bids on an imp that share the top rank, `BestOf` and the winner are both the first. */
  lemma FirstIsFirst(bids: seq<PbsBid>, b: PbsBid, preferDeals: bool)
    requires FirstOfRank(bids, b, preferDeals) && BestOf(bids, b.bid.impId).Some?
    requires var best := BestOf(bids, b.bid.impId).value;
             Rank(b.bid, preferDeals) == Rank(best.bid, preferDeals)
    ensures BestOf(bids, b.bid.impId).value == b
  {
    var best := BestOf(bids, b.bid.impId).value;
    var k := BestOfIsFirst(bids, b.bid.impId);
    var i :| 0 <= i < |bids| && bids[i] == b && ReplacesAll(bids[..i], b, preferDeals);
    if k < i {
      assert bids[..i][k] == best;
      NewWinnerIsHigherRank(b.bid, best.bid, preferDeals);
    }
  }

  /** The winner is listed if the seat it comes from has a top-ranked best bid. */
  lemma ListedIfBestIsTop(seats: Seats, winning: Winners, byBidder: WinnersByBidder, preferDeals: bool, imp: string,
                          s: string)
    requires Decided(seats, winning, byBidder, preferDeals) && imp in winning
    requires s in seats && FirstOfRank(seats[s], winning[imp], preferDeals) && BestIsTop(seats, s, imp, preferDeals)
    ensures Listed(winning, byBidder, imp)
  {
    hide FirstOfRank;
    var best := BestOf(seats[s], imp).value;
    assert InAuction(seats, s, best);
    assert InAuction(seats, s, winning[imp]) by { FirstOfRankIsMember(seats[s], winning[imp], preferDeals); }
    NewWinnerIsHigherRank(best.bid, winning[imp].bid, preferDeals);
    NewWinnerIsHigherRank(winning[imp].bid, best.bid, preferDeals);
    FirstIsFirst(seats[s], winning[imp], preferDeals);
    assert EntryFor(byBidder, imp, s) == Some(winning[imp]);
  }

  lemma FirstOfRankIsMember(bids: seq<PbsBid>, b: PbsBid, preferDeals: bool)
    requires FirstOfRank(bids, b, preferDeals)
    ensures b in bids
  {
  }

  /** With deals not preferred, the winner of an imp is among the bidders' entries. */
  lemma ListedWithoutDeals(seats: Seats, winning: Winners, byBidder: WinnersByBidder, imp: string)
    requires Decided(seats, winning, byBidder, false) && imp in winning
    ensures imp in byBidder && Listed(winning, byBidder, imp)
  {
    hide FirstOfRank;
    var s :| s in seats && FirstOfRank(seats[s], winning[imp], false);
    FirstOfRankIsMember(seats[s], winning[imp], false);
    SeatsOfWinnersAgree(seats, winning, byBidder, imp, s);
    ListedIfBestIsTop(seats, winning, byBidder, false, imp, s);
  }

  lemma SeatsOfWinnersAgree(seats: Seats, winning: Winners, byBidder: WinnersByBidder, imp: string, s: string)
    requires Decided(seats, winning, byBidder, false) && imp in winning && InAuction(seats, s, winning[imp])
    ensures BestIsTop(seats, s, imp, false)
  {
    hide FirstOfRank;
    var best := BestOf(seats[s], imp);
    var i :| 0 <= i < |seats[s]| && seats[s][i] == winning[imp];
    assert winning[imp].bid.price <= best.value.bid.price;
  }

  /** With deals not preferred, the winner of an imp is the same object as exactly one bidder's entry. */
  lemma WinnerListedOnce(seats: Seats, winning: Winners, byBidder: WinnersByBidder, imp: string) returns (s: string)
    requires Decided(seats, winning, byBidder, false) && DistinctBids(seats)
    requires imp in winning
    ensures s in byBidder[imp] && byBidder[imp][s] == winning[imp]
    ensures forall t :: t in byBidder[imp] && byBidder[imp][t] == winning[imp] ==> t == s
  {
    hide WinnersOptimal, DistinctBids;
    TopsAreDistinct(seats, byBidder);
    ListedWithoutDeals(seats, winning, byBidder, imp);
    s :| s in byBidder[imp] && byBidder[imp][s] == winning[imp];
    forall t | t in byBidder[imp] && byBidder[imp][t] == winning[imp] ensures t == s {
      assert EntryFor(byBidder, imp, s) == EntryFor(byBidder, imp, t);
    }
  }

  /** Under either setting: the winner is listed exactly when the seat it comes from has a top-ranked best bid. */
  lemma ListedIffBestIsTop(seats: Seats, winning: Winners, byBidder: WinnersByBidder, preferDeals: bool,
                           imp: string, s: string)
    requires Decided(seats, winning, byBidder, preferDeals) && DistinctBids(seats)
    requires imp in winning && InAuction(seats, s, winning[imp])
    ensures Listed(winning, byBidder, imp) <==> BestIsTop(seats, s, imp, preferDeals)
  {
    hide FirstOfRank;
    if Listed(winning, byBidder, imp) {
      var t :| t in byBidder[imp] && byBidder[imp][t] == winning[imp];
      assert EntryFor(byBidder, imp, t) == Some(winning[imp]);
      assert InAuction(seats, t, winning[imp]);
    } else if BestIsTop(seats, s, imp, preferDeals) {
      var t :| t in seats && FirstOfRank(seats[t], winning[imp], preferDeals);
      FirstOfRankIsMember(seats[t], winning[imp], preferDeals);
      assert InAuction(seats, t, winning[imp]);
      ListedIfBestIsTop(seats, winning, byBidder, preferDeals, imp, s);
      assert false;
    }
  }

  /** The winner of the imp is among the bidders' entries whatever the order of the seats. */
  ghost predicate ListedInEveryRun(seats: Seats, imp: string, preferDeals: bool) {
    forall order :: Enumerates(order, seats.Keys) ==>
      var t := Visit(seats, order, preferDeals);
      imp in t.winning && imp in t.byBidder && Listed(t.winning, t.byBidder, imp)
  }

  /** Every seat with a top-ranked bid on the imp has a top-ranked best bid on it. */
  ghost predicate TopSeatsAgree(seats: Seats, imp: string, preferDeals: bool) {
    forall s, b :: InAuction(seats, s, b) && b.bid.impId == imp && TopRanked(seats, b, preferDeals) ==>
      BestIsTop(seats, s, imp, preferDeals)
  }

  lemma ListedWhenSeatsAgree(seats: Seats, order: seq<string>, imp: string, preferDeals: bool)
    requires DistinctBids(seats) && Enumerates(order, seats.Keys) && TopSeatsAgree(seats, imp, preferDeals)
    requires exists s, b :: InAuction(seats, s, b) && b.bid.impId == imp
    ensures var t := Visit(seats, order, preferDeals);
            imp in t.winning && imp in t.byBidder && Listed(t.winning, t.byBidder, imp)
  {
    hide FirstOfRank, Visit, BiddersOptimal, DistinctBids, BestIsTop, Listed;
    EverySeatVisited(seats, order, preferDeals);
    var t := Visit(seats, order, preferDeals);
    var s :| s in seats && FirstOfRank(seats[s], t.winning[imp], preferDeals);
    FirstOfRankIsMember(seats[s], t.winning[imp], preferDeals);
    assert InAuction(seats, s, t.winning[imp]);
    ListedIffBestIsTop(seats, t.winning, t.byBidder, preferDeals, imp, s);
  }

  // ---------- a run in which a given seat wins ----------

  lemma {:induction false} TopStays(t: Tables, s: string, bids: seq<PbsBid>, preferDeals: bool, b: PbsBid)
    requires b.bid.impId in t.winning && t.winning[b.bid.impId] == b
    requires forall i :: 0 <= i < |bids| && bids[i].bid.impId == b.bid.impId ==>
      !IsNewWinningBid(bids[i].bid, b.bid, preferDeals)
    ensures var t' := AfterBids(t, s, bids, preferDeals);
            b.bid.impId in t'.winning && t'.winning[b.bid.impId] == b
  {
    hide IsNewWinningBid;
    if bids != [] {
      TopStays(t, s, bids[..|bids| - 1], preferDeals, b);
    }
  }

  /** A top-ranked winner of the first `n` seats wins. */
  lemma {:induction false} TopWins(seats: Seats, order: seq<string>, n: nat, preferDeals: bool, b: PbsBid)
    requires n <= |order| && TopRanked(seats, b, preferDeals)
    requires var t := Visit(seats, order[..n], preferDeals); b.bid.impId in t.winning && t.winning[b.bid.impId] == b
    ensures var t := Visit(seats, order, preferDeals); b.bid.impId in t.winning && t.winning[b.bid.impId] == b
    decreases |order|
  {
    hide AfterBids;
    if n < |order| {
      var m := |order| - 1;
      assert order[..m][..n] == order[..n];
      TopWins(seats, order[..m], n, preferDeals, b);
      var bids := SeatOf(seats, order[m]);
      forall i | 0 <= i < |bids| && bids[i].bid.impId == b.bid.impId
        ensures !IsNewWinningBid(bids[i].bid, b.bid, preferDeals)
      {
        assert InAuction(seats, order[m], bids[i]);
      }
      TopStays(Visit(seats, order[..m], preferDeals), order[m], bids, preferDeals, b);
    } else {
      assert order[..n] == order;
    }
  }

  /** A seat with a top-ranked bid on the imp wins it when it is visited first. */
  lemma FirstSeatWins(seats: Seats, s: string, b: PbsBid, preferDeals: bool) returns (order: seq<string>)
    requires InAuction(seats, s, b) && TopRanked(seats, b, preferDeals)
    ensures Enumerates(order, seats.Keys)
    ensures var t := Visit(seats, order, preferDeals);
            b.bid.impId in t.winning && InAuction(seats, s, t.winning[b.bid.impId])
  {
    hide Visit, FirstOfRank, TopRanked;
    var others := Enumeration(seats.Keys - {s});
    order := [s] + others;
    assert order[..1] == [s];
    VisitDecided(seats, [s], preferDeals);
    var one, t := Only(seats, [s]), Visit(seats, [s], preferDeals);
    assert InAuction(one, s, b);
    var w := t.winning[b.bid.impId];
    var u :| u in one && FirstOfRank(one[u], w, preferDeals);
    FirstOfRankIsMember(one[u], w, preferDeals);
    TopTransfers(seats, b, w, preferDeals);
    TopWins(seats, order, 1, preferDeals, w);
  }

  lemma TopTransfers(seats: Seats, b: PbsBid, w: PbsBid, preferDeals: bool)
    requires TopRanked(seats, b, preferDeals) && b.bid.impId == w.bid.impId &&
      !IsNewWinningBid(b.bid, w.bid, preferDeals)
    ensures TopRanked(seats, w, preferDeals)
  {
  }

  /**
   * Exactly when the winner of an imp is listed in every run, whatever is preferred: every seat
   * with a top-ranked bid on the imp has a top-ranked best bid.
   */
  lemma ListedInEveryRunIff(seats: Seats, imp: string, preferDeals: bool)
    requires DistinctBids(seats) && exists s, b :: InAuction(seats, s, b) && b.bid.impId == imp
    ensures ListedInEveryRun(seats, imp, preferDeals) <==> TopSeatsAgree(seats, imp, preferDeals)
  {
    hide FirstOfRank, Visit, DistinctBids, TopRanked, BestIsTop, Decided, Listed;
    if TopSeatsAgree(seats, imp, preferDeals) {
      forall order | Enumerates(order, seats.Keys)
        ensures var t := Visit(seats, order, preferDeals);
                imp in t.winning && imp in t.byBidder && Listed(t.winning, t.byBidder, imp)
      {
        ListedWhenSeatsAgree(seats, order, imp, preferDeals);
      }
    } else {
      var s, b :| InAuction(seats, s, b) && b.bid.impId == imp && TopRanked(seats, b, preferDeals) &&
        !BestIsTop(seats, s, imp, preferDeals);
      var order := FirstSeatWins(seats, s, b, preferDeals);
      var t := Visit(seats, order, preferDeals);
      EverySeatVisited(seats, order, preferDeals);
      DecidedKeys(seats, t, preferDeals);
      ListedIffBestIsTop(seats, t.winning, t.byBidder, preferDeals, imp, s);
    }
  }

  lemma DecidedKeys(seats: Seats, t: Tables, preferDeals: bool)
    requires Decided(seats, t.winning, t.byBidder, preferDeals)
    ensures t.winning.Keys == t.byBidder.Keys
  {
  }

  /** With deals not preferred the condition always holds. */
  lemma SeatsAgreeWithoutDeals(seats: Seats, imp: string)
    ensures TopSeatsAgree(seats, imp, false)
  {
    forall s, b | InAuction(seats, s, b) && b.bid.impId == imp && TopRanked(seats, b, false)
      ensures BestIsTop(seats, s, imp, false)
    {
      var best := BestOf(seats[s], imp);
      var i :| 0 <= i < |seats[s]| && seats[s][i] == b;
      assert b.bid.price <= best.value.bid.price;
      TopTransfers(seats, b, best.value, false);
    }
  }

  /** A seat whose dearest bid on the imp has no deal loses its deal bid from the bidder table, yet wins with it. */
  lemma PreferredDealMayBeUnlisted(dear: PbsBid, deal: PbsBid, winning: Winners, byBidder: WinnersByBidder)
    requires dear.bid.impId == deal.bid.impId && dear.bid.price > deal.bid.price
    requires dear.bid.dealId == "" && deal.bid.dealId != ""
    requires Decided(map["seat" := [dear, deal]], winning, byBidder, true)
    ensures var imp := deal.bid.impId;
            imp in winning && winning[imp] == deal && !Listed(winning, byBidder, imp)
  {
    var seats := map["seat" := [dear, deal]];
    var imp := deal.bid.impId;
    assert InAuction(seats, "seat", dear) && InAuction(seats, "seat", deal);
    assert [dear, deal][..1] == [dear];
    assert BestOf([dear], imp) == Some(dear);
    assert BestOf([dear, deal], imp) == Some(dear);
    ListedIffBestIsTop(seats, winning, byBidder, true, imp, "seat");
  }

  lemma RanksAgree(seats: Seats, preferDeals: bool, winning: Winners, winning': Winners, imp: string)
    requires WinnersOptimal(seats, winning, preferDeals) && WinnersOptimal(seats, winning', preferDeals)
    requires imp in winning
    ensures imp in winning' && Rank(winning[imp].bid, preferDeals) == Rank(winning'[imp].bid, preferDeals)
  {
    hide FirstOfRank;
    var s :| s in seats && FirstOfRank(seats[s], winning[imp], preferDeals);
    FirstOfRankIsMember(seats[s], winning[imp], preferDeals);
    assert InAuction(seats, s, winning[imp]);
    var t :| t in seats && FirstOfRank(seats[t], winning'[imp], preferDeals);
    FirstOfRankIsMember(seats[t], winning'[imp], preferDeals);
    assert InAuction(seats, t, winning'[imp]);
  }

  lemma TablesAgree(seats: Seats, byBidder: WinnersByBidder, byBidder': WinnersByBidder)
    requires BiddersOptimal(seats, byBidder) && BiddersOptimal(seats, byBidder') && byBidder.Keys == byBidder'.Keys
    ensures byBidder == byBidder'
  {
    forall imp | imp in byBidder ensures byBidder[imp] == byBidder'[imp] {
      assert forall s :: EntryFor(byBidder, imp, s) == EntryFor(byBidder', imp, s);
      assert forall s :: s in byBidder[imp] <==> EntryFor(byBidder, imp, s).Some?;
      assert forall s :: s in byBidder'[imp] <==> EntryFor(byBidder', imp, s).Some?;
    }
  }

  /** Seat order cannot change the bidder tables, the imps decided, or the rank of any winner. */
  lemma OutcomeIndependentOfOrder(seats: Seats, preferDeals: bool,
                                  winning: Winners, byBidder: WinnersByBidder,
                                  winning': Winners, byBidder': WinnersByBidder)
    requires Decided(seats, winning, byBidder, preferDeals) && Decided(seats, winning', byBidder', preferDeals)
    ensures byBidder == byBidder' && winning.Keys == winning'.Keys
    ensures forall imp :: imp in winning ==> Rank(winning[imp].bid, preferDeals) == Rank(winning'[imp].bid, preferDeals)
  {
    hide WinnersOptimal, BiddersOptimal, Listed, Rank;
    forall imp | imp in winning
      ensures imp in winning' && Rank(winning[imp].bid, preferDeals) == Rank(winning'[imp].bid, preferDeals)
    {
      RanksAgree(seats, preferDeals, winning, winning', imp);
    }
    forall imp | imp in winning' ensures imp in winning {
      RanksAgree(seats, preferDeals, winning', winning, imp);
    }
    TablesAgree(seats, byBidder, byBidder');
  }

  // ---------- rounded prices ----------

  ghost predicate Rounded(byBidder: WinnersByBidder, g: PG.Granularity, format: (real, int) -> string,
                          rounded: map<PbsBid, string>)
  {
    forall b :: b in rounded ==>
      && rounded[b] == PG.BucketText(b.bid.price, g, format)
      && (PG.Bucket(b.bid.price, g.ranges) == None ==> rounded[b] == "")
      && (forall x :: PG.Bucket(b.bid.price, g.ranges) == Some(x) ==> rounded[b] == format(x, g.precision))
      && exists imp, s :: EntryFor(byBidder, imp, s) == Some(b)
  }

  /** Rounds the price of every bidder's best bid, and of nothing else; `format` is `strconv.FormatFloat`. */
  method RoundPrices(winningBidsByBidder: WinnersByBidder, granularity: PG.Granularity, format: (real, int) -> string)
    returns (rounded: map<PbsBid, string>)
    ensures forall imp, s :: EntryFor(winningBidsByBidder, imp, s).Some? ==>
      EntryFor(winningBidsByBidder, imp, s).value in rounded
    ensures Rounded(winningBidsByBidder, granularity, format, rounded)
  {
    rounded := map[];
    var imps := winningBidsByBidder.Keys;
    while imps != {}
      invariant imps <= winningBidsByBidder.Keys
      invariant forall imp, s :: imp !in imps && EntryFor(winningBidsByBidder, imp, s).Some? ==>
        EntryFor(winningBidsByBidder, imp, s).value in rounded
      invariant Rounded(winningBidsByBidder, granularity, format, rounded)
      decreases |imps|
    {
      var imp :| imp in imps;
      var top := winningBidsByBidder[imp];
      var bidders := top.Keys;
      while bidders != {}
        invariant bidders <= top.Keys
        invariant forall i, s ::
          (i !in imps || (i == imp && s !in bidders)) && EntryFor(winningBidsByBidder, i, s).Some? ==>
            EntryFor(winningBidsByBidder, i, s).value in rounded
        invariant Rounded(winningBidsByBidder, granularity, format, rounded)
        decreases |bidders|
      {
        var s :| s in bidders;
        assert EntryFor(winningBidsByBidder, imp, s) == Some(top[s]);
        var bucket := PG.GetPriceBucket(top[s].bid.price, granularity);
        rounded := rounded[top[s] := if bucket.Some? then format(bucket.value, granularity.precision) else ""];
        bidders := bidders - {s};
      }
      imps := imps - {imp};
    }
  }
}
