/**
 * Competitive exclusion: `applyCategoryMapping` gives every bid a category-duration key, and lets
 * one bid per key survive across all seats. Seat order and tie-breaking coins are arbitrary.
 */
module CategoryMapping {
  import opened Lists
  import opened Bids
  import opened CategoryRules
  import opened DedupeLedger
  import PG = PriceGranularity

  // ---------- seats on the heap ----------

  ghost function Snapshot(seatBids: map<string, SeatBid>): Seats
    reads seatBids.Values
  {
    map s | s in seatBids :: seatBids[s].bids
  }

  ghost predicate DistinctSeats(seatBids: map<string, SeatBid>) {
    forall s, t :: s in seatBids && t in seatBids && s != t ==> seatBids[s] != seatBids[t]
  }

  /** What the bids of every seat say, apart from the objects they are. */
  type Offers = map<string, seq<BidData>>

  ghost function OffersOf(bids: Seats): Offers {
    map s | s in bids :: seq(|bids[s]|, k requires 0 <= k < |bids[s]| => bids[s][k].Data())
  }

  ghost function CardsOf(cfg: Config, offers: Offers): Cards {
    map s, k | s in offers && 0 <= k < |offers[s]| :: Pos(s, k) := CardOf(cfg, s, offers[s][k])
  }

  /** The positions of the finished seats and of the first `i` bids of the current one. */
  ghost function Scanned(bids: Seats, done: set<string>, current: string, i: nat): set<Pos> {
    set s, k | s in bids && 0 <= k < |bids[s]| && (s in done || (s == current && k < i)) :: Pos(s, k)
  }

  /**
   * Finished seats hold exactly their surviving bids, or are marked for removal because nothing
   * of theirs survives; the other seats are untouched.
   */
  ghost predicate SeatsPruned(bids: Seats, seatBids: map<string, SeatBid>, done: set<string>, dead: set<string>,
                              ids: set<string>)
    reads seatBids.Values
  {
    && seatBids.Keys == bids.Keys && done <= bids.Keys
    && (forall s :: s in seatBids && s !in done ==> seatBids[s].bids == bids[s])
    && (forall s :: s in done && s !in dead ==> seatBids[s].bids == Keep(bids[s], ids))
    && (forall s :: s in done && s in dead ==> Keep(bids[s], ids) == [])
    && dead <= done
  }

  ghost function IdAt(bids: Seats, s: string, i: nat): string
    requires s in bids && i < |bids[s]|
  {
    bids[s][i].bid.id
  }

  /** Bid ids are unique across the whole auction. */
  ghost predicate UniqueBidIds(bids: Seats) {
    forall s, t, i: nat, j: nat {:trigger IdAt(bids, s, i), IdAt(bids, t, j)} ::
      s in bids && t in bids && i < |bids[s]| && j < |bids[t]| && IdAt(bids, s, i) == IdAt(bids, t, j)
      ==> s == t && i == j
  }

  lemma UniqueIdsOfSeats(bids: Seats, s: string, k: nat, t: string)
    requires UniqueBidIds(bids) && s in bids && k < |bids[s]| && t in bids
    ensures UniqueIds(bids[s])
    ensures t != s ==> forall j :: 0 <= j < |bids[t]| ==> bids[t][j].bid.id != bids[s][k].bid.id
  {
    forall i, j | 0 <= i < j < |bids[s]| ensures bids[s][i].bid.id != bids[s][j].bid.id {
      assert IdAt(bids, s, i) != IdAt(bids, s, j);
    }
    if t != s {
      forall j | 0 <= j < |bids[t]| ensures bids[t][j].bid.id != bids[s][k].bid.id {
        assert IdAt(bids, s, k) != IdAt(bids, t, j);
      }
    }
  }

  /** What dropping the bid at `k` of seat `s` from the survivors does to every seat. */
  lemma DropFacts(bids: Seats, s: string, k: nat, ids: set<string>)
    requires UniqueBidIds(bids)
    requires s in bids && k < |bids[s]| && bids[s][k].bid.id in ids
    ensures var id := bids[s][k].bid.id;
            var before, after := Keep(bids[s][..k], ids), Keep(bids[s][k + 1..], ids);
            && Keep(bids[s], ids) == before + [bids[s][k]] + after
            && Keep(bids[s], ids - {id}) == before + after
            && (forall i :: 0 <= i < |before| ==> before[i].bid.id != id)
            && (forall t :: t in bids && t != s ==> Keep(bids[t], ids - {id}) == Keep(bids[t], ids))
  {
    var id := bids[s][k].bid.id;
    UniqueIdsOfSeats(bids, s, k, s);
    KeepSplit(bids[s], ids, k);
    KeepDrop(bids[s], ids, k);
    var before := Keep(bids[s][..k], ids);
    KeepMembers(bids[s][..k], ids);
    forall i | 0 <= i < |before| ensures before[i].bid.id != id {
      assert before[i] in bids[s][..k];
    }
    forall t | t in bids && t != s ensures Keep(bids[t], ids - {id}) == Keep(bids[t], ids) {
      UniqueIdsOfSeats(bids, s, k, t);
      KeepSame(bids[t], ids, ids - {id});
    }
  }

  /** Takes a surviving bid out of a seat that has been scanned already. */
  method DropFromFinishedSeat(ghost bids: Seats, seatBids: map<string, SeatBid>, ghost done: set<string>,
                              dead: set<string>, ghost ids: set<string>, e: Entry)
    returns (dead': set<string>)
    requires DistinctSeats(seatBids) && UniqueBidIds(bids)
    requires SeatsPruned(bids, seatBids, done, dead, ids)
    requires e.bidder in done && e.index < |bids[e.bidder]| && bids[e.bidder][e.index].bid.id == e.id && e.id in ids
    modifies seatBids[e.bidder]
    ensures SeatsPruned(bids, seatBids, done, dead', ids - {e.id})
  {
    hide Keep, Without, UniqueBidIds;
    var oldSeatBid := seatBids[e.bidder];
    DropFacts(bids, e.bidder, e.index, ids);
    ghost var before, after := Keep(bids[e.bidder][..e.index], ids), Keep(bids[e.bidder][e.index + 1..], ids);
    assert oldSeatBid.bids == before + [bids[e.bidder][e.index]] + after;
    if |oldSeatBid.bids| == 1 {
      dead' := dead + {e.bidder};
      assert before + after == [];
    } else {
      WithoutAt(before, bids[e.bidder][e.index], after);
      oldSeatBid.RemoveBidById(e.id);
      dead' := dead;
    }
  }

  // ---------- the current seat ----------

  /** The indices below `i` of the bids that did not survive. */
  ghost function Gone(bids: seq<PbsBid>, i: nat, ids: set<string>): set<int>
    requires i <= |bids|
  {
    set k | 0 <= k < i && bids[k].bid.id !in ids
  }

  lemma OneMore<T>(s: seq<T>, xs: set<T>, x: T)
    requires multiset(s) == multiset(xs) && x !in xs
    ensures multiset(s + [x]) == multiset(xs + {x})
  {
  }

  /** A sorted listing of a set is strictly ascending. */
  lemma SortedListing(s: seq<int>, xs: set<int>)
    requires Ascending(s) && multiset(s) == multiset(xs)
    ensures forall i, j :: 0 <= i < j < |s| ==> s[i] < s[j]
    ensures forall x :: x in s <==> x in xs
  {
    assert forall x :: x in s <==> x in multiset(s);
    forall i, j | 0 <= i < j < |s| ensures s[i] < s[j] {
      assert s == s[..j] + [s[j]] + s[j + 1..];
      assert s[i] in s[..j];
      assert multiset(s)[s[j]] == multiset(s[..j])[s[j]] + 1 + multiset(s[j + 1..])[s[j]];
    }
  }

  /** As many strictly ascending indices as there are positions are all of them. */
  lemma {:induction false} AllPositions(s: seq<int>, n: nat, m: nat)
    requires m <= |s| && (forall i, j :: 0 <= i < j < |s| ==> s[i] < s[j])
    requires forall i :: 0 <= i < |s| ==> 0 <= s[i] < n
    ensures m > 0 ==> s[m - 1] >= m - 1
    ensures m < |s| ==> s[m] <= n - (|s| - m)
    decreases |s|
  {
    if |s| > 0 {
      var front := s[..|s| - 1];
      if m > 1 {
        AllPositions(front, n, m - 1);
        assert s[m - 2] < s[m - 1];
      }
      if m < |s| - 1 {
        AllPositions(front, s[|s| - 1], m);
      }
    }
  }

  lemma FullListing(s: seq<int>, n: nat)
    requires |s| == n && (forall i, j :: 0 <= i < j < |s| ==> s[i] < s[j])
    requires forall i :: 0 <= i < |s| ==> 0 <= s[i] < n
    ensures forall k :: 0 <= k < n ==> k in s
  {
    forall k | 0 <= k < n ensures k in s {
      AllPositions(s, n, k);
      AllPositions(s, n, k + 1);
      assert s[k] == k;
    }
  }

  /** Removes the listed indices from the back, so that the earlier ones stay valid. */
  method DropIndices(all: seq<PbsBid>, sorted: seq<int>, ghost ids: set<string>) returns (bids: seq<PbsBid>)
    requires forall i, j :: 0 <= i < j < |sorted| ==> sorted[i] < sorted[j]
    requires forall k :: k in sorted <==> k in Gone(all, |all|, ids)
    ensures bids == Keep(all, ids)
  {
    bids := all;
    ghost var cut := |all|;
    assert all[cut..] == [];
    var i := |sorted| - 1;
    while i >= 0
      invariant -1 <= i < |sorted|
      invariant 0 <= cut <= |all|
      invariant cut == if i == |sorted| - 1 then |all| else sorted[i + 1]
      invariant bids == all[..cut] + Keep(all[cut..], ids)
    {
      var remove := sorted[i];
      KeptRun(all, sorted, ids, i, cut);
      CutOut(all, remove, cut, Keep(all[cut..], ids));
      bids := bids[..remove] + bids[remove + 1..];
      cut := remove;
      i := i - 1;
    }
    KeptRun(all, sorted, ids, -1, cut);
    assert all[0..cut] == all[..cut] && all[0..] == all;
  }

  lemma CutOut<T>(all: seq<T>, r: nat, cut: nat, tail: seq<T>)
    requires r < cut <= |all|
    ensures var s := all[..cut] + tail;
            r < |s| && s[..r] + s[r + 1..] == all[..r] + (all[r + 1..cut] + tail)
  {
  }

  /** Between two removed positions everything is kept. */
  lemma KeptRun(all: seq<PbsBid>, sorted: seq<int>, ids: set<string>, i: int, cut: int)
    requires forall i, j :: 0 <= i < j < |sorted| ==> sorted[i] < sorted[j]
    requires forall k :: k in sorted <==> k in Gone(all, |all|, ids)
    requires -1 <= i < |sorted|
    requires cut == if i == |sorted| - 1 then |all| else sorted[i + 1]
    ensures 0 <= cut <= |all|
    ensures i >= 0 ==> 0 <= sorted[i] < cut && all[sorted[i]].bid.id !in ids
    ensures var from := if i >= 0 then sorted[i] + 1 else 0;
            && from <= cut
            && all[from..cut] + Keep(all[cut..], ids) == Keep(all[from..], ids)
    ensures i >= 0 ==> Keep(all[sorted[i]..], ids) == Keep(all[sorted[i] + 1..], ids)
  {
    assert forall j :: 0 <= j < |sorted| ==> sorted[j] in sorted;
    var from := if i >= 0 then sorted[i] + 1 else 0;
    forall k | from <= k < cut ensures all[k].bid.id in ids {
      assert forall j :: 0 <= j < |sorted| ==> sorted[j] != k;
      assert k !in sorted && k !in Gone(all, |all|, ids);
    }
    KeepAll(all[from..cut], ids);
    assert all[from..] == all[from..cut] + all[cut..];
    KeepAppend(all[from..cut], all[cut..], ids);
    if i >= 0 {
      assert all[sorted[i]..][1..] == all[sorted[i] + 1..];
    }
  }

  // ---------- one bid of the current seat ----------

  /** The tables `applyCategoryMapping` carries from bid to bid. */
  datatype Tables = Tables(
    res: map<string, string>,
    dedupe: map<string, Entry>,
    rejections: seq<Rejection>,
    seatBidsToRemove: set<string>,
    bidsToRemove: seq<int>
  )

  /** `cards` deals one card to every bid of the auction, and to nothing else. */
  ghost predicate Dealt(cfg: Config, bids: Seats, cards: Cards) {
    && (forall p :: p in cards <==> p.seat in bids && p.index < |bids[p.seat]|)
    && (forall p :: p in cards ==> cards[p].id == bids[p.seat][p.index].bid.id)
    && (forall p :: p in cards && cards[p].key.Some? ==>
          cards[p].price == PriceValue(cfg, cards[p].pb) && cards[p].reason == Deduplicated)
  }

  ghost predicate IsCard(cfg: Config, bids: Seats, cards: Cards, p: Pos)
    requires Dealt(cfg, bids, cards) && p in cards
  {
    cards[p] == CardOf(cfg, p.seat, bids[p.seat][p.index].Data())
  }

  ghost predicate Scanning(cfg: Config, bids: Seats, cards: Cards, seatBids: map<string, SeatBid>,
                           done: set<string>, name: string, i: nat, t: Tables)
    reads seatBids.Values
  {
    && DistinctSeats(seatBids) && UniqueBidIds(bids) && Dealt(cfg, bids, cards) && UniqueAcross(cards)
    && name in bids && name !in done && i <= |bids[name]|
    && Ledger(cards, Scanned(bids, done, name, i), t.res, t.dedupe, t.rejections)
    && SeatsPruned(bids, seatBids, done, t.seatBidsToRemove, t.res.Keys)
    && multiset(t.bidsToRemove) == multiset(Gone(bids[name], i, t.res.Keys))
  }

  lemma ScannedNext(bids: Seats, done: set<string>, name: string, i: nat)
    requires name in bids && name !in done && i < |bids[name]|
    ensures Pos(name, i) !in Scanned(bids, done, name, i)
    ensures Scanned(bids, done, name, i + 1) == Scanned(bids, done, name, i) + {Pos(name, i)}
  {
  }

  /** Changing only who survives in the current seat does not disturb the finished ones. */
  lemma FinishedSeatsKeep(bids: Seats, seatBids: map<string, SeatBid>, done: set<string>, dead: set<string>,
                          ids: set<string>, ids': set<string>)
    requires SeatsPruned(bids, seatBids, done, dead, ids)
    requires forall s, k :: s in done && 0 <= k < |bids[s]| ==>
      (bids[s][k].bid.id in ids <==> bids[s][k].bid.id in ids')
    ensures SeatsPruned(bids, seatBids, done, dead, ids')
  {
    forall s | s in done ensures Keep(bids[s], ids) == Keep(bids[s], ids') {
      KeepSame(bids[s], ids, ids');
    }
  }

  method RejectBid(ghost cfg: Config, ghost bids: Seats, ghost cards: Cards, ghost seatBids: map<string, SeatBid>,
                   ghost done: set<string>, ghost name: string, i: nat, id: string, reason: Reason,
                   t: Tables) returns (t': Tables)
    requires Scanning(cfg, bids, cards, seatBids, done, name, i, t) && i < |bids[name]|
    requires Verdict(cards[Pos(name, i)]) == Rejection(id, reason)
    requires var c := cards[Pos(name, i)];
             c.key.Some? ==>
               && c.key.value in t.dedupe && t.dedupe[c.key.value].At() in cards
               && c.price <= cards[t.dedupe[c.key.value].At()].price
    ensures Scanning(cfg, bids, cards, seatBids, done, name, i + 1, t')
  {
    hide KeysHeld, KeysBest, Losers, UniqueAcross, UniqueBidIds, SeatsPruned;
    t' := t.(rejections := t.rejections + [Rejection(id, reason)], bidsToRemove := t.bidsToRemove + [i]);
    ghost var p := Pos(name, i);
    ghost var seen := Scanned(bids, done, name, i);
    ScannedNext(bids, done, name, i);
    LedgerReject(cards, seen, p, t.res, t.dedupe, t.rejections);
    NotShownYet(cards, seen, p, t.res, t.dedupe);
    assert Gone(bids[name], i + 1, t.res.Keys) == Gone(bids[name], i, t.res.Keys) + {i};
    OneMore(t.bidsToRemove, Gone(bids[name], i, t.res.Keys), i);
  }

  /** What taking the key does to the indices to be removed from the current seat. */
  lemma GoneAfterTake(bids: seq<PbsBid>, i: nat, ids: set<string>, displaced: set<string>)
    requires UniqueIds(bids) && i < |bids| && bids[i].bid.id !in ids && displaced <= ids
    ensures var ids' := (ids - displaced) + {bids[i].bid.id};
            Gone(bids, i + 1, ids') == Gone(bids, i, ids) + (set k | 0 <= k < i && bids[k].bid.id in displaced)
  {
  }

  /** The holder of a key, as the ledger knows it. */
  lemma HolderFacts(cfg: Config, bids: Seats, cards: Cards, seen: set<Pos>, t: Tables, key: string)
    requires Dealt(cfg, bids, cards)
    requires Ledger(cards, seen, t.res, t.dedupe, t.rejections) && key in t.dedupe
    ensures var e := t.dedupe[key];
            && e.At() in seen && e.At() in cards
            && e.bidder in bids && e.index < |bids[e.bidder]|
            && bids[e.bidder][e.index].bid.id == e.id == cards[e.At()].id && e.id in t.res
            && e.price == cards[e.At()].pb
            && cards[e.At()].price == PriceValue(cfg, e.price) && cards[e.At()].reason == Deduplicated
  {
  }

  lemma CurrentSeatOnly(bids: Seats, seatBids: map<string, SeatBid>, done: set<string>, dead: set<string>,
                        ids: set<string>, name: string, k: nat)
    requires UniqueBidIds(bids) && SeatsPruned(bids, seatBids, done, dead, ids)
    requires name in bids && name !in done && k < |bids[name]|
    ensures SeatsPruned(bids, seatBids, done, dead, ids - {bids[name][k].bid.id})
    ensures SeatsPruned(bids, seatBids, done, dead, ids + {bids[name][k].bid.id})
  {
    forall s | s in done
      ensures forall j :: 0 <= j < |bids[s]| ==> bids[s][j].bid.id != bids[name][k].bid.id
    {
      UniqueIdsOfSeats(bids, name, k, s);
    }
    FinishedSeatsKeep(bids, seatBids, done, dead, ids, ids - {bids[name][k].bid.id});
    FinishedSeatsKeep(bids, seatBids, done, dead, ids, ids + {bids[name][k].bid.id});
  }

  /** `e` files a surviving bid that has been scanned before bid `i` of the current seat. */
  ghost predicate Holds(bids: Seats, done: set<string>, name: string, i: nat, ids: set<string>, e: Entry) {
    && e.bidder in bids && e.index < |bids[e.bidder]| && bids[e.bidder][e.index].bid.id == e.id && e.id in ids
    && (e.bidder in done || (e.bidder == name && e.index < i))
  }

  ghost function IdsAfter(ids: set<string>, holder: Option<Entry>, id: string): set<string> {
    (if holder.Some? then ids - {holder.value.id} else ids) + {id}
  }

  /** The removal list after bid `i` has taken the key of `holder`. */
  function RemovalsAfter(remove: seq<int>, name: string, holder: Option<Entry>): seq<int> {
    if holder.Some? && holder.value.bidder == name then remove + [holder.value.index] else remove
  }

  lemma RemovalsAreGone(bids: Seats, done: set<string>, name: string, i: nat, remove: seq<int>,
                        ids: set<string>, holder: Option<Entry>)
    requires UniqueBidIds(bids) && name in bids && name !in done && i < |bids[name]| && bids[name][i].bid.id !in ids
    requires multiset(remove) == multiset(Gone(bids[name], i, ids))
    requires holder.Some? ==> Holds(bids, done, name, i, ids, holder.value)
    ensures multiset(RemovalsAfter(remove, name, holder))
         == multiset(Gone(bids[name], i + 1, IdsAfter(ids, holder, bids[name][i].bid.id)))
  {
    var own, before := bids[name], Gone(bids[name], i, ids);
    var displaced := if holder.Some? then {holder.value.id} else {};
    var here := set k | 0 <= k < i && own[k].bid.id in displaced;
    assert IdsAfter(ids, holder, own[i].bid.id) == (ids - displaced) + {own[i].bid.id};
    UniqueIdsOfSeats(bids, name, i, name);
    GoneAfterTake(own, i, ids, displaced);
    if holder.Some? && holder.value.bidder == name {
      assert here == {holder.value.index};
      OneMore(remove, before, holder.value.index);
    } else {
      if holder.Some? {
        UniqueIdsOfSeats(bids, holder.value.bidder, holder.value.index, name);
      }
      assert here == {};
      assert before + {} == before;
    }
  }

  /**
   * Bid `i` of the current seat joins the survivors and the holder of its key, if any, leaves
   * them: by index if it is in the same seat, by id or with its whole seat otherwise.
   */
  method MakeRoom(ghost bids: Seats, seatBids: map<string, SeatBid>, ghost done: set<string>, name: string,
                  ghost i: nat, dead: set<string>, remove: seq<int>, ghost ids: set<string>, holder: Option<Entry>)
    returns (dead': set<string>, remove': seq<int>)
    requires DistinctSeats(seatBids) && UniqueBidIds(bids) && SeatsPruned(bids, seatBids, done, dead, ids)
    requires name in bids && name !in done && i < |bids[name]|
    requires holder.Some? ==> Holds(bids, done, name, i, ids, holder.value)
    modifies seatBids.Values
    ensures SeatsPruned(bids, seatBids, done, dead', IdsAfter(ids, holder, bids[name][i].bid.id))
    ensures remove' == RemovalsAfter(remove, name, holder)
  {
    dead', remove' := dead, remove;
    if holder.Some? {
      var dupe := holder.value;
      if dupe.bidder == name {
        remove' := remove + [dupe.index];
        CurrentSeatOnly(bids, seatBids, done, dead, ids, name, dupe.index);
      } else {
        dead' := DropFromFinishedSeat(bids, seatBids, done, dead, ids, dupe);
      }
    }
    CurrentSeatOnly(bids, seatBids, done, dead', if holder.Some? then ids - {holder.value.id} else ids, name, i);
  }

  /** The holder of the key bid `i` competes for. */
  function HolderOf(dedupe: map<string, Entry>, key: string): Option<Entry> {
    if key in dedupe then Some(dedupe[key]) else None
  }

  lemma LedgerAfterTake(cfg: Config, bids: Seats, cards: Cards, done: set<string>, name: string, i: nat, t: Tables)
    requires Dealt(cfg, bids, cards) && UniqueAcross(cards)
    requires name in bids && name !in done && i < |bids[name]| && cards[Pos(name, i)].key.Some?
    requires Ledger(cards, Scanned(bids, done, name, i), t.res, t.dedupe, t.rejections)
    requires var key := cards[Pos(name, i)].key.value;
             key in t.dedupe ==>
               t.dedupe[key].At() in cards && cards[t.dedupe[key].At()].price <= cards[Pos(name, i)].price
    ensures var p := Pos(name, i);
            var key := cards[p].key.value;
            var res' := ResAfter(cards, p, t.res, t.dedupe);
            && bids[name][i].bid.id == cards[p].id && cards[p].id !in t.res
            && res'.Keys == IdsAfter(t.res.Keys, HolderOf(t.dedupe, key), cards[p].id)
            && (key in t.dedupe ==> Holds(bids, done, name, i, t.res.Keys, t.dedupe[key]))
            && Ledger(cards, Scanned(bids, done, name, i + 1), res', t.dedupe[key := EntryOf(cards, p)],
                      if key in t.dedupe then t.rejections + [Rejection(t.dedupe[key].id, Deduplicated)]
                      else t.rejections)
  {
    hide KeysHeld, KeysBest, ShownHold, Losers, UniqueAcross;
    var p, seen := Pos(name, i), Scanned(bids, done, name, i);
    ScannedNext(bids, done, name, i);
    NotShownYet(cards, seen, p, t.res, t.dedupe);
    if cards[p].key.value in t.dedupe {
      HolderFacts(cfg, bids, cards, seen, t, cards[p].key.value);
    }
    LedgerTake(cards, seen, p, t.res, t.dedupe, t.rejections);
  }

  method TakeKey(ghost cfg: Config, ghost bids: Seats, ghost cards: Cards, seatBids: map<string, SeatBid>,
                 ghost done: set<string>, name: string, i: nat, card: Card, t: Tables) returns (t': Tables)
    requires Scanning(cfg, bids, cards, seatBids, done, name, i, t) && i < |bids[name]|
    requires Pos(name, i) in cards && card == cards[Pos(name, i)] && card.key.Some?
    requires card.key.value in t.dedupe ==>
      t.dedupe[card.key.value].At() in cards && cards[t.dedupe[card.key.value].At()].price <= card.price
    modifies seatBids.Values
    ensures Scanning(cfg, bids, cards, seatBids, done, name, i + 1, t')
  {
    hide Ledger, SeatsPruned, Dealt, UniqueAcross, UniqueBidIds;
    var key, holder := card.key.value, HolderOf(t.dedupe, card.key.value);
    LedgerAfterTake(cfg, bids, cards, done, name, i, t);
    RemovalsAreGone(bids, done, name, i, t.bidsToRemove, t.res.Keys, holder);
    var dead, remove := MakeRoom(bids, seatBids, done, name, i, t.seatBidsToRemove, t.bidsToRemove, t.res.Keys, holder);
    var res, rejections := t.res, t.rejections;
    if key in t.dedupe {
      rejections := rejections + [Rejection(t.dedupe[key].id, Deduplicated)];
      res := res - {t.dedupe[key].id};
    }
    res := res[card.id := card.shown];
    assert res == ResAfter(cards, Pos(name, i), t.res, t.dedupe);
    t' := Tables(res, t.dedupe[key := Entry(name, i, card.id, card.pb)], rejections, dead, remove);
  }

  method ScanBid(cfg: Config, ghost bids: Seats, ghost cards: Cards, seatBids: map<string, SeatBid>,
                 ghost done: set<string>, name: string, i: nat, bid: PbsBid, t: Tables) returns (t': Tables)
    requires Scanning(cfg, bids, cards, seatBids, done, name, i, t) && i < |bids[name]| && bid == bids[name][i]
    requires Pos(name, i) in cards && IsCard(cfg, bids, cards, Pos(name, i))
    modifies seatBids.Values
    ensures Scanning(cfg, bids, cards, seatBids, done, name, i + 1, t')
  {
    hide CardOf, KeysHeld, KeysBest, ShownHold, Losers, UniqueAcross, UniqueBidIds, SeatsPruned;
    var card := CardOf(cfg, name, bid.Data());
    if card.key.None? {
      t' := RejectBid(cfg, bids, cards, seatBids, done, name, i, card.id, card.reason, t);
    } else if card.key.value in t.dedupe {
      HolderFacts(cfg, bids, cards, Scanned(bids, done, name, i), t, card.key.value);
      var dupePrice := PriceValue(cfg, t.dedupe[card.key.value].price);
      var currPrice := PriceValue(cfg, card.pb);
      if dupePrice == currPrice {
        var coin: bool := *;
        if coin {
          dupePrice := -1.0;
        } else {
          currPrice := -1.0;
        }
      }
      if dupePrice < currPrice {
        t' := TakeKey(cfg, bids, cards, seatBids, done, name, i, card, t);
      } else {
        t' := RejectBid(cfg, bids, cards, seatBids, done, name, i, card.id, Deduplicated, t);
      }
    } else {
      t' := TakeKey(cfg, bids, cards, seatBids, done, name, i, card, t);
    }
  }

  // ---------- a whole seat ----------

  lemma AllGone(all: seq<PbsBid>, ids: set<string>, sorted: seq<int>)
    requires forall i, j :: 0 <= i < j < |sorted| ==> sorted[i] < sorted[j]
    requires forall k :: k in sorted <==> k in Gone(all, |all|, ids)
    requires |sorted| == |all|
    ensures Keep(all, ids) == []
  {
    assert forall i :: 0 <= i < |sorted| ==> sorted[i] in sorted;
    FullListing(sorted, |all|);
    forall k | 0 <= k < |all| ensures all[k].bid.id !in ids {
      assert k in sorted;
    }
    KeepNone(all, ids);
  }

  lemma NoneGone(all: seq<PbsBid>, ids: set<string>, sorted: seq<int>)
    requires forall k :: k in sorted <==> k in Gone(all, |all|, ids)
    requires sorted == []
    ensures Keep(all, ids) == all
  {
    forall k | 0 <= k < |all| ensures all[k].bid.id in ids {
      assert k !in sorted;
    }
    KeepAll(all, ids);
  }

  /** What is left of a scanned seat; `empty` when every one of its bids was rejected. */
  method PruneSeat(all: seq<PbsBid>, remove: seq<int>, ghost ids: set<string>) returns (empty: bool, bids: seq<PbsBid>)
    requires multiset(remove) == multiset(Gone(all, |all|, ids))
    ensures empty ==> Keep(all, ids) == []
    ensures !empty ==> bids == Keep(all, ids)
  {
    hide Gone;
    ghost var gone := Gone(all, |all|, ids);
    var sorted := SortInts(remove);
    SortIntsAscending(remove);
    SortedListing(sorted, gone);
    SameMembers(sorted, remove);
    empty, bids := false, all;
    if |remove| > 0 {
      if |remove| == |all| {
        empty := true;
        AllGone(all, ids, sorted);
      } else {
        bids := DropIndices(all, sorted, ids);
      }
    } else {
      NoneGone(all, ids, sorted);
    }
  }

  /** Prunes a seat that has just been scanned, or marks it if nothing of it is left. */
  method FinishSeat(ghost bids: Seats, seatBids: map<string, SeatBid>, ghost done: set<string>, name: string,
                    dead: set<string>, remove: seq<int>, ghost ids: set<string>) returns (dead': set<string>)
    requires DistinctSeats(seatBids) && SeatsPruned(bids, seatBids, done, dead, ids)
    requires name in bids && name !in done
    requires multiset(remove) == multiset(Gone(bids[name], |bids[name]|, ids))
    modifies seatBids[name]
    ensures SeatsPruned(bids, seatBids, done + {name}, dead', ids)
  {
    hide Gone, Keep;
    var empty, left := PruneSeat(seatBids[name].bids, remove, ids);
    if empty {
      dead' := dead + {name};
    } else {
      seatBids[name].bids := left;
      dead' := dead;
    }
  }

  lemma ScannedSeats(bids: Seats, done: set<string>, name: string)
    requires name in bids
    ensures Scanned(bids, done, name, 0) == Scanned(bids, done, "", 0)
    ensures Scanned(bids, done, name, |bids[name]|) == Scanned(bids, done + {name}, "", 0)
  {
  }

  /** Between two seats: the ledger covers the finished ones and they are pruned accordingly. */
  ghost predicate Between(cfg: Config, bids: Seats, cards: Cards, seatBids: map<string, SeatBid>, done: set<string>,
                          res: map<string, string>, dedupe: map<string, Entry>, rejections: seq<Rejection>,
                          dead: set<string>)
    reads seatBids.Values
  {
    && DistinctSeats(seatBids) && UniqueBidIds(bids) && Dealt(cfg, bids, cards) && UniqueAcross(cards)
    && (forall p :: p in cards ==> IsCard(cfg, bids, cards, p))
    && Ledger(cards, Scanned(bids, done, "", 0), res, dedupe, rejections)
    && SeatsPruned(bids, seatBids, done, dead, res.Keys)
  }

  method ScanSeat(cfg: Config, ghost bids: Seats, ghost cards: Cards, seatBids: map<string, SeatBid>,
                  ghost done: set<string>, name: string, res: map<string, string>, dedupe: map<string, Entry>,
                  rejections: seq<Rejection>, dead: set<string>)
    returns (res': map<string, string>, dedupe': map<string, Entry>, rejections': seq<Rejection>, dead': set<string>)
    requires Between(cfg, bids, cards, seatBids, done, res, dedupe, rejections, dead)
    requires name in seatBids && name !in done
    modifies seatBids.Values
    ensures Between(cfg, bids, cards, seatBids, done + {name}, res', dedupe', rejections', dead')
  {
    hide Ledger, UniqueAcross, UniqueBidIds, IsCard, Gone;
    var seatBid := seatBids[name];
    var t := Tables(res, dedupe, rejections, dead, []);
    ScannedSeats(bids, done, name);
    NothingGone(bids[name], res.Keys);
    for i := 0 to |seatBid.bids|
      invariant seatBid.bids == bids[name]
      invariant Scanning(cfg, bids, cards, seatBids, done, name, i, t)
    {
      t := ScanBid(cfg, bids, cards, seatBids, done, name, i, seatBid.bids[i], t);
    }
    res', dedupe', rejections' := t.res, t.dedupe, t.rejections;
    dead' := FinishSeat(bids, seatBids, done, name, t.seatBidsToRemove, t.bidsToRemove, t.res.Keys);
  }

  lemma NothingGone(bids: seq<PbsBid>, ids: set<string>)
    ensures Gone(bids, 0, ids) == {}
  {
  }

  // ---------- the whole auction ----------

  /** The request asks for translation but names no ad server the exchange knows. */
  predicate UnknownAdServer(cfg: Config) {
    cfg.withCategory && Translates(cfg) && AdServerName(cfg.primaryAdServer).None?
  }

  /** Some surviving bid has the key of the bid at `p` and is at least as dear. */
  ghost predicate Represented(cards: Cards, res: map<string, string>, p: Pos)
    requires p in cards
  {
    exists q :: q in cards && cards[q].key == cards[p].key && cards[q].id in res && cards[p].price <= cards[q].price
  }

  ghost predicate Survives(cards: Cards, res: map<string, string>, p: Pos) {
    p in cards && cards[p].id in res
  }

  /**
   * Competitive exclusion. Every key some eligible bid has is represented by exactly one surviving
   * bid, at least as dear as every eligible bid with that key and shown under its own label, and
   * nothing else survives.
   */
  ghost predicate Exclusive(cards: Cards, res: map<string, string>) {
    && (forall p {:trigger Represented(cards, res, p)} ::
          p in cards && cards[p].key.Some? ==> Represented(cards, res, p))
    && (forall p, q {:trigger Survives(cards, res, p), Survives(cards, res, q)} ::
          Survives(cards, res, p) && Survives(cards, res, q) && cards[p].key == cards[q].key ==> p == q)
    && (forall p {:trigger Survives(cards, res, p)} ::
          Survives(cards, res, p) ==> cards[p].key.Some? && res[cards[p].id] == cards[p].shown)
    && (forall id :: id in res ==> exists p :: p in cards && cards[p].id == id)
  }

  lemma DealCards(cfg: Config, bids: Seats)
    requires UniqueBidIds(bids)
    ensures var cards := CardsOf(cfg, OffersOf(bids));
            Dealt(cfg, bids, cards) && UniqueAcross(cards) && forall p :: p in cards ==> IsCard(cfg, bids, cards, p)
  {
    var cards := CardsOf(cfg, OffersOf(bids));
    forall p, q | p in cards && q in cards && IdOf(cards, p) == IdOf(cards, q) ensures p == q {
      assert IdAt(bids, p.seat, p.index) == IdAt(bids, q.seat, q.index);
    }
  }

  lemma LedgerRepresents(cards: Cards, res: map<string, string>, dedupe: map<string, Entry>, p: Pos)
    requires KeysHeld(cards, cards.Keys, res, dedupe) && KeysBest(cards, cards.Keys, dedupe)
    requires p in cards && cards[p].key.Some?
    ensures Represented(cards, res, p)
  {
  }

  lemma LedgerSurvivor(cards: Cards, res: map<string, string>, dedupe: map<string, Entry>, p: Pos)
    requires KeysHeld(cards, cards.Keys, res, dedupe) && ShownHold(cards, cards.Keys, res, dedupe)
    requires p in cards && cards[p].id in res
    ensures cards[p].key.Some? && cards[p].key.value in dedupe && dedupe[cards[p].key.value].At() == p
    ensures res[cards[p].id] == cards[p].shown
  {
  }

  /** A ledger that covers every bid is the promised outcome. */
  lemma LedgerIsExclusive(cards: Cards, res: map<string, string>, dedupe: map<string, Entry>,
                          rejections: seq<Rejection>)
    requires Ledger(cards, cards.Keys, res, dedupe, rejections)
    ensures Exclusive(cards, res)
    ensures multiset(rejections) == multiset(Losers(cards, cards.Keys, res))
  {
    hide KeysHeld, KeysBest, Losers, Represented;
    forall p | p in cards && cards[p].key.Some? ensures Represented(cards, res, p) {
      LedgerRepresents(cards, res, dedupe, p);
    }
    forall p | Survives(cards, res, p)
      ensures cards[p].key.Some? && cards[p].key.value in dedupe && dedupe[cards[p].key.value].At() == p
      ensures res[cards[p].id] == cards[p].shown
    {
      LedgerSurvivor(cards, res, dedupe, p);
    }
  }

  /**
   * `applyCategoryMapping`, for every seat order and every coin. Each bid either stays in its seat
   * and in the category map, or is rejected once for its own reason.
   */
  method ApplyCategoryMapping(cfg: Config, seatBids: map<string, SeatBid>)
    returns (res: map<string, string>, rejections: seq<Rejection>, unknownAdServer: Option<int>)
    requires DistinctSeats(seatBids) && UniqueBidIds(Snapshot(seatBids))
    modifies seatBids.Values
    ensures unknownAdServer == if UnknownAdServer(cfg) then Some(cfg.primaryAdServer) else None
    ensures unknownAdServer.Some? <==>
      && cfg.withCategory && cfg.translateCategories != Some(false)
      && cfg.primaryAdServer != 1 && cfg.primaryAdServer != 2
    ensures unknownAdServer.Some? ==> res == map[] && rejections == [] && Snapshot(seatBids) == old(Snapshot(seatBids))
    ensures unknownAdServer.None? ==>
      forall s :: s in seatBids ==> seatBids[s].bids == Keep(old(seatBids[s].bids), res.Keys)
    ensures unknownAdServer.None? ==>
      var cards := CardsOf(cfg, OffersOf(old(Snapshot(seatBids))));
      && Exclusive(cards, res)
      && multiset(rejections) == multiset(Losers(cards, cards.Keys, res))
    ensures unknownAdServer.None? ==>
      var offers := OffersOf(old(Snapshot(seatBids)));
      DearestSurvive(cfg, offers, res) && Accounted(cfg, offers, res, rejections)
  {
    hide CardsOf, OffersOf, UniqueBidIds, Losers, Exclusive, Keep, DearestSurvive, Accounted;
    if UnknownAdServer(cfg) {
      return map[], [], Some(cfg.primaryAdServer);
    }
    unknownAdServer := None;
    res, rejections := ScanAllSeats(cfg, seatBids);
    ExclusiveIsDearest(cfg, OffersOf(old(Snapshot(seatBids))), res);
    LosersAreAccounted(cfg, OffersOf(old(Snapshot(seatBids))), res, rejections);
  }

  method ScanAllSeats(cfg: Config, seatBids: map<string, SeatBid>)
    returns (res: map<string, string>, rejections: seq<Rejection>)
    requires DistinctSeats(seatBids) && UniqueBidIds(Snapshot(seatBids))
    modifies seatBids.Values
    ensures forall s :: s in seatBids ==> seatBids[s].bids == Keep(old(seatBids[s].bids), res.Keys)
    ensures var cards := CardsOf(cfg, OffersOf(old(Snapshot(seatBids))));
            && Exclusive(cards, res)
            && multiset(rejections) == multiset(Losers(cards, cards.Keys, res))
  {
    hide CardsOf, OffersOf, UniqueBidIds, UniqueAcross, Dealt, IsCard, Ledger, Losers, Exclusive, SeatsPruned, Keep;
    ghost var bids := Snapshot(seatBids);
    ghost var cards := CardsOf(cfg, OffersOf(bids));
    res, rejections := map[], [];
    var dedupe: map<string, Entry> := map[];
    var seatBidsToRemove: set<string> := {};
    DealCards(cfg, bids);
    NothingScanned(bids, cards, seatBids);
    var remaining := seatBids.Keys;
    assert seatBids.Keys - remaining == {} && res.Keys == {};
    while remaining != {}
      invariant remaining <= seatBids.Keys
      invariant Between(cfg, bids, cards, seatBids, seatBids.Keys - remaining, res, dedupe, rejections,
        seatBidsToRemove)
      decreases |remaining|
    {
      var name :| name in remaining;
      assert (seatBids.Keys - remaining) + {name} == seatBids.Keys - (remaining - {name});
      res, dedupe, rejections, seatBidsToRemove := ScanSeat(cfg, bids, cards, seatBids, seatBids.Keys - remaining, name,
                                                            res, dedupe, rejections, seatBidsToRemove);
      remaining := remaining - {name};
    }
    assert seatBids.Keys - {} == seatBids.Keys;
    EverythingScanned(cfg, bids, cards);
    LedgerIsExclusive(cards, res, dedupe, rejections);
    ClearSeats(bids, seatBids, seatBidsToRemove, res.Keys);
  }

  lemma NothingScanned(bids: Seats, cards: Cards, seatBids: map<string, SeatBid>)
    requires bids == Snapshot(seatBids)
    ensures Ledger(cards, Scanned(bids, {}, "", 0), map[], map[], [])
    ensures SeatsPruned(bids, seatBids, {}, {}, {})
  {
  }

  lemma EverythingScanned(cfg: Config, bids: Seats, cards: Cards)
    requires Dealt(cfg, bids, cards)
    ensures Scanned(bids, bids.Keys, "", 0) == cards.Keys
  {
  }

  /** Empties the seats that were marked on the way. */
  method ClearSeats(ghost bids: Seats, seatBids: map<string, SeatBid>, seatBidsToRemove: set<string>,
                    ghost ids: set<string>)
    requires DistinctSeats(seatBids) && SeatsPruned(bids, seatBids, seatBids.Keys, seatBidsToRemove, ids)
    modifies seatBids.Values
    ensures forall s :: s in seatBids ==> seatBids[s].bids == Keep(bids[s], ids)
  {
    hide Keep;
    var left := seatBidsToRemove;
    while left != {}
      invariant left <= seatBidsToRemove
      invariant forall s :: s in seatBids && s !in left ==> seatBids[s].bids == Keep(bids[s], ids)
      decreases |left|
    {
      var name :| name in left;
      seatBids[name].bids := [];
      left := left - {name};
    }
  }

  // ---------- in plain terms ----------

  ghost predicate InOffers(offers: Offers, p: Pos) {
    p.seat in offers && p.index < |offers[p.seat]|
  }

  ghost function DataAt(offers: Offers, p: Pos): BidData
    requires InOffers(offers, p)
  {
    offers[p.seat][p.index]
  }

  /**
   * The first bid is no dearer than the second, by their price texts as read and by their buckets
   * where those read back.
   */
  ghost predicate NoDearer(cfg: Config, a: BidData, b: BidData) {
    var x := cfg.text.parse(PG.BucketText(a.bid.price, cfg.granularity, cfg.text.format));
    var y := cfg.text.parse(PG.BucketText(b.bid.price, cfg.granularity, cfg.text.format));
    var m, n := PG.Bucket(a.bid.price, cfg.granularity.ranges), PG.Bucket(b.bid.price, cfg.granularity.ranges);
    && (x.Some? && y.Some? ==> x.value <= y.value)
    && (x.None? && y.Some? ==> 0.0 <= y.value)
    && (x.Some? && y.None? ==> x.value <= 0.0)
    && (m.Some? && n.Some? && ReadsBack(cfg, m.value) && ReadsBack(cfg, n.value) ==> m.value <= n.value)
  }

  ghost predicate ReadsBack(cfg: Config, bucket: real) {
    cfg.text.parse(cfg.text.format(bucket, cfg.granularity.precision)) == Some(bucket)
  }

  ghost predicate SameKey(cfg: Config, a: BidData, b: BidData) {
    && Classify(cfg, a).Eligible? && Classify(cfg, b).Eligible?
    && DupeKey(cfg, Classify(cfg, a)) == DupeKey(cfg, Classify(cfg, b))
  }

  ghost predicate HasSurvivor(cfg: Config, offers: Offers, res: map<string, string>, a: BidData) {
    exists q :: InOffers(offers, q) && SameKey(cfg, a, DataAt(offers, q)) && DataAt(offers, q).bid.id in res
  }

  /** Every eligible bid's key has exactly one survivor, and no bid with the key is dearer than that. */
  ghost predicate DearestSurvive(cfg: Config, offers: Offers, res: map<string, string>) {
    && (forall p :: InOffers(offers, p) && Classify(cfg, DataAt(offers, p)).Eligible? ==>
          HasSurvivor(cfg, offers, res, DataAt(offers, p)))
    && (forall p, q {:trigger InOffers(offers, p), InOffers(offers, q)} ::
          InOffers(offers, p) && InOffers(offers, q) && SameKey(cfg, DataAt(offers, p), DataAt(offers, q)) ==>
            DataAt(offers, q).bid.id in res ==>
              && NoDearer(cfg, DataAt(offers, p), DataAt(offers, q))
              && (DataAt(offers, p).bid.id in res ==> p == q))
  }

  /** Every bid survives under its label, or is rejected once for what is wrong with it or as a duplicate. */
  ghost predicate Accounted(cfg: Config, offers: Offers, res: map<string, string>, rejections: seq<Rejection>) {
    forall p :: InOffers(offers, p) ==>
      var d := DataAt(offers, p);
      var o := Classify(cfg, d);
      if d.bid.id in res then o.Eligible? && res[d.bid.id] == CategoryDuration(cfg, o, p.seat)
      else multiset(rejections)[Rejection(d.bid.id, if o.Rejected? then o.reason else Deduplicated)] == 1
  }

  lemma CardsInPlainTerms(cfg: Config, offers: Offers, p: Pos)
    requires InOffers(offers, p)
    ensures var cards, d := CardsOf(cfg, offers), DataAt(offers, p);
            var o := Classify(cfg, d);
            && p in cards && cards[p].id == d.bid.id
            && (o.Rejected? ==> cards[p].key == None && cards[p].reason == o.reason)
            && (o.Eligible? ==>
                  && cards[p].key == Some(DupeKey(cfg, o)) && cards[p].reason == Deduplicated
                  && cards[p].shown == CategoryDuration(cfg, o, p.seat)
                  && cards[p].price == PriceValue(cfg, PriceText(cfg, d.bid.price)))
  {
    hide CategoryOf, RoundDuration, DupeKey, CategoryDuration, PriceText, PriceValue;
  }

  lemma CheaperIsNoDearer(cfg: Config, a: BidData, b: BidData)
    requires PriceValue(cfg, PriceText(cfg, a.bid.price)) <= PriceValue(cfg, PriceText(cfg, b.bid.price))
    ensures NoDearer(cfg, a, b)
  {
  }

  lemma ExclusiveIsDearest(cfg: Config, offers: Offers, res: map<string, string>)
    requires Exclusive(CardsOf(cfg, offers), res)
    ensures DearestSurvive(cfg, offers, res)
  {
    hide CardsOf, Classify, NoDearer, DupeKey, PriceText, PriceValue;
    var cards := CardsOf(cfg, offers);
    forall p | InOffers(offers, p) && Classify(cfg, DataAt(offers, p)).Eligible?
      ensures HasSurvivor(cfg, offers, res, DataAt(offers, p))
    {
      CardsInPlainTerms(cfg, offers, p);
      assert Represented(cards, res, p);
      var q :| q in cards && cards[q].key == cards[p].key && cards[q].id in res && cards[p].price <= cards[q].price;
      CardsHoldOffers(cfg, offers, q);
      CardsInPlainTerms(cfg, offers, q);
      assert InOffers(offers, q) && SameKey(cfg, DataAt(offers, p), DataAt(offers, q));
    }
    forall p, q | InOffers(offers, p) && InOffers(offers, q) && SameKey(cfg, DataAt(offers, p), DataAt(offers, q))
                  && DataAt(offers, q).bid.id in res
      ensures NoDearer(cfg, DataAt(offers, p), DataAt(offers, q))
      ensures DataAt(offers, p).bid.id in res ==> p == q
    {
      CardsInPlainTerms(cfg, offers, p);
      CardsInPlainTerms(cfg, offers, q);
      assert Represented(cards, res, p) && Survives(cards, res, q);
      var r :| r in cards && cards[r].key == cards[p].key && cards[r].id in res && cards[p].price <= cards[r].price;
      assert Survives(cards, res, r) && (cards[p].id in res ==> Survives(cards, res, p));
      CheaperIsNoDearer(cfg, DataAt(offers, p), DataAt(offers, q));
    }
  }

  lemma CardsHoldOffers(cfg: Config, offers: Offers, p: Pos)
    requires p in CardsOf(cfg, offers)
    ensures InOffers(offers, p)
  {
  }

  lemma LosersAreAccounted(cfg: Config, offers: Offers, res: map<string, string>, rejections: seq<Rejection>)
    requires Exclusive(CardsOf(cfg, offers), res)
    requires var cards := CardsOf(cfg, offers); multiset(rejections) == multiset(Losers(cards, cards.Keys, res))
    ensures Accounted(cfg, offers, res, rejections)
  {
    hide CardsOf, Classify, DupeKey, CategoryDuration, PriceText, PriceValue, Represented;
    var cards := CardsOf(cfg, offers);
    forall p | InOffers(offers, p)
      ensures var d := DataAt(offers, p);
              var o := Classify(cfg, d);
              && (d.bid.id in res ==> o.Eligible? && res[d.bid.id] == CategoryDuration(cfg, o, p.seat))
              && (d.bid.id !in res ==>
                    multiset(rejections)[Rejection(d.bid.id, if o.Rejected? then o.reason else Deduplicated)] == 1)
    {
      CardsInPlainTerms(cfg, offers, p);
      if cards[p].id in res {
        assert Survives(cards, res, p);
      } else {
        assert Verdict(cards[p]) in Losers(cards, cards.Keys, res);
      }
    }
  }

  // ---------- consequences ----------

  /** Every bid is accounted for: the rejections and the category map together are as many as the bids. */
  lemma ConservationOfBids(cards: Cards, res: map<string, string>, rejections: seq<Rejection>)
    requires UniqueAcross(cards) && Exclusive(cards, res)
    requires multiset(rejections) == multiset(Losers(cards, cards.Keys, res))
    ensures |rejections| + |res| == |cards|
    ensures forall r :: r in rejections ==> r.id !in res
  {
    hide Exclusive, UniqueAcross, Losers, Survives;
    var shown := set p | p in cards && Survives(cards, res, p);
    SurvivorIds(cards, res);
    CountIds(cards, shown);
    CountLosers(cards, res, cards.Keys - shown);
    assert |rejections| == |multiset(rejections)|;
    assert |shown| + |cards.Keys - shown| == |cards.Keys|;
    forall r | r in rejections ensures r.id !in res {
      assert r in multiset(rejections);
    }
  }

  lemma CountLosers(cards: Cards, res: map<string, string>, lost: set<Pos>)
    requires UniqueAcross(cards)
    requires lost == set p | p in cards && !Survives(cards, res, p)
    ensures |Losers(cards, cards.Keys, res)| == |lost|
    ensures forall r :: r in Losers(cards, cards.Keys, res) ==> r.id !in res
  {
    hide UniqueAcross;
    CountVerdicts(cards, lost);
    assert Losers(cards, cards.Keys, res) == set p | p in lost :: Verdict(cards[p]);
  }

  lemma SurvivorIds(cards: Cards, res: map<string, string>)
    requires Exclusive(cards, res)
    ensures var shown := set p | p in cards && Survives(cards, res, p);
            shown <= cards.Keys && res.Keys == set p | p in shown :: cards[p].id
  {
    var shown := set p | p in cards && Survives(cards, res, p);
    forall id | id in res ensures id in set p | p in shown :: cards[p].id {
      var p :| p in cards && cards[p].id == id;
      assert Survives(cards, res, p);
    }
  }

  lemma {:induction false} CountIds(cards: Cards, ps: set<Pos>)
    requires UniqueAcross(cards) && ps <= cards.Keys
    ensures |set p | p in ps :: cards[p].id| == |ps|
  {
    if ps == {} {
      assert (set p | p in ps :: cards[p].id) == {};
    } else {
      var x :| x in ps;
      CountIds(cards, ps - {x});
      assert forall p :: p in ps - {x} ==> IdOf(cards, p) != IdOf(cards, x);
      assert (set p | p in ps :: cards[p].id) == (set p | p in ps - {x} :: cards[p].id) + {cards[x].id};
    }
  }

  lemma {:induction false} CountVerdicts(cards: Cards, ps: set<Pos>)
    requires UniqueAcross(cards) && ps <= cards.Keys
    ensures |set p | p in ps :: Verdict(cards[p])| == |ps|
  {
    if ps == {} {
      assert (set p | p in ps :: Verdict(cards[p])) == {};
    } else {
      var x :| x in ps;
      CountVerdicts(cards, ps - {x});
      assert forall p :: p in ps - {x} ==> IdOf(cards, p) != IdOf(cards, x);
      assert (set p | p in ps :: Verdict(cards[p])) ==
        (set p | p in ps - {x} :: Verdict(cards[p])) + {Verdict(cards[x])};
    }
  }

  /** Neither seat order nor coins can change which keys are represented or at what price. */
  lemma PriceOfKeyIsDetermined(cards: Cards, res1: map<string, string>, res2: map<string, string>, p: Pos)
    requires Exclusive(cards, res1) && Exclusive(cards, res2)
    requires p in cards && cards[p].id in res1
    ensures exists q ::
      q in cards && cards[q].id in res2 && cards[q].key == cards[p].key && cards[q].price == cards[p].price
  {
    assert Survives(cards, res1, p);
    assert Represented(cards, res2, p);
    var q :| q in cards && cards[q].key == cards[p].key && cards[q].id in res2 && cards[p].price <= cards[q].price;
    assert Represented(cards, res1, q);
    var r :| r in cards && cards[r].key == cards[q].key && cards[r].id in res1 && cards[q].price <= cards[r].price;
    assert Survives(cards, res1, r);
  }
}
