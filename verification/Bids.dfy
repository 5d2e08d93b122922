/** Bids and seats as the exchange holds them. */
module Bids {
  import opened Lists

  datatype BidType = Banner | Video | Audio | Native | OtherType(name: string)

  /** The OpenRTB bid; nothing in the modelled code writes to it. */
  datatype Bid = Bid(
    id: string,
    impId: string,
    price: real,
    dealId: string,
    cat: seq<string>,
    w: int,
    h: int,
    exp: int,
    adm: string,
    nurl: string
  )

  datatype BidVideo = BidVideo(duration: int, primaryCategory: string)

  /** What competitive exclusion reads of a bid. */
  datatype BidData = BidData(bid: Bid, video: Option<BidVideo>)

  /** A bid in the auction. Its identity matters: winners are compared by reference. */
  class PbsBid {
    const bid: Bid
    const bidType: BidType
    const video: Option<BidVideo>
    var bidTargets: map<string, string>

    constructor (bid: Bid, bidType: BidType, video: Option<BidVideo>)
      ensures this.bid == bid && this.bidType == bidType && this.video == video
      ensures bidTargets == map[]
    {
      this.bid, this.bidType, this.video := bid, bidType, video;
      bidTargets := map[];
    }

    function Data(): BidData {
      BidData(bid, video)
    }
  }

  /** The bids of every seat, by bidder. */
  type Seats = map<string, seq<PbsBid>>

  /** Bids that carry pairwise different ids. */
  ghost predicate UniqueIds(bids: seq<PbsBid>) {
    forall i, j :: 0 <= i < j < |bids| ==> bids[i].bid.id != bids[j].bid.id
  }

  /** The bids whose id is in `ids`, in order. */
  ghost function Keep(bids: seq<PbsBid>, ids: set<string>): seq<PbsBid> {
    if bids == [] then []
    else (if bids[0].bid.id in ids then [bids[0]] else []) + Keep(bids[1..], ids)
  }

  lemma {:induction false} KeepAppend(a: seq<PbsBid>, b: seq<PbsBid>, ids: set<string>)
    ensures Keep(a + b, ids) == Keep(a, ids) + Keep(b, ids)
  {
    if a == [] {
      assert a + b == b;
    } else {
      var head := if a[0].bid.id in ids then [a[0]] else [];
      KeepAppend(a[1..], b, ids);
      TailOfAppend(a, b);
      Associative(head, Keep(a[1..], ids), Keep(b, ids));
    }
  }

  lemma {:induction false} KeepSame(bids: seq<PbsBid>, ids: set<string>, ids': set<string>)
    requires forall i :: 0 <= i < |bids| ==> (bids[i].bid.id in ids <==> bids[i].bid.id in ids')
    ensures Keep(bids, ids) == Keep(bids, ids')
  {
    if bids != [] {
      KeepSame(bids[1..], ids, ids');
    }
  }

  lemma {:induction false} KeepAll(bids: seq<PbsBid>, ids: set<string>)
    requires forall i :: 0 <= i < |bids| ==> bids[i].bid.id in ids
    ensures Keep(bids, ids) == bids
  {
    if bids != [] {
      KeepAll(bids[1..], ids);
    }
  }

  lemma {:induction false} KeepNone(bids: seq<PbsBid>, ids: set<string>)
    requires forall i :: 0 <= i < |bids| ==> bids[i].bid.id !in ids
    ensures Keep(bids, ids) == []
  {
    if bids != [] {
      KeepNone(bids[1..], ids);
    }
  }

  lemma {:induction false} KeepMembers(bids: seq<PbsBid>, ids: set<string>)
    ensures forall i :: 0 <= i < |Keep(bids, ids)| ==> Keep(bids, ids)[i] in bids && Keep(bids, ids)[i].bid.id in ids
    ensures forall i :: 0 <= i < |bids| && bids[i].bid.id in ids ==> bids[i] in Keep(bids, ids)
  {
    if bids != [] {
      KeepMembers(bids[1..], ids);
      var head := if bids[0].bid.id in ids then [bids[0]] else [];
      assert Keep(bids, ids) == head + Keep(bids[1..], ids);
      forall i | 0 <= i < |bids| && bids[i].bid.id in ids ensures bids[i] in Keep(bids, ids) {
        assert i > 0 ==> bids[1..][i - 1] in Keep(bids[1..], ids);
      }
    }
  }

  /** Position `k` splits the kept bids into those before it, itself, and those after it. */
  lemma KeepSplit(bids: seq<PbsBid>, ids: set<string>, k: nat)
    requires k < |bids| && bids[k].bid.id in ids
    ensures Keep(bids, ids) == Keep(bids[..k], ids) + [bids[k]] + Keep(bids[k + 1..], ids)
  {
    assert bids == bids[..k] + bids[k..];
    KeepAppend(bids[..k], bids[k..], ids);
    assert bids[k..][1..] == bids[k + 1..];
    assert Keep(bids[k..], ids) == [bids[k]] + Keep(bids[k + 1..], ids);
  }

  lemma KeepDrop(bids: seq<PbsBid>, ids: set<string>, k: nat)
    requires UniqueIds(bids)
    requires k < |bids| && bids[k].bid.id in ids
    ensures Keep(bids, ids - {bids[k].bid.id}) == Keep(bids[..k], ids) + Keep(bids[k + 1..], ids)
  {
    var rest := ids - {bids[k].bid.id};
    assert bids == bids[..k] + ([bids[k]] + bids[k + 1..]);
    KeepAppend(bids[..k], [bids[k]] + bids[k + 1..], rest);
    KeepAppend([bids[k]], bids[k + 1..], rest);
    KeepNone([bids[k]], rest);
    KeepSame(bids[..k], ids, rest);
    KeepSame(bids[k + 1..], ids, rest);
  }

  /** Everything but the first bid with the given id. */
  ghost function Without(bids: seq<PbsBid>, id: string): seq<PbsBid> {
    if bids == [] then []
    else if bids[0].bid.id == id then bids[1..]
    else [bids[0]] + Without(bids[1..], id)
  }

  lemma {:induction false} WithoutAt(before: seq<PbsBid>, b: PbsBid, after: seq<PbsBid>)
    requires forall i :: 0 <= i < |before| ==> before[i].bid.id != b.bid.id
    ensures Without(before + [b] + after, b.bid.id) == before + after
  {
    var all := before + [b] + after;
    if before == [] {
      assert all[1..] == after == before + after;
    } else {
      assert all[1..] == before[1..] + [b] + after && all[0] == before[0];
      WithoutAt(before[1..], b, after);
      assert [before[0]] + (before[1..] + after) == before + after;
    }
  }

  lemma {:induction false} WithoutNone(bids: seq<PbsBid>, id: string)
    requires forall i :: 0 <= i < |bids| ==> bids[i].bid.id != id
    ensures Without(bids, id) == bids
  {
    if bids != [] {
      WithoutNone(bids[1..], id);
    }
  }

  /** A seat's bids, shared by reference between the seat map and whoever prunes it. */
  class SeatBid {
    var bids: seq<PbsBid>

    constructor (bids: seq<PbsBid>)
      ensures this.bids == bids
    {
      this.bids := bids;
    }

    /** Removes the first bid with the given id, if there is one. */
    method RemoveBidById(id: string)
      modifies this
      ensures bids == Without(old(bids), id)
    {
      var index := -1;
      var i := 0;
      while i < |bids|
        invariant 0 <= i <= |bids|
        invariant index == -1
        invariant forall j :: 0 <= j < i ==> bids[j].bid.id != id
      {
        if bids[i].bid.id == id {
          index := i;
          break;
        }
        i := i + 1;
      }
      if index == -1 {
        WithoutNone(bids, id);
      } else {
        assert bids == bids[..index] + [bids[index]] + bids[index + 1..];
        WithoutAt(bids[..index], bids[index], bids[index + 1..]);
      }
      if index != -1 {
        if index < |bids| - 1 {
          bids := bids[..index] + bids[index + 1..];
        } else if index == |bids| - 1 {
          bids := bids[..|bids| - 1];
        }
      }
    }
  }
}
