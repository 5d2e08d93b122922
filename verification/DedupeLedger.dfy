/**
 * The three tables `applyCategoryMapping` keeps while it scans the bids (category map, key holders,
 * rejections), and what every step does to them.
 */
module DedupeLedger {
  import opened Lists
  import opened Bids
  import opened CategoryRules

  datatype Pos = Pos(seat: string, index: nat)

  datatype Entry = Entry(bidder: string, index: nat, id: string, price: string) {
    function At(): Pos {
      Pos(bidder, index)
    }
  }

  /** What competitive exclusion needs to know of one bid: `key` is absent on an ineligible bid. */
  datatype Card = Card(id: string, key: Option<string>, pb: string, price: real, shown: string, reason: Reason)

  function CardOf(cfg: Config, bidder: string, bid: BidData): (c: Card) {
    var o := Classify(cfg, bid);
    match o
    case Rejected(reason) => Card(bid.bid.id, None, "", 0.0, "", reason)
    case Eligible(pb, _, _) =>
      Card(bid.bid.id, Some(DupeKey(cfg, o)), pb, PriceValue(cfg, pb), CategoryDuration(cfg, o, bidder), Deduplicated)
  }

  type Cards = map<Pos, Card>

  ghost function IdOf(cards: Cards, p: Pos): string
    requires p in cards
  {
    cards[p].id
  }

  /** Bid ids are unique across the whole auction. */
  ghost predicate UniqueAcross(cards: Cards) {
    forall p, q {:trigger IdOf(cards, p), IdOf(cards, q)} ::
      p in cards && q in cards && IdOf(cards, p) == IdOf(cards, q) ==> p == q
  }

  ghost function Verdict(c: Card): Rejection {
    Rejection(c.id, c.reason)
  }

  /** The rejections of the seen bids that do not survive. */
  ghost function Losers(cards: Cards, seen: set<Pos>, res: map<string, string>): set<Rejection>
    requires seen <= cards.Keys
  {
    set p | p in seen && cards[p].id !in res :: Verdict(cards[p])
  }

  ghost predicate EntryFor(cards: Cards, p: Pos, key: string, e: Entry) {
    && p in cards
    && cards[p].key == Some(key)
    && e == Entry(p.seat, p.index, cards[p].id, cards[p].pb)
  }

  /** Every stored key belongs to a seen bid that is shown under its own label. */
  ghost predicate KeysHeld(cards: Cards, seen: set<Pos>, res: map<string, string>, dedupe: map<string, Entry>) {
    forall key :: key in dedupe ==>
      var p := dedupe[key].At();
      && p in seen && EntryFor(cards, p, key, dedupe[key])
      && cards[p].id in res && res[cards[p].id] == cards[p].shown
  }

  /** No seen bid is dearer than the one that holds its key. */
  ghost predicate KeysBest(cards: Cards, seen: set<Pos>, dedupe: map<string, Entry>)
    requires seen <= cards.Keys
  {
    forall p :: p in seen && cards[p].key.Some? ==>
      && cards[p].key.value in dedupe
      && dedupe[cards[p].key.value].At() in cards
      && cards[p].price <= cards[dedupe[cards[p].key.value].At()].price
  }

  /** A bid is shown only while it holds its key. */
  ghost predicate ShownHold(cards: Cards, seen: set<Pos>, res: map<string, string>, dedupe: map<string, Entry>)
    requires seen <= cards.Keys
  {
    && (forall p :: p in seen && cards[p].id in res ==>
          && cards[p].key.Some? && cards[p].key.value in dedupe
          && EntryFor(cards, p, cards[p].key.value, dedupe[cards[p].key.value]))
    && (forall id :: id in res ==> exists p :: p in seen && cards[p].id == id)
  }

  /** The three tables describe exactly the bids seen so far. */
  ghost predicate Ledger(cards: Cards, seen: set<Pos>,
                         res: map<string, string>, dedupe: map<string, Entry>, rejections: seq<Rejection>)
  {
    && seen <= cards.Keys
    && KeysHeld(cards, seen, res, dedupe)
    && KeysBest(cards, seen, dedupe)
    && ShownHold(cards, seen, res, dedupe)
    && multiset(rejections) == multiset(Losers(cards, seen, res))
  }

  lemma RejectionAdded(rejections: seq<Rejection>, before: set<Rejection>, r: Rejection)
    requires multiset(rejections) == multiset(before) && r !in before
    ensures multiset(rejections + [r]) == multiset(before + {r})
  {
  }

  /** A bid not scanned yet is not shown yet. */
  lemma NotShownYet(cards: Cards, seen: set<Pos>, p: Pos, res: map<string, string>, dedupe: map<string, Entry>)
    requires UniqueAcross(cards) && seen <= cards.Keys && ShownHold(cards, seen, res, dedupe)
    requires p in cards && p !in seen
    ensures cards[p].id !in res
  {
    forall x | x in seen ensures cards[x].id != cards[p].id {
      assert IdOf(cards, x) != IdOf(cards, p);
    }
  }

  lemma RejectLosers(cards: Cards, seen: set<Pos>, p: Pos, res: map<string, string>)
    requires UniqueAcross(cards) && seen <= cards.Keys && p in cards && p !in seen
    requires cards[p].id !in res
    ensures Verdict(cards[p]) !in Losers(cards, seen, res)
    ensures Losers(cards, seen + {p}, res) == Losers(cards, seen, res) + {Verdict(cards[p])}
  {
    var before, after := Losers(cards, seen, res), Losers(cards, seen + {p}, res);
    forall x | x in seen ensures cards[x].id != cards[p].id {
      assert IdOf(cards, x) != IdOf(cards, p);
    }
    forall r | r in after ensures r in before + {Verdict(cards[p])} {
      var x :| x in seen + {p} && cards[x].id !in res && r == Verdict(cards[x]);
      assert x in seen || x == p;
    }
  }

  /** Rejecting the bid at `p`, for its own reason or because a stored bid is at least as dear. */
  lemma LedgerReject(cards: Cards, seen: set<Pos>, p: Pos,
                     res: map<string, string>, dedupe: map<string, Entry>, rejections: seq<Rejection>)
    requires UniqueAcross(cards) && Ledger(cards, seen, res, dedupe, rejections)
    requires p in cards && p !in seen
    requires cards[p].key.Some? ==>
      && cards[p].key.value in dedupe
      && cards[p].price <= cards[dedupe[cards[p].key.value].At()].price
    ensures Ledger(cards, seen + {p}, res, dedupe, rejections + [Verdict(cards[p])])
  {
    NotShownYet(cards, seen, p, res, dedupe);
    RejectLosers(cards, seen, p, res);
    RejectionAdded(rejections, Losers(cards, seen, res), Verdict(cards[p]));
  }

  ghost function EntryOf(cards: Cards, p: Pos): Entry
    requires p in cards
  {
    Entry(p.seat, p.index, cards[p].id, cards[p].pb)
  }

  /** Who gives way when the bid at `p` takes its key. */
  ghost function Displaced(cards: Cards, p: Pos, dedupe: map<string, Entry>): set<string>
    requires p in cards && cards[p].key.Some?
  {
    if cards[p].key.value in dedupe then {dedupe[cards[p].key.value].id} else {}
  }

  /** The bid at `p` may take its key: nobody holds it, or a bid that is at most as dear. */
  ghost predicate MayTake(cards: Cards, seen: set<Pos>, p: Pos,
                          res: map<string, string>, dedupe: map<string, Entry>, rejections: seq<Rejection>)
  {
    && UniqueAcross(cards) && Ledger(cards, seen, res, dedupe, rejections)
    && p in cards && p !in seen && cards[p].key.Some?
    && (cards[p].key.value in dedupe ==> cards[dedupe[cards[p].key.value].At()].price <= cards[p].price)
  }

  ghost function ResAfter(cards: Cards, p: Pos, res: map<string, string>,
                          dedupe: map<string, Entry>): map<string, string>
    requires p in cards && cards[p].key.Some?
  {
    (res - Displaced(cards, p, dedupe))[cards[p].id := cards[p].shown]
  }

  lemma TakeHeld(cards: Cards, seen: set<Pos>, p: Pos,
                 res: map<string, string>, dedupe: map<string, Entry>, rejections: seq<Rejection>)
    requires MayTake(cards, seen, p, res, dedupe, rejections)
    ensures KeysHeld(cards, seen + {p}, ResAfter(cards, p, res, dedupe),
      dedupe[cards[p].key.value := EntryOf(cards, p)])
  {
    var dedupe' := dedupe[cards[p].key.value := EntryOf(cards, p)];
    NotShownYet(cards, seen, p, res, dedupe);
    forall key | key in dedupe' && key != cards[p].key.value
      ensures dedupe[key].id !in Displaced(cards, p, dedupe)
    {
      if cards[p].key.value in dedupe {
        var holder := dedupe[cards[p].key.value].At();
        assert EntryFor(cards, holder, cards[p].key.value, dedupe[cards[p].key.value]);
        assert EntryFor(cards, dedupe[key].At(), key, dedupe[key]);
        assert IdOf(cards, holder) != IdOf(cards, dedupe[key].At());
      }
    }
  }

  lemma TakeBest(cards: Cards, seen: set<Pos>, p: Pos,
                 res: map<string, string>, dedupe: map<string, Entry>, rejections: seq<Rejection>)
    requires MayTake(cards, seen, p, res, dedupe, rejections)
    ensures KeysBest(cards, seen + {p}, dedupe[cards[p].key.value := EntryOf(cards, p)])
  {
  }

  lemma TakeShown(cards: Cards, seen: set<Pos>, p: Pos,
                  res: map<string, string>, dedupe: map<string, Entry>, rejections: seq<Rejection>)
    requires MayTake(cards, seen, p, res, dedupe, rejections)
    ensures ShownHold(cards, seen + {p}, ResAfter(cards, p, res, dedupe),
      dedupe[cards[p].key.value := EntryOf(cards, p)])
  {
    var res' := ResAfter(cards, p, res, dedupe);
    var dedupe' := dedupe[cards[p].key.value := EntryOf(cards, p)];
    assert forall id :: id in res' ==> id == cards[p].id || id in res;
    forall q | q in seen && cards[q].id in res'
      ensures cards[q].key.Some? && cards[q].key.value in dedupe'
      ensures EntryFor(cards, q, cards[q].key.value, dedupe'[cards[q].key.value])
    {
      assert IdOf(cards, q) != IdOf(cards, p);
      assert cards[q].id in res && cards[q].id !in Displaced(cards, p, dedupe);
      assert EntryFor(cards, q, cards[q].key.value, dedupe[cards[q].key.value]);
    }
  }

  /** Nothing changes for the losers except that a displaced bid joins them. */
  lemma TakeLosers(cards: Cards, seen: set<Pos>, p: Pos,
                   res: map<string, string>, dedupe: map<string, Entry>, rejections: seq<Rejection>)
    requires MayTake(cards, seen, p, res, dedupe, rejections)
    ensures var before := Losers(cards, seen, res);
            var after := Losers(cards, seen + {p}, ResAfter(cards, p, res, dedupe));
            if cards[p].key.value in dedupe then
              var q := dedupe[cards[p].key.value].At();
              after == before + {Verdict(cards[q])} && Verdict(cards[q]) !in before
            else after == before
  {
    var res' := ResAfter(cards, p, res, dedupe);
    var before, after := Losers(cards, seen, res), Losers(cards, seen + {p}, res');
    NotShownYet(cards, seen, p, res, dedupe);
    forall x | x in seen
      ensures cards[x].id != cards[p].id
      ensures cards[x].id in Displaced(cards, p, dedupe) ==> x == dedupe[cards[p].key.value].At()
    {
      assert IdOf(cards, x) != IdOf(cards, p);
      if cards[p].key.value in dedupe {
        var q := dedupe[cards[p].key.value].At();
        assert IdOf(cards, x) == IdOf(cards, q) ==> x == q;
      }
    }
    forall r | r in after ensures exists x :: x in seen && cards[x].id !in res' && r == Verdict(cards[x]) {
      var x :| x in seen + {p} && cards[x].id !in res' && r == Verdict(cards[x]);
      assert x in seen;
    }
    if cards[p].key.value in dedupe {
      assert Verdict(cards[dedupe[cards[p].key.value].At()]) in after;
    }
  }

  /** Filing the bid at `p` under its key keeps the ledger, displacing the previous holder. */
  lemma LedgerTake(cards: Cards, seen: set<Pos>, p: Pos,
                   res: map<string, string>, dedupe: map<string, Entry>, rejections: seq<Rejection>)
    requires MayTake(cards, seen, p, res, dedupe, rejections)
    requires cards[p].key.value in dedupe ==> cards[dedupe[cards[p].key.value].At()].reason == Deduplicated
    ensures var key := cards[p].key.value;
            Ledger(cards, seen + {p}, ResAfter(cards, p, res, dedupe), dedupe[key := EntryOf(cards, p)],
                   if key in dedupe then rejections + [Rejection(dedupe[key].id, Deduplicated)] else rejections)
  {
    hide KeysBest, ShownHold, Losers, UniqueAcross;
    TakeHeld(cards, seen, p, res, dedupe, rejections);
    TakeBest(cards, seen, p, res, dedupe, rejections);
    TakeShown(cards, seen, p, res, dedupe, rejections);
    TakeLosers(cards, seen, p, res, dedupe, rejections);
    if cards[p].key.value in dedupe {
      RejectionAdded(rejections, Losers(cards, seen, res), Verdict(cards[dedupe[cards[p].key.value].At()]));
    }
  }
}
