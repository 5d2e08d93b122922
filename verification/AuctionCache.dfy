/**
 * `doCache`: sends the payloads of the chosen bids to Prebid Cache in one list, and matches the
 * returned ids back to bids by position.
 */
module AuctionCache {
  import opened Lists
  import opened Bids
  import opened Auction

  datatype CacheType = JsonType | XmlType | LogType

  datatype Cacheable = Cacheable(cacheType: CacheType, data: string, ttlSeconds: int, key: string)

  datatype DefaultTtls = DefaultTtls(banner: int, video: int, native: int, audio: int)

  /** Everything `doCache` is told, besides the auction itself. `hbCacheId` is absent if no uuid could be made. */
  datatype Instructions = Instructions(
    bids: bool,
    vast: bool,
    includeBidderKeys: bool,
    includeWinners: bool,
    bidCategory: map<string, string>,
    hbCacheId: Option<string>,
    expByImp: map<string, int>,
    defaults: DefaultTtls,
    ttlBuffer: int,
    debugLog: Option<Cacheable>,
    bidJson: (Bid, string) -> Option<string>,
    vastJson: string -> Option<string>
  )

  // ---------- time to live ----------

  function AddBuffer(base: int, buffer: int): int {
    if base <= 0 then 0 else base + buffer
  }

  /** The shorter of the two requested lifetimes; the default only if neither is positive. */
  function CacheTtl(impTtl: int, bidTtl: int, defTtl: int, buffer: int): (ttl: int)
    ensures impTtl > 0 && bidTtl > 0 ==>
      ttl in {impTtl + buffer, bidTtl + buffer} && ttl <= impTtl + buffer && ttl <= bidTtl + buffer
    ensures impTtl > 0 && bidTtl <= 0 ==> ttl == impTtl + buffer
    ensures impTtl <= 0 && bidTtl > 0 ==> ttl == bidTtl + buffer
    ensures impTtl <= 0 && bidTtl <= 0 && defTtl > 0 ==> ttl == defTtl + buffer
    ensures impTtl <= 0 && bidTtl <= 0 && defTtl <= 0 ==> ttl == 0
  {
    if impTtl <= 0 && bidTtl <= 0 then AddBuffer(defTtl, buffer)
    else if impTtl <= 0 then AddBuffer(bidTtl, buffer)
    else if bidTtl <= 0 then AddBuffer(impTtl, buffer)
    else if impTtl < bidTtl then AddBuffer(impTtl, buffer)
    else AddBuffer(bidTtl, buffer)
  }

  function DefTtl(bidType: BidType, defaults: DefaultTtls): int {
    match bidType
    case Banner => defaults.banner
    case Video => defaults.video
    case Native => defaults.native
    case Audio => defaults.audio
    case OtherType(_) => 0
  }

  function TtlOf(ins: Instructions, b: PbsBid): int {
    CacheTtl(if b.bid.impId in ins.expByImp then ins.expByImp[b.bid.impId] else 0, b.bid.exp,
             DefTtl(b.bidType, ins.defaults), ins.ttlBuffer)
  }

  // ---------- payloads ----------

  function MakeVast(bid: Bid): string {
    if bid.adm == "" then
      "<VAST version=\"3.0\"><Ad><Wrapper>" +
      "<AdSystem>prebid.org wrapper</AdSystem>" +
      "<VASTAdTagURI><![CDATA[" + bid.nurl + "]]></VASTAdTagURI>" +
      "<Impression></Impression><Creatives></Creatives>" +
      "</Wrapper></Ad></VAST>"
    else bid.adm
  }

  predicate CompetitiveExclusion(ins: Instructions) {
    |ins.bidCategory| > 0 && ins.hbCacheId.Some?
  }

  /** The shared part of the custom keys; empty when there is none. */
  function HbCacheId(ins: Instructions): string {
    if CompetitiveExclusion(ins) then ins.hbCacheId.value else ""
  }

  predicate OverallWinner(winning: Winners, b: PbsBid) {
    b.bid.impId in winning && winning[b.bid.impId] == b
  }

  /** The cache key asked for; empty to let the cache choose. */
  function CustomKey(ins: Instructions, winning: Winners, b: PbsBid): string {
    if (CompetitiveExclusion(ins) && OverallWinner(winning, b)) || ins.includeBidderKeys then
      if b.bid.id in ins.bidCategory && ins.bidCategory[b.bid.id] != ""
      then ins.bidCategory[b.bid.id] + "_" + HbCacheId(ins) else ""
    else ""
  }

  /** What a position of the list sent to the cache is for. */
  datatype Slot = BidSlot(bidder: string, bid: PbsBid) | VastSlot(bidder: string, bid: PbsBid) | LogSlot

  ghost predicate Wanted(ins: Instructions, winning: Winners, byBidder: WinnersByBidder, older slot: Slot) {
    match slot
    case BidSlot(s, b) =>
      && EntryFor(byBidder, b.bid.impId, s) == Some(b)
      && (ins.includeBidderKeys || OverallWinner(winning, b))
      && ins.bids && ins.bidJson(b.bid, s).Some?
    case VastSlot(s, b) =>
      && EntryFor(byBidder, b.bid.impId, s) == Some(b)
      && (ins.includeBidderKeys || OverallWinner(winning, b))
      && ins.vast && b.bidType == Video && ins.vastJson(MakeVast(b.bid)).Some?
    case LogSlot => false
  }

  ghost predicate PayloadFor(ins: Instructions, winning: Winners, slot: Slot, c: Cacheable) {
    match slot
    case BidSlot(s, b) => Some(c.data) == ins.bidJson(b.bid, s) && c == Cacheable(JsonType, c.data, TtlOf(ins, b), "")
    case VastSlot(_, b) =>
      && Some(c.data) == ins.vastJson(MakeVast(b.bid))
      && c == Cacheable(XmlType, c.data, TtlOf(ins, b), CustomKey(ins, winning, b))
    case LogSlot => ins.debugLog == Some(c)
  }

  /** The list under construction, with the two index tables and what every position is for. */
  datatype Work = Work(toCache: seq<Cacheable>, bidIndices: map<int, PbsBid>, vastIndices: map<int, PbsBid>)

  /** The index tables partition the positions as the slots say, and every payload is its slot's. */
  ghost predicate Consistent(ins: Instructions, winning: Winners, w: Work, slots: seq<Slot>) {
    && |slots| == |w.toCache|
    && Distinct(slots)
    && (forall i :: 0 <= i < |slots| ==> PayloadFor(ins, winning, slots[i], w.toCache[i]))
    && (forall i :: i in w.bidIndices <==> 0 <= i < |slots| && slots[i].BidSlot?)
    && (forall i :: i in w.vastIndices <==> 0 <= i < |slots| && slots[i].VastSlot?)
    && (forall i :: i in w.bidIndices ==> w.bidIndices[i] == slots[i].bid)
    && (forall i :: i in w.vastIndices ==> w.vastIndices[i] == slots[i].bid)
  }

  ghost function Extend(w: Work, slot: Slot, c: Cacheable): Work {
    Work(w.toCache + [c],
         if slot.BidSlot? then w.bidIndices[|w.toCache| := slot.bid] else w.bidIndices,
         if slot.VastSlot? then w.vastIndices[|w.toCache| := slot.bid] else w.vastIndices)
  }

  lemma ConsistentStep(ins: Instructions, winning: Winners, w: Work, slots: seq<Slot>, slot: Slot, c: Cacheable)
    requires Consistent(ins, winning, w, slots)
    requires slot !in slots && PayloadFor(ins, winning, slot, c)
    ensures Consistent(ins, winning, Extend(w, slot, c), slots + [slot])
  {
    hide PayloadFor;
  }

  ghost function SlotsFor(ins: Instructions, bidder: string, b: PbsBid): seq<Slot> {
    (if ins.bids && ins.bidJson(b.bid, bidder).Some? then [BidSlot(bidder, b)] else [])
    + (if ins.vast && b.bidType == Video && ins.vastJson(MakeVast(b.bid)).Some? then [VastSlot(bidder, b)] else [])
  }

  /** The payloads of one bidder's best bid on one imp. */
  method AddPayloads(ins: Instructions, winning: Winners, bidder: string, b: PbsBid, w: Work, ghost slots: seq<Slot>)
    returns (w': Work, ghost slots': seq<Slot>)
    requires Consistent(ins, winning, w, slots)
    requires BidSlot(bidder, b) !in slots && VastSlot(bidder, b) !in slots
    ensures Consistent(ins, winning, w', slots')
    ensures slots' == slots + SlotsFor(ins, bidder, b)
  {
    hide Consistent, TtlOf, CustomKey, MakeVast;
    w', slots' := w, slots;
    if ins.bids {
      var json := ins.bidJson(b.bid, bidder);
      if json.Some? {
        var payload := Cacheable(JsonType, json.value, TtlOf(ins, b), "");
        ConsistentStep(ins, winning, w', slots', BidSlot(bidder, b), payload);
        var toCache := w'.toCache + [payload];
        w' := Work(toCache, w'.bidIndices[|toCache| - 1 := b], w'.vastIndices);
        slots' := slots' + [BidSlot(bidder, b)];
      }
    }
    if ins.vast && b.bidType == Video {
      var json := ins.vastJson(MakeVast(b.bid));
      if json.Some? {
        var payload := Cacheable(XmlType, json.value, TtlOf(ins, b), CustomKey(ins, winning, b));
        ConsistentStep(ins, winning, w', slots', VastSlot(bidder, b), payload);
        var toCache := w'.toCache + [payload];
        w' := Work(toCache, w'.bidIndices, w'.vastIndices[|toCache| - 1 := b]);
        slots' := slots' + [VastSlot(bidder, b)];
      }
    }
  }

  /** The entries not visited yet: all bidders of the imps in `imps`, but of `current` only those in `bidders`. */
  ghost predicate Visited(slot: Slot, imps: set<string>, current: Option<string>, bidders: set<string>) {
    && !slot.LogSlot?
    && (slot.bid.bid.impId !in imps || (current == Some(slot.bid.bid.impId) && slot.bidder !in bidders))
  }

  /** The slots of the entries visited so far are exactly the wanted ones. */
  ghost predicate Covers(ins: Instructions, winning: Winners, byBidder: WinnersByBidder, slots: seq<Slot>,
                         imps: set<string>, current: Option<string>, bidders: set<string>)
  {
    && (forall slot :: slot in slots ==>
          Wanted(ins, winning, byBidder, slot) && Visited(slot, imps, current, bidders))
    && (forall slot :: Wanted(ins, winning, byBidder, slot) && Visited(slot, imps, current, bidders) ==> slot in slots)
  }

  ghost predicate OnOwnImp(byBidder: WinnersByBidder) {
    forall imp, s {:trigger EntryFor(byBidder, imp, s)} ::
      EntryFor(byBidder, imp, s).Some? ==> EntryFor(byBidder, imp, s).value.bid.impId == imp
  }

  lemma CoversStep(ins: Instructions, winning: Winners, byBidder: WinnersByBidder, slots: seq<Slot>,
                   imps: set<string>, imp: string, bidders: set<string>, s: string)
    requires OnOwnImp(byBidder) && imp in imps && s in bidders && EntryFor(byBidder, imp, s).Some?
    requires Covers(ins, winning, byBidder, slots, imps, Some(imp), bidders)
    ensures var b := EntryFor(byBidder, imp, s).value;
            && BidSlot(s, b) !in slots && VastSlot(s, b) !in slots
            && Covers(ins, winning, byBidder,
                      slots + if ins.includeBidderKeys || OverallWinner(winning, b) then SlotsFor(ins, s, b) else [],
                      imps, Some(imp), bidders - {s})
  {
    hide MakeVast;
    var b := EntryFor(byBidder, imp, s).value;
    var slots' := slots + if ins.includeBidderKeys || OverallWinner(winning, b) then SlotsFor(ins, s, b) else [];
    forall slot | Wanted(ins, winning, byBidder, slot) && Visited(slot, imps, Some(imp), bidders - {s})
      ensures slot in slots'
    {
      if !Visited(slot, imps, Some(imp), bidders) {
        assert slot.bidder == s && slot.bid == b;
        assert slot in SlotsFor(ins, s, b);
      }
    }
  }

  /** Taking up an imp, or leaving it with no bidder to go, visits nothing. */
  lemma CoversTurn(ins: Instructions, winning: Winners, byBidder: WinnersByBidder, slots: seq<Slot>,
                   imps: set<string>, imp: string)
    requires imp in imps && imp in byBidder
    ensures Covers(ins, winning, byBidder, slots, imps, None, {}) ==>
            Covers(ins, winning, byBidder, slots, imps, Some(imp), byBidder[imp].Keys)
    ensures Covers(ins, winning, byBidder, slots, imps, Some(imp), {}) ==>
            Covers(ins, winning, byBidder, slots, imps - {imp}, None, {})
  {
    hide MakeVast;
  }

  lemma CoversEnds(ins: Instructions, winning: Winners, byBidder: WinnersByBidder, slots: seq<Slot>)
    ensures Covers(ins, winning, byBidder, [], byBidder.Keys, None, {})
    ensures Covers(ins, winning, byBidder, slots, {}, None, {}) ==>
      && (forall i :: 0 <= i < |slots| ==> Wanted(ins, winning, byBidder, slots[i]))
      && (forall slot :: Wanted(ins, winning, byBidder, slot) ==> slot in slots)
  {
    hide MakeVast;
  }

  /** Lists the payloads of every wanted bid, each once, in whatever order the maps are visited. */
  method BuildPayloads(ins: Instructions, winning: Winners, byBidder: WinnersByBidder)
    returns (w: Work, ghost slots: seq<Slot>)
    requires OnOwnImp(byBidder)
    ensures Consistent(ins, winning, w, slots)
    ensures forall i :: 0 <= i < |slots| ==> Wanted(ins, winning, byBidder, slots[i])
    ensures forall slot :: Wanted(ins, winning, byBidder, slot) ==> slot in slots
  {
    hide SlotsFor, Covers, Wanted, OnOwnImp, PayloadFor;
    w, slots := Work([], map[], map[]), [];
    var imps := byBidder.Keys;
    CoversEnds(ins, winning, byBidder, slots);
    while imps != {}
      invariant imps <= byBidder.Keys
      invariant Consistent(ins, winning, w, slots)
      invariant Covers(ins, winning, byBidder, slots, imps, None, {})
      decreases |imps|
    {
      var imp :| imp in imps;
      var bidders := byBidder[imp].Keys;
      CoversTurn(ins, winning, byBidder, slots, imps, imp);
      while bidders != {}
        invariant bidders <= byBidder[imp].Keys
        invariant Consistent(ins, winning, w, slots)
        invariant Covers(ins, winning, byBidder, slots, imps, Some(imp), bidders)
        decreases |bidders|
      {
        var bidder :| bidder in bidders;
        var top := byBidder[imp][bidder];
        CoversStep(ins, winning, byBidder, slots, imps, imp, bidders, bidder);
        if ins.includeBidderKeys || OverallWinner(winning, top) {
          w, slots := AddPayloads(ins, winning, bidder, top, w, slots);
        } else {
          assert slots + [] == slots;
        }
        bidders := bidders - {bidder};
      }
      CoversTurn(ins, winning, byBidder, slots, imps, imp);
      imps := imps - {imp};
    }
    CoversEnds(ins, winning, byBidder, slots);
  }

  /** The whole list, with the debug log last if there is one and anything to send. */
  method BuildList(ins: Instructions, winning: Winners, byBidder: WinnersByBidder)
    returns (w: Work, ghost slots: seq<Slot>)
    requires OnOwnImp(byBidder)
    ensures Consistent(ins, winning, w, slots)
    ensures forall i :: 0 <= i < |slots| && !slots[i].LogSlot? ==> Wanted(ins, winning, byBidder, slots[i])
    ensures forall slot :: Wanted(ins, winning, byBidder, slot) ==> slot in slots
    ensures forall i :: 0 <= i < |slots| && slots[i].LogSlot? ==> i == |slots| - 1 > 0
    ensures slots != [] && ins.debugLog.Some? ==> slots[|slots| - 1].LogSlot?
  {
    hide TtlOf, CustomKey, MakeVast, OnOwnImp;
    w, slots := BuildPayloads(ins, winning, byBidder);
    assert LogSlot !in slots;
    if |w.toCache| > 0 && ins.debugLog.Some? {
      ConsistentStep(ins, winning, w, slots, LogSlot, ins.debugLog.value);
      w := Work(w.toCache + [ins.debugLog.value], w.bidIndices, w.vastIndices);
      slots := slots + [LogSlot];
    }
  }

  // ---------- matching ids back ----------

  function HasSuffix(s: string, suffix: string): bool {
    |suffix| <= |s| && s[|s| - |suffix|..] == suffix
  }

  /** The id a video bid is given for the id the cache returned: without the category prefix, if it has one. */
  function VastId(ins: Instructions, id: string): string {
    if CompetitiveExclusion(ins) && HasSuffix(id, HbCacheId(ins)) then HbCacheId(ins) else id
  }

  /** Under competitive exclusion a cache that honours the custom key gives every such bid the one shared id. */
  lemma CustomKeyIsStripped(ins: Instructions, winning: Winners, b: PbsBid)
    requires CompetitiveExclusion(ins) && CustomKey(ins, winning, b) != ""
    ensures VastId(ins, CustomKey(ins, winning, b)) == HbCacheId(ins)
  {
    var key, suffix := CustomKey(ins, winning, b), HbCacheId(ins);
    assert key == ins.bidCategory[b.bid.id] + "_" + suffix;
    assert key[|key| - |suffix|..] == suffix;
  }

  /** `ids` gives every listed bid, and no other, the id at its own position, unless that is empty. */
  ghost predicate Attributed(slots: seq<Slot>, returned: seq<string>, vast: bool, rename: string -> string,
                             ids: map<PbsBid, string>)
    requires |slots| == |returned|
  {
    && (forall i :: 0 <= i < |slots| && IsSlot(slots[i], vast) && returned[i] != "" ==>
          slots[i].bid in ids && ids[slots[i].bid] == rename(returned[i]))
    && (forall b :: b in ids ==>
          exists i :: 0 <= i < |slots| && IsSlot(slots[i], vast) && slots[i].bid == b && returned[i] != "")
  }

  ghost predicate IsSlot(slot: Slot, vast: bool) {
    if vast then slot.VastSlot? else slot.BidSlot?
  }

  /** No two positions of the same kind are for the same bid. */
  ghost predicate OneSlotEach(slots: seq<Slot>, vast: bool) {
    forall i, j :: 0 <= i < j < |slots| && IsSlot(slots[i], vast) && IsSlot(slots[j], vast) ==>
      slots[i].bid != slots[j].bid
  }

  lemma OneSlotPerBid(ins: Instructions, winning: Winners, byBidder: WinnersByBidder, slots: seq<Slot>, vast: bool)
    requires DistinctTops(byBidder) && Distinct(slots)
    requires forall i :: 0 <= i < |slots| && !slots[i].LogSlot? ==> Wanted(ins, winning, byBidder, slots[i])
    ensures OneSlotEach(slots, vast)
  {
    hide MakeVast;
    forall i, j | 0 <= i < j < |slots| && IsSlot(slots[i], vast) && IsSlot(slots[j], vast)
      ensures slots[i].bid != slots[j].bid
    {
      assert slots[i] in slots && slots[j] in slots;
      assert EntryFor(byBidder, slots[i].bid.bid.impId, slots[i].bidder) == Some(slots[i].bid);
      assert EntryFor(byBidder, slots[j].bid.bid.impId, slots[j].bidder) == Some(slots[j].bid);
    }
  }

  method AssignIds(indices: map<int, PbsBid>, returned: seq<string>, ghost slots: seq<Slot>, ghost vast: bool,
                   rename: string -> string)
    returns (ids: map<PbsBid, string>)
    requires |slots| == |returned| && OneSlotEach(slots, vast)
    requires forall i :: i in indices ==> 0 <= i < |slots| && IsSlot(slots[i], vast) && indices[i] == slots[i].bid
    requires forall i :: 0 <= i < |slots| && IsSlot(slots[i], vast) ==> i in indices
    ensures Attributed(slots, returned, vast, rename, ids)
  {
    ids := map[];
    var left := indices.Keys;
    while left != {}
      invariant left <= indices.Keys
      invariant forall i :: i in indices && i !in left && returned[i] != "" ==>
        indices[i] in ids && ids[indices[i]] == rename(returned[i])
      invariant forall b :: b in ids ==> exists i :: i in indices && i !in left && indices[i] == b && returned[i] != ""
      decreases |left|
    {
      ghost var _ := Pick(left);
      var i :| i in left;
      if returned[i] != "" {
        ids := ids[indices[i] := rename(returned[i])];
      }
      left := left - {i};
    }
  }

  // ---------- in plain terms ----------

  /** How long a payload is to live, in terms of the request, the bid and the configuration. */
  ghost predicate LivesFor(ins: Instructions, b: PbsBid, ttl: int) {
    var asked := if b.bid.impId in ins.expByImp then ins.expByImp[b.bid.impId] else 0;
    if asked > 0 && b.bid.exp > 0 then ttl == ins.ttlBuffer + if asked < b.bid.exp then asked else b.bid.exp
    else if asked > 0 || b.bid.exp > 0 then ttl == ins.ttlBuffer + if asked > 0 then asked else b.bid.exp
    else
      && (b.bidType.Banner? ==> ttl == if ins.defaults.banner > 0 then ins.defaults.banner + ins.ttlBuffer else 0)
      && (b.bidType.Video? ==> ttl == if ins.defaults.video > 0 then ins.defaults.video + ins.ttlBuffer else 0)
      && (b.bidType.Native? ==> ttl == if ins.defaults.native > 0 then ins.defaults.native + ins.ttlBuffer else 0)
      && (b.bidType.Audio? ==> ttl == if ins.defaults.audio > 0 then ins.defaults.audio + ins.ttlBuffer else 0)
      && (b.bidType.OtherType? ==> ttl == 0)
  }

  /** The payload of a bid: its JSON, or its VAST under a custom key where there is one. */
  lemma PayloadInPlainTerms(ins: Instructions, winning: Winners, slot: Slot, c: Cacheable)
    requires PayloadFor(ins, winning, slot, c) && !slot.LogSlot?
    ensures LivesFor(ins, slot.bid, c.ttlSeconds)
    ensures slot.BidSlot? ==>
      c.cacheType == JsonType && c.key == "" && ins.bidJson(slot.bid.bid, slot.bidder) == Some(c.data)
    ensures slot.VastSlot? ==> c.cacheType == XmlType
    ensures slot.VastSlot? && slot.bid.bid.adm != "" ==> ins.vastJson(slot.bid.bid.adm) == Some(c.data)
    ensures slot.VastSlot? && slot.bid.bid.adm == "" ==> exists before, after ::
      ins.vastJson(before + slot.bid.bid.nurl + after) == Some(c.data)
    ensures slot.VastSlot? ==>
      var id, exclusive := slot.bid.bid.id, |ins.bidCategory| > 0 && ins.hbCacheId.Some?;
      var wins := slot.bid.bid.impId in winning && winning[slot.bid.bid.impId] == slot.bid;
      && (id !in ins.bidCategory || ins.bidCategory[id] == "" || !(ins.includeBidderKeys || (exclusive && wins)) ==>
            c.key == "")
      && (id in ins.bidCategory && ins.bidCategory[id] != "" && exclusive && (ins.includeBidderKeys || wins) ==>
            c.key == ins.bidCategory[id] + "_" + ins.hbCacheId.value)
      && (id in ins.bidCategory && ins.bidCategory[id] != "" && !exclusive && ins.includeBidderKeys ==>
            c.key == ins.bidCategory[id] + "_")
  {
    hide MakeVast;
    if slot.VastSlot? && slot.bid.bid.adm == "" {
      WrapperShape(slot.bid.bid);
    }
    OwnVast(slot.bid.bid);
  }

  /** The payloads a bidder's best bid on an imp gets into the list. */
  ghost predicate InList(ins: Instructions, winning: Winners, imp: string, s: string, b: PbsBid, slots: seq<Slot>) {
    ins.includeBidderKeys || (imp in winning && winning[imp] == b) ==>
      && (ins.bids && ins.bidJson(b.bid, s).Some? ==> BidSlot(s, b) in slots)
      && (ins.vast && b.bidType == Video && ins.vastJson(MakeVast(b.bid)).Some? ==> VastSlot(s, b) in slots)
  }

  /** Whose payload a position may hold. */
  ghost predicate Chosen(ins: Instructions, winning: Winners, byBidder: WinnersByBidder, slot: Slot)
    requires !slot.LogSlot?
  {
    var imp := slot.bid.bid.impId;
    && imp in byBidder && slot.bidder in byBidder[imp] && byBidder[imp][slot.bidder] == slot.bid
    && (ins.includeBidderKeys || (imp in winning && winning[imp] == slot.bid))
    && (slot.BidSlot? ==> ins.bids)
    && (slot.VastSlot? ==> ins.vast && slot.bid.bidType.Video?)
  }

  /** Exactly the bids that are asked for are in the list. */
  ghost predicate RightBids(ins: Instructions, winning: Winners, byBidder: WinnersByBidder, slots: seq<Slot>) {
    && (forall imp, s :: imp in byBidder && s in byBidder[imp] ==>
          InList(ins, winning, imp, s, byBidder[imp][s], slots))
    && (forall i :: 0 <= i < |slots| && !slots[i].LogSlot? ==> Chosen(ins, winning, byBidder, slots[i]))
  }

  /** Each bid has the id returned at the position of its JSON payload. */
  ghost predicate RightIds(slots: seq<Slot>, returned: seq<string>, ids: map<PbsBid, string>)
    requires |slots| == |returned|
  {
    forall i :: 0 <= i < |slots| && slots[i].BidSlot? && returned[i] != "" ==>
      slots[i].bid in ids && ids[slots[i].bid] == returned[i]
  }

  /**
   * Each bid has the id returned at the position of its VAST payload; where bids are filed by
   * category, an id that ends in the shared id is cut down to it.
   */
  ghost predicate RightVastIds(ins: Instructions, slots: seq<Slot>, returned: seq<string>, ids: map<PbsBid, string>)
    requires |slots| == |returned|
  {
    forall i :: 0 <= i < |slots| && slots[i].VastSlot? && returned[i] != "" ==>
      && slots[i].bid in ids
      && (|ins.bidCategory| == 0 || ins.hbCacheId.None? ==> ids[slots[i].bid] == returned[i])
      && (|ins.bidCategory| > 0 && ins.hbCacheId.Some? ==>
            var id, shared := returned[i], ins.hbCacheId.value;
            ids[slots[i].bid] == if |shared| <= |id| && id[|id| - |shared|..] == shared then shared else id)
  }

  lemma SlotsInPlainTerms(ins: Instructions, winning: Winners, byBidder: WinnersByBidder, slots: seq<Slot>)
    requires OnOwnImp(byBidder)
    requires forall i :: 0 <= i < |slots| && !slots[i].LogSlot? ==> Wanted(ins, winning, byBidder, slots[i])
    requires forall slot :: Wanted(ins, winning, byBidder, slot) ==> slot in slots
    ensures RightBids(ins, winning, byBidder, slots)
  {
    hide MakeVast;
    forall imp, s | imp in byBidder && s in byBidder[imp]
      ensures InList(ins, winning, imp, s, byBidder[imp][s], slots)
    {
      var b := byBidder[imp][s];
      assert EntryFor(byBidder, imp, s) == Some(b);
      if ins.includeBidderKeys || (imp in winning && winning[imp] == b) {
        assert ins.bids && ins.bidJson(b.bid, s).Some? ==> Wanted(ins, winning, byBidder, BidSlot(s, b));
        assert ins.vast && b.bidType == Video && ins.vastJson(MakeVast(b.bid)).Some? ==>
          Wanted(ins, winning, byBidder, VastSlot(s, b));
      }
    }
  }

  lemma IdsInPlainTerms(slots: seq<Slot>, returned: seq<string>, ids: map<PbsBid, string>)
    requires |slots| == |returned| && Attributed(slots, returned, false, id => id, ids)
    ensures RightIds(slots, returned, ids)
  {
    assert forall i :: 0 <= i < |slots| && slots[i].BidSlot? ==> IsSlot(slots[i], false);
  }

  lemma VastIdsInPlainTerms(ins: Instructions, slots: seq<Slot>, returned: seq<string>, ids: map<PbsBid, string>)
    requires |slots| == |returned| && Attributed(slots, returned, true, id => VastId(ins, id), ids)
    ensures RightVastIds(ins, slots, returned, ids)
  {
    forall i | 0 <= i < |slots| && slots[i].VastSlot? && returned[i] != ""
      ensures slots[i].bid in ids && ids[slots[i].bid] == VastId(ins, returned[i])
    {
      assert IsSlot(slots[i], true);
    }
  }

  lemma OwnVast(bid: Bid)
    ensures bid.adm != "" ==> MakeVast(bid) == bid.adm
  {
  }

  lemma WrapperShape(bid: Bid)
    requires bid.adm == ""
    ensures exists before, after :: MakeVast(bid) == before + bid.nurl + after
  {
    var before := "<VAST version=\"3.0\"><Ad><Wrapper>" +
      "<AdSystem>prebid.org wrapper</AdSystem>" +
      "<VASTAdTagURI><![CDATA[";
    var vast := MakeVast(bid);
    assert vast == vast[..|before|] + vast[|before|..|before| + |bid.nurl|] + vast[|before| + |bid.nurl|..];
    assert vast[|before|..|before| + |bid.nurl|] == bid.nurl;
  }

  /** What `DoCache` asks of the bidder tables holds of every decided auction. */
  lemma DecidedCanBeCached(seats: Seats, winning: Winners, byBidder: WinnersByBidder, preferDeals: bool)
    requires Decided(seats, winning, byBidder, preferDeals) && DistinctBids(seats)
    ensures OnOwnImp(byBidder) && DistinctTops(byBidder)
  {
    TopsAreDistinct(seats, byBidder);
  }

  class CachedAuction {
    const winningBids: Winners
    const winningBidsByBidder: WinnersByBidder
    var cacheIds: map<PbsBid, string>
    var vastCacheIds: map<PbsBid, string>

    constructor (winningBids: Winners, winningBidsByBidder: WinnersByBidder)
      ensures this.winningBids == winningBids && this.winningBidsByBidder == winningBidsByBidder
      ensures cacheIds == map[] && vastCacheIds == map[]
    {
      this.winningBids, this.winningBidsByBidder := winningBids, winningBidsByBidder;
      cacheIds, vastCacheIds := map[], map[];
    }

    /**
     * `put` is the cache: one id per payload, empty where it failed. `sent` is what went to it and
     * `slots` what every position was for. The debug log is never more than the last position, and
     * no bid gets its id.
     */
    method DoCache(ins: Instructions, put: seq<Cacheable> -> seq<string>)
      returns (ghost sent: seq<Cacheable>, ghost slots: seq<Slot>)
      requires OnOwnImp(winningBidsByBidder) && DistinctTops(winningBidsByBidder)
      requires forall v :: |put(v)| == |v|
      modifies this
      ensures !((ins.bids || ins.vast) && (ins.includeBidderKeys || ins.includeWinners)) ==>
        sent == [] && slots == [] && unchanged(this)
      ensures |slots| == |sent| && Distinct(slots)
      ensures forall i :: 0 <= i < |slots| ==> PayloadFor(ins, winningBids, slots[i], sent[i])
      ensures (ins.bids || ins.vast) && (ins.includeBidderKeys || ins.includeWinners) ==>
        && (forall i :: 0 <= i < |slots| && !slots[i].LogSlot? ==>
          Wanted(ins, winningBids, winningBidsByBidder, slots[i]))
        && (forall slot :: Wanted(ins, winningBids, winningBidsByBidder, slot) ==> slot in slots)
        && (forall i :: 0 <= i < |slots| && slots[i].LogSlot? ==> i == |slots| - 1 > 0)
        && (slots != [] && ins.debugLog.Some? ==> slots[|slots| - 1].LogSlot?)
        && (ins.bids ==> Attributed(slots, put(sent), false, id => id, cacheIds))
        && (ins.vast ==> Attributed(slots, put(sent), true, id => VastId(ins, id), vastCacheIds))
        && (!ins.bids ==> cacheIds == old(cacheIds))
        && (!ins.vast ==> vastCacheIds == old(vastCacheIds))
      ensures (ins.bids || ins.vast) && (ins.includeBidderKeys || ins.includeWinners) ==>
        && RightBids(ins, winningBids, winningBidsByBidder, slots)
        && (ins.bids ==> RightIds(slots, put(sent), cacheIds))
        && (ins.vast ==> RightVastIds(ins, slots, put(sent), vastCacheIds))
    {
      hide PayloadFor, Wanted, OnOwnImp, DistinctTops, Attributed, OneSlotEach, RightBids, RightIds, RightVastIds,
        VastId;
      sent, slots := [], [];
      if !((ins.bids || ins.vast) && (ins.includeBidderKeys || ins.includeWinners)) {
        return;
      }
      var w;
      w, slots := BuildList(ins, winningBids, winningBidsByBidder);
      OneSlotPerBid(ins, winningBids, winningBidsByBidder, slots, false);
      OneSlotPerBid(ins, winningBids, winningBidsByBidder, slots, true);
      sent := w.toCache;
      var ids := put(w.toCache);
      if ins.bids {
        cacheIds := AssignIds(w.bidIndices, ids, slots, false, id => id);
      }
      if ins.vast {
        vastCacheIds := AssignIds(w.vastIndices, ids, slots, true, id => VastId(ins, id));
      }
      SlotsInPlainTerms(ins, winningBids, winningBidsByBidder, slots);
      if ins.bids {
        IdsInPlainTerms(slots, ids, cacheIds);
      }
      if ins.vast {
        VastIdsInPlainTerms(ins, slots, ids, vastCacheIds);
      }
    }
  }
}
