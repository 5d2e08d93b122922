/**
 * The user-sync cookie: opt-out, syncs, legacy decoding and eviction by size. Times are
 * nanoseconds on a clock passed in by the caller.
 */
module Cookie {
  import opened Lists

  const AUDIENCE_NETWORK := "audienceNetwork"
  const MINUTE := 60 * 1_000_000_000
  const DEFAULT_TTL := 14 * 24 * 60 * MINUTE

  const MAX_INT64 := 0x7fff_ffff_ffff_ffff
  const MIN_INT64 := -0x8000_0000_0000_0000

  datatype Uid = Uid(uid: string, expires: int)

  type Uids = map<string, Uid>

  datatype State = State(uids: Uids, optOut: bool, birthday: Option<int>)

  /** The stored JSON contract: an empty map is not written, so it reads back as absent. */
  datatype Contract = Contract(legacyUids: map<string, string>, uids: Option<Uids>, optOut: bool, birthday: Option<int>)

  function Fresh(now: int): State {
    State(map[], false, Some(now))
  }

  /** No uids after an opt-out, and never the placeholder uid. */
  ghost predicate Safe(s: State) {
    && (s.optOut ==> s.uids == map[])
    && !(AUDIENCE_NETWORK in s.uids && s.uids[AUDIENCE_NETWORK].uid == "0")
  }

  // ---------- stored form ----------

  function Encode(s: State): Contract {
    Contract(map[], if s.uids == map[] then None else Some(s.uids), s.optOut, s.birthday)
  }

  /** Legacy uids count as expired five minutes ago, and yield to current ones. */
  function WithLegacy(uids: Uids, legacy: map<string, string>, now: int): Uids {
    (map b | b in legacy :: Uid(legacy[b], now - 5 * MINUTE)) + uids
  }

  function WithoutPlaceholder(uids: Uids): Uids {
    if AUDIENCE_NETWORK in uids && uids[AUDIENCE_NETWORK].uid == "0" then uids - {AUDIENCE_NETWORK} else uids
  }

  function Decode(c: Contract, now: int): State {
    if c.optOut then State(map[], true, c.birthday)
    else
      var current := if c.uids.Some? then c.uids.value else map[];
      State(WithoutPlaceholder(WithLegacy(current, c.legacyUids, now)), false, c.birthday)
  }

  lemma DecodeIsSafe(c: Contract, now: int)
    ensures Safe(Decode(c, now))
  {
  }

  lemma NoLegacy(uids: Uids, now: int)
    ensures WithLegacy(uids, map[], now) == uids
  {
  }

  /** A cookie reads back as it was written, at any later time. */
  lemma RoundTrip(s: State, now: int)
    requires Safe(s)
    ensures Decode(Encode(s), now) == s
  {
  }

  /** Rewriting any stored contract once is enough: legacy and empty forms do not come back. */
  lemma DecodeEncodeDecode(c: Contract, now: int, later: int)
    ensures Decode(Encode(Decode(c, now)), later) == Decode(c, now)
  {
  }

  /** Only a safe cookie survives being stored. */
  lemma RoundTripIffSafe(s: State, now: int)
    ensures Decode(Encode(s), now) == s <==> Safe(s)
  {
  }

  /**
   * What a contract reads as, uid by uid: nothing after an opt-out, otherwise its own uids and, where
   * it has none, its legacy ones as of five minutes ago; never the placeholder.
   */
  lemma DecodeInPlainTerms(c: Contract, now: int, k: string)
    ensures var s := Decode(c, now);
            var stored :=
              if c.uids.Some? && k in c.uids.value then Some(c.uids.value[k])
              else if k in c.legacyUids then Some(Uid(c.legacyUids[k], now - 300_000_000_000))
              else None;
            && s.optOut == c.optOut && s.birthday == c.birthday
            && (c.optOut ==> s.uids == map[])
            && (!c.optOut ==>
                  Lookup(s.uids, k) ==
                    if k == "audienceNetwork" && stored.Some? && stored.value.uid == "0" then None else stored)
  {
  }

  /** What is written: no legacy uids, and the uids only if there are any. */
  lemma EncodeInPlainTerms(s: State)
    ensures var c := Encode(s);
            && c.optOut == s.optOut && c.birthday == s.birthday && c.legacyUids == map[]
            && (c.uids.None? <==> s.uids == map[]) && (c.uids.Some? ==> c.uids.value == s.uids)
  {
  }

  // ---------- eviction ----------

  /** `time.Until`, which saturates. */
  function TimeUntil(expires: int, now: int): int {
    if expires - now > MAX_INT64 then MAX_INT64
    else if expires - now < MIN_INT64 then MIN_INT64
    else expires - now
  }

  /** The uids whose lifetime reaches the search's initial bound, so that it never selects them. */
  ghost function Immortal(uids: Uids, now: int): Uids {
    map k | k in uids && k != "" && TimeUntil(uids[k].expires, now) == MAX_INT64 :: uids[k]
  }

  /** The key the search ends with: one that expires first, or the empty one if none is below the bound. */
  ghost predicate IsOldest(uids: Uids, now: int, key: string) {
    || (key in uids && TimeUntil(uids[key].expires, now) < MAX_INT64
        && forall k :: k in uids ==> TimeUntil(uids[key].expires, now) <= TimeUntil(uids[k].expires, now))
    || (key == "" && forall k :: k in uids ==> TimeUntil(uids[k].expires, now) == MAX_INT64)
  }

  method FindOldest(uids: Uids, now: int) returns (oldest: string)
    ensures IsOldest(uids, now, oldest)
  {
    oldest := "";
    var oldestDate := MAX_INT64;
    var left := uids.Keys;
    while left != {}
      invariant left <= uids.Keys
      invariant oldestDate <= MAX_INT64
      invariant forall k :: k in uids && k !in left ==> oldestDate <= TimeUntil(uids[k].expires, now)
      invariant oldestDate == MAX_INT64 ==> oldest == ""
      invariant oldestDate < MAX_INT64 ==> oldest in uids && oldestDate == TimeUntil(uids[oldest].expires, now)
      decreases |left|
    {
      var key :| key in left;
      var timeUntilExpiration := TimeUntil(uids[key].expires, now);
      if timeUntilExpiration < oldestDate {
        oldest := key;
        oldestDate := timeUntilExpiration;
      }
      left := left - {key};
    }
  }

  function Minus(uids: Uids, gone: seq<string>): Uids {
    map k | k in uids && k !in gone :: uids[k]
  }

  lemma MinusOne(uids: Uids, gone: seq<string>, key: string)
    ensures Minus(uids, gone + [key]) == Minus(uids, gone) - {key}
    ensures Minus(uids, []) == uids
  {
  }

  lemma MinusIsEviction(uids: Uids, gone: seq<string>, optOut: bool, birthday: Option<int>)
    ensures Next(State(uids, optOut, birthday), Op.Evict, State(Minus(uids, gone), optOut, birthday))
  {
  }

  /** The search never returns an immortal uid. */
  lemma OldestIsMortal(all: Uids, gone: seq<string>, now: int, oldest: string)
    requires IsOldest(Minus(all, gone), now, oldest)
    ensures oldest !in Immortal(all, now)
    ensures oldest in Minus(all, gone) ==> oldest in all && oldest !in gone && Minus(all, gone)[oldest] == all[oldest]
    ensures forall k :: k in Minus(all, gone) && oldest in Minus(all, gone) ==>
      k in all && TimeUntil(all[oldest].expires, now) <= TimeUntil(all[k].expires, now)
  {
  }

  /**
   * The evictions so far: each was called for by the size, none could have been spared, and
   * whatever was evicted expires no later than what is left.
   */
  ghost predicate Evicting(all: Uids, gone: seq<string>, size: State -> int, limit: int, now: int, optOut: bool,
                           birthday: Option<int>)
  {
    && Distinct(gone)
    && (forall i :: 0 <= i < |gone| ==> gone[i] in all && gone[i] !in Immortal(all, now))
    && (forall i :: 0 <= i < |gone| ==> size(State(Minus(all, gone[..i]), optOut, birthday)) > limit)
    && (forall e, k :: e in gone && k in Minus(all, gone) ==>
          e in all && k in all && TimeUntil(all[e].expires, now) <= TimeUntil(all[k].expires, now))
  }

  /** If the search comes back with nothing to remove, only the immortal uids are left. */
  lemma StuckIsImmortal(all: Uids, gone: seq<string>, size: State -> int, limit: int, now: int, optOut: bool,
                        birthday: Option<int>, oldest: string)
    requires Evicting(all, gone, size, limit, now, optOut, birthday)
    requires IsOldest(Minus(all, gone), now, oldest) && oldest !in Minus(all, gone)
    ensures Minus(all, gone) == Immortal(all, now)
  {
  }

  lemma EvictingStep(all: Uids, gone: seq<string>, size: State -> int, limit: int, now: int, optOut: bool,
                     birthday: Option<int>, oldest: string)
    requires Evicting(all, gone, size, limit, now, optOut, birthday)
    requires IsOldest(Minus(all, gone), now, oldest) && oldest in Minus(all, gone)
    requires size(State(Minus(all, gone), optOut, birthday)) > limit
    ensures Evicting(all, gone + [oldest], size, limit, now, optOut, birthday)
    ensures Minus(all, gone + [oldest]) == Minus(all, gone) - {oldest}
  {
    hide Immortal, Minus, TimeUntil, IsOldest;
    OldestIsMortal(all, gone, now, oldest);
    MinusOne(all, gone, oldest);
    var gone' := gone + [oldest];
    assert forall i :: 0 <= i <= |gone| ==> gone'[..i] == gone[..i];
    assert gone[..|gone|] == gone;
  }

  /** What one round of the loop leaves, whatever the map order. */
  ghost predicate EvictRound(uids: Uids, uids': Uids, now: int) {
    exists key :: IsOldest(uids, now, key) && uids' == uids - {key}
  }

  /** The same cookie with some uids left out. */
  ghost predicate Part(s: State, s': State) {
    && (forall k :: k in s.uids ==> k in s'.uids && s'.uids[k] == s.uids[k])
    && s.optOut == s'.optOut && s.birthday == s'.birthday
  }

  ghost predicate SizeMonotone(size: State -> int) {
    forall s: State, s': State :: Part(s, s') ==> size(s) <= size(s')
  }

  /** The loop's condition is false. */
  ghost predicate Stops(uids: Uids, size: State -> int, limit: int, optOut: bool, birthday: Option<int>) {
    limit <= 0 || size(State(uids, optOut, birthday)) <= limit || uids == map[]
  }

  /** A run of the loop: every round but the last is entered, and leaves what a round may leave. */
  ghost predicate Rounds(run: seq<Uids>, size: State -> int, limit: int, now: int, optOut: bool, birthday: Option<int>)
  {
    run != [] && forall i: nat :: i < |run| - 1 ==> RoundAt(run, i, size, limit, now, optOut, birthday)
  }

  ghost predicate RoundAt(run: seq<Uids>, i: nat, size: State -> int, limit: int, now: int,
                          optOut: bool, birthday: Option<int>)
    requires i < |run| - 1
  {
    !Stops(run[i], size, limit, optOut, birthday) && EvictRound(run[i], run[i + 1], now)
  }

  /** Some run of the loop ends. */
  ghost predicate CanEnd(uids: Uids, size: State -> int, limit: int, now: int, optOut: bool, birthday: Option<int>) {
    exists run :: Rounds(run, size, limit, now, optOut, birthday)
      && run[0] == uids && Stops(run[|run| - 1], size, limit, optOut, birthday)
  }

  /** The uids the search can never select fit by themselves, or there are none. */
  ghost predicate ImmortalFit(uids: Uids, size: State -> int, limit: int, now: int, optOut: bool, birthday: Option<int>)
  {
    limit <= 0 || Immortal(uids, now) == map[] || size(State(Immortal(uids, now), optOut, birthday)) <= limit
  }

  /** No round removes a uid that cannot be selected. */
  lemma RoundKeepsImmortal(uids: Uids, uids': Uids, now: int)
    requires EvictRound(uids, uids', now)
    ensures Immortal(uids', now) == Immortal(uids, now)
  {
    var key :| IsOldest(uids, now, key) && uids' == uids - {key};
    forall k | k in Immortal(uids, now) ensures k in uids' && k != "" && uids'[k] == uids[k] {
      assert TimeUntil(uids[k].expires, now) == MAX_INT64;
    }
  }

  lemma {:induction false} RunKeepsImmortal(run: seq<Uids>, size: State -> int, limit: int, now: int,
                                            optOut: bool, birthday: Option<int>, n: nat)
    requires Rounds(run, size, limit, now, optOut, birthday) && n < |run|
    ensures Immortal(run[n], now) == Immortal(run[0], now)
  {
    hide Immortal, EvictRound, Stops;
    if n > 0 {
      RunKeepsImmortal(run, size, limit, now, optOut, birthday, n - 1);
      assert RoundAt(run, n - 1, size, limit, now, optOut, birthday);
      RoundKeepsImmortal(run[n - 1], run[n], now);
    }
  }

  /** Where only what cannot be selected is too big, the loop goes on. */
  lemma TooBigToStop(uids: Uids, size: State -> int, limit: int, now: int, optOut: bool, birthday: Option<int>)
    requires SizeMonotone(size) && Stops(uids, size, limit, optOut, birthday)
    ensures ImmortalFit(uids, size, limit, now, optOut, birthday)
  {
    assert Part(State(Immortal(uids, now), optOut, birthday), State(uids, optOut, birthday));
  }

  lemma {:induction false} OldestExists(uids: Uids, now: int) returns (key: string)
    ensures IsOldest(uids, now, key)
  {
    if uids == map[] {
      key := "";
    } else {
      var k := Pick(uids.Keys);
      var rest := uids - {k};
      var other := OldestExists(rest, now);
      var date := TimeUntil(uids[k].expires, now);
      assert forall x :: x in uids ==> x == k || (x in rest && rest[x] == uids[x]);
      if other in rest && TimeUntil(rest[other].expires, now) <= date &&
        TimeUntil(rest[other].expires, now) < MAX_INT64 {
        key := other;
      } else if date < MAX_INT64 {
        key := k;
      } else {
        key := "";
      }
    }
  }

  lemma AllImmortal(uids: Uids, now: int)
    requires IsOldest(uids, now, "") && "" !in uids
    ensures Immortal(uids, now) == uids
  {
  }

  /** A round that is entered although what cannot be selected would fit removes a uid. */
  lemma RoundRemoves(uids: Uids, size: State -> int, limit: int, now: int, optOut: bool, birthday: Option<int>,
                     key: string)
    requires ImmortalFit(uids, size, limit, now, optOut, birthday) && !Stops(uids, size, limit, optOut, birthday)
    requires IsOldest(uids, now, key)
    ensures key in uids
  {
    if key !in uids {
      AllImmortal(uids, now);
      assert false;
    }
  }

  lemma {:induction false} FitCanEnd(uids: Uids, size: State -> int, limit: int, now: int, optOut: bool,
                                     birthday: Option<int>)
    requires ImmortalFit(uids, size, limit, now, optOut, birthday)
    ensures CanEnd(uids, size, limit, now, optOut, birthday)
    decreases |uids|
  {
    hide Immortal, IsOldest, Stops;
    if Stops(uids, size, limit, optOut, birthday) {
      assert Rounds([uids], size, limit, now, optOut, birthday);
    } else {
      var key := OldestExists(uids, now);
      RoundRemoves(uids, size, limit, now, optOut, birthday, key);
      var less := uids - {key};
      assert EvictRound(uids, less, now);
      RoundKeepsImmortal(uids, less, now);
      FitCanEnd(less, size, limit, now, optOut, birthday);
      var run :| Rounds(run, size, limit, now, optOut, birthday)
        && run[0] == less && Stops(run[|run| - 1], size, limit, optOut, birthday);
      OneMoreRound(uids, run, size, limit, now, optOut, birthday);
    }
  }

  lemma OneMoreRound(uids: Uids, run: seq<Uids>, size: State -> int, limit: int, now: int,
                     optOut: bool, birthday: Option<int>)
    requires Rounds(run, size, limit, now, optOut, birthday) && Stops(run[|run| - 1], size, limit, optOut, birthday)
    requires !Stops(uids, size, limit, optOut, birthday) && EvictRound(uids, run[0], now)
    ensures CanEnd(uids, size, limit, now, optOut, birthday)
  {
    hide Stops, EvictRound;
    var more := [uids] + run;
    forall i: nat | i < |more| - 1 ensures RoundAt(more, i, size, limit, now, optOut, birthday) {
      assert i > 0 ==> RoundAt(run, i - 1, size, limit, now, optOut, birthday);
    }
    assert Rounds(more, size, limit, now, optOut, birthday);
  }

  /** Exactly when the eviction loop can end, whatever the map order. */
  lemma CanEndIff(uids: Uids, size: State -> int, limit: int, now: int, optOut: bool, birthday: Option<int>)
    requires SizeMonotone(size)
    ensures CanEnd(uids, size, limit, now, optOut, birthday) <==> ImmortalFit(uids, size, limit, now, optOut, birthday)
  {
    hide Immortal, Stops, SizeMonotone, RoundAt;
    if ImmortalFit(uids, size, limit, now, optOut, birthday) {
      FitCanEnd(uids, size, limit, now, optOut, birthday);
    }
    if run :| Rounds(run, size, limit, now, optOut, birthday)
              && run[0] == uids && Stops(run[|run| - 1], size, limit, optOut, birthday) {
      RunKeepsImmortal(run, size, limit, now, optOut, birthday, |run| - 1);
      TooBigToStop(run[|run| - 1], size, limit, now, optOut, birthday);
    }
  }

  /** One uid that lives as long as can be told is enough to hang the loop under any limit it exceeds. */
  lemma HangingCookie(size: State -> int, limit: int, now: int, birthday: Option<int>)
    requires SizeMonotone(size)
    ensures var uids := map["adnxs" := Uid("1", now + MAX_INT64)];
            0 < limit < size(State(uids, false, birthday)) ==> !CanEnd(uids, size, limit, now, false, birthday)
  {
    hide SizeMonotone, CanEnd;
    var uids := map["adnxs" := Uid("1", now + MAX_INT64)];
    assert TimeUntil(uids["adnxs"].expires, now) == MAX_INT64;
    assert Immortal(uids, now) == uids;
    CanEndIff(uids, size, limit, now, false, birthday);
  }

  lemma LegacyStep(current: Uids, legacy: map<string, string>, left: set<string>, bidder: string, now: int)
    requires bidder in left && left <= legacy.Keys
    ensures var before := WithLegacy(current, legacy - left, now);
            var after := WithLegacy(current, legacy - (left - {bidder}), now);
            after == if bidder in before then before else before[bidder := Uid(legacy[bidder], now - 5 * MINUTE)]
  {
  }

  /** Merges legacy uids in whatever order the map is visited. */
  method AddLegacy(current: Uids, legacy: map<string, string>, now: int) returns (uids: Uids)
    ensures uids == WithLegacy(current, legacy, now)
  {
    hide WithLegacy;
    uids := current;
    var left := legacy.Keys;
    NoLegacy(current, now);
    assert legacy - left == map[];
    while left != {}
      invariant left <= legacy.Keys
      invariant uids == WithLegacy(current, legacy - left, now)
      decreases |left|
    {
      var bidder :| bidder in left;
      LegacyStep(current, legacy, left, bidder, now);
      if bidder !in uids {
        uids := uids[bidder := Uid(legacy[bidder], now - 5 * MINUTE)];
      }
      left := left - {bidder};
    }
    assert legacy - {} == legacy;
  }

  // ---------- the cookie object ----------

  datatype SyncError = OptedOut | PlaceholderUid

  class PbsCookie {
    var uids: Uids
    var optOut: bool
    var birthday: Option<int>

    ghost function Value(): State
      reads this
    {
      State(uids, optOut, birthday)
    }

    constructor (now: int)
      ensures Value() == Fresh(now)
    {
      uids, optOut, birthday := map[], false, Some(now);
    }

    constructor WithOptOut(now: int)
      ensures Value() == Fresh(now).(optOut := true)
    {
      uids, optOut, birthday := map[], true, Some(now);
    }

    method SetPreference(allow: bool)
      modifies this
      ensures Next(old(Value()), Op.SetPreference(allow), Value())
      ensures optOut == !allow && birthday == old(birthday) && uids == if allow then old(uids) else map[]
    {
      if allow {
        optOut := false;
      } else {
        optOut := true;
        uids := map[];
      }
    }

    method Unsync(family: string)
      modifies this`uids
      ensures Next(old(Value()), Op.Unsync(family), Value())
      ensures forall k :: Lookup(uids, k) == if k == family then None else Lookup(old(uids), k)
    {
      uids := uids - {family};
    }

    method TrySync(family: string, uid: string, now: int) returns (error: Option<SyncError>)
      modifies this`uids
      ensures error ==
        if optOut then Some(OptedOut)
        else if family == AUDIENCE_NETWORK && uid == "0" then Some(PlaceholderUid)
        else None
      ensures Next(old(Value()), Op.TrySync(family, uid, now), Value())
      ensures error.Some? <==> optOut || (family == "audienceNetwork" && uid == "0")
      ensures error.Some? ==> uids == old(uids)
      ensures error.None? ==> forall k ::
        Lookup(uids, k) == if k == family then Some(Uid(uid, now + 14 * 86_400_000_000_000)) else Lookup(old(uids), k)
    {
      if optOut {
        return Some(OptedOut);
      }
      if family == AUDIENCE_NETWORK && uid == "0" {
        return Some(PlaceholderUid);
      }
      uids := uids[family := Uid(uid, now + DEFAULT_TTL)];
      error := None;
    }

    /** The uid, whether there is one, and whether it is still live. */
    method GetUid(family: string, now: int) returns (uid: string, found: bool, live: bool)
      ensures found <==> family in uids
      ensures uid == if found then uids[family].uid else ""
      ensures live <==> found && now < uids[family].expires
    {
      if family in uids {
        return uids[family].uid, true, now < uids[family].expires;
      }
      return "", false, false;
    }

    method LiveSyncCount(now: int) returns (n: nat)
      ensures n == |set f | f in uids && now < uids[f].expires|
    {
      n := 0;
      ghost var counted: set<string> := {};
      var left := uids.Keys;
      while left != {}
        invariant left <= uids.Keys
        invariant counted == set f | f in uids && f !in left && now < uids[f].expires
        invariant n == |counted|
        decreases |left|
      {
        var f :| f in left;
        if now < uids[f].expires {
          n := n + 1;
          counted := counted + {f};
        }
        left := left - {f};
      }
      assert counted == set f | f in uids && now < uids[f].expires;
    }

    /** Reads a stored contract; a document that does not parse leaves the cookie alone. */
    method Unmarshal(doc: Option<Contract>, now: int)
      modifies this
      ensures Value() == if doc.Some? then Decode(doc.value, now) else old(Value())
    {
      if doc.None? {
        return;
      }
      var c := doc.value;
      optOut, birthday := c.optOut, c.birthday;
      if optOut {
        uids := map[];
      } else {
        uids := if c.uids.Some? then c.uids.value else map[];
        uids := AddLegacy(uids, c.legacyUids, now);
        if AUDIENCE_NETWORK in uids && uids[AUDIENCE_NETWORK].uid == "0" {
          uids := uids - {AUDIENCE_NETWORK};
        }
      }
    }

    /**
     * The eviction loop of `SetCookieOnResponse`; `size` is the length of the cookie header. It
     * may be entered when the uids it can never select fit by themselves, or there are none.
     */
    method EvictToFit(size: State -> int, limit: int, now: int) returns (ghost evicted: seq<string>)
      requires ImmortalFit(uids, size, limit, now, optOut, birthday)
      modifies this`uids
      ensures uids == Minus(old(uids), evicted) && Evicting(old(uids), evicted, size, limit, now, optOut, birthday)
      ensures Next(old(Value()), Op.Evict, Value())
      ensures limit <= 0 ==> evicted == []
      ensures limit > 0 ==> size(Value()) <= limit || uids == map[]
      ensures ExpireFirst(old(uids), evicted, now) && Needed(old(uids), evicted, size, limit, optOut, birthday)
      ensures forall k :: Lookup(uids, k) == if k in evicted then None else Lookup(old(uids), k)
    {
      hide Immortal, Minus, TimeUntil, IsOldest, Evicting, Next, ExpireFirst, Needed;
      evicted := [];
      ghost var all := uids;
      MinusOne(all, evicted, "");
      NothingEvicted(all, size, limit, now, optOut, birthday);
      var currSize := size(State(uids, optOut, birthday));
      while limit > 0 && currSize > limit && |uids| > 0
        invariant currSize == size(State(uids, optOut, birthday))
        invariant uids == Minus(all, evicted) && Evicting(all, evicted, size, limit, now, optOut, birthday)
        invariant limit <= 0 ==> evicted == []
        decreases |uids|
      {
        var oldest := FindOldest(uids, now);
        if oldest !in uids {
          StuckIsImmortal(all, evicted, size, limit, now, optOut, birthday, oldest);
          assert false;
        }
        EvictingStep(all, evicted, size, limit, now, optOut, birthday, oldest);
        uids := uids - {oldest};
        evicted := evicted + [oldest];
        currSize := size(State(uids, optOut, birthday));
      }
      MinusIsEviction(all, evicted, optOut, birthday);
      EvictionInPlainTerms(all, evicted, size, limit, now, optOut, birthday);
    }
  }

  /** What was evicted expires no later than what is kept, as far as the clock can tell. */
  ghost predicate ExpireFirst(all: Uids, gone: seq<string>, now: int) {
    forall e, k :: e in gone && e in all && k in all && k !in gone ==>
      || all[e].expires <= all[k].expires
      || (all[e].expires >= now + MAX_INT64 && all[k].expires >= now + MAX_INT64)
      || (all[e].expires <= now + MIN_INT64 && all[k].expires <= now + MIN_INT64)
  }

  /** The cookie was too big before each eviction. */
  ghost predicate Needed(all: Uids, gone: seq<string>, size: State -> int, limit: int, optOut: bool,
                         birthday: Option<int>)
  {
    forall i :: 0 <= i < |gone| ==> size(State(Minus(all, gone[..i]), optOut, birthday)) > limit
  }

  lemma EvictionInPlainTerms(all: Uids, gone: seq<string>, size: State -> int, limit: int, now: int,
                             optOut: bool, birthday: Option<int>)
    requires Evicting(all, gone, size, limit, now, optOut, birthday)
    ensures ExpireFirst(all, gone, now) && Needed(all, gone, size, limit, optOut, birthday)
    ensures forall k :: Lookup(Minus(all, gone), k) == if k in gone then None else Lookup(all, k)
  {
    hide Immortal;
    forall e, k | e in gone && e in all && k in all && k !in gone
      ensures || all[e].expires <= all[k].expires
              || (all[e].expires >= now + MAX_INT64 && all[k].expires >= now + MAX_INT64)
              || (all[e].expires <= now + MIN_INT64 && all[k].expires <= now + MIN_INT64)
    {
      assert k in Minus(all, gone);
    }
  }

  lemma NothingEvicted(all: Uids, size: State -> int, limit: int, now: int, optOut: bool, birthday: Option<int>)
    ensures Evicting(all, [], size, limit, now, optOut, birthday)
  {
  }

  // ---------- whole runs ----------

  datatype Op =
    | SetPreference(allow: bool)
    | TrySync(family: string, uid: string, now: int)
    | Unsync(family: string)
    | Evict

  predicate Accepted(s: State, op: Op)
    requires op.TrySync?
  {
    !s.optOut && !(op.family == AUDIENCE_NETWORK && op.uid == "0")
  }

  /** What an operation may do; an eviction drops any uids it likes. */
  ghost predicate Next(s: State, op: Op, s': State) {
    match op
    case SetPreference(allow) => s' == if allow then s.(optOut := false) else State(map[], true, s.birthday)
    case TrySync(family, uid, now) =>
      s' == if Accepted(s, op) then s.(uids := s.uids[family := Uid(uid, now + DEFAULT_TTL)]) else s
    case Unsync(family) => s' == s.(uids := s.uids - {family})
    case Evict => Part(s', s)
  }

  /** A run: one more state than operations. */
  ghost predicate IsRun(states: seq<State>, ops: seq<Op>) {
    |states| == |ops| + 1 && forall i :: 0 <= i < |ops| ==> Next(states[i], ops[i], states[i + 1])
  }

  lemma {:induction false} SafeForever(states: seq<State>, ops: seq<Op>, n: nat)
    requires IsRun(states, ops) && Safe(states[0]) && n <= |ops|
    ensures Safe(states[n])
  {
    if n > 0 {
      SafeForever(states, ops, n - 1);
      assert Next(states[n - 1], ops[n - 1], states[n]);
    }
  }

  predicate OptsOut(op: Op) {
    op.SetPreference? && !op.allow
  }

  /** The sync at step `k` put the uid there. */
  ghost predicate SyncedAt(states: seq<State>, ops: seq<Op>, k: nat, family: string, u: Uid)
    requires IsRun(states, ops) && k < |ops|
  {
    && ops[k].TrySync? && Accepted(states[k], ops[k])
    && ops[k].family == family && u == Uid(ops[k].uid, ops[k].now + DEFAULT_TTL)
  }

  ghost predicate NoOptOut(ops: seq<Op>, from: nat, to: nat)
    requires to <= |ops|
  {
    forall i :: from <= i < to ==> !OptsOut(ops[i])
  }

  /** Every uid was there at the start or came from an accepted sync, and there was no opt-out since. */
  lemma {:induction false} Provenance(states: seq<State>, ops: seq<Op>, n: nat, family: string)
    requires IsRun(states, ops) && n <= |ops| && family in states[n].uids
    ensures
      || (family in states[0].uids && states[0].uids[family] == states[n].uids[family] && NoOptOut(ops, 0, n))
      || exists k: nat :: k < n && SyncedAt(states, ops, k, family, states[n].uids[family]) && NoOptOut(ops, k + 1, n)
  {
    if n > 0 {
      var s, op, s' := states[n - 1], ops[n - 1], states[n];
      assert Next(s, op, s');
      if op.TrySync? && Accepted(s, op) && op.family == family {
        assert SyncedAt(states, ops, n - 1, family, s'.uids[family]) && NoOptOut(ops, n, n);
      } else {
        assert family in s.uids && s.uids[family] == s'.uids[family];
        Provenance(states, ops, n - 1, family);
        if k: nat :| k < n - 1 && SyncedAt(states, ops, k, family, s.uids[family]) && NoOptOut(ops, k + 1, n - 1) {
          assert SyncedAt(states, ops, k, family, s'.uids[family]) && NoOptOut(ops, k + 1, n);
        }
      }
    }
  }

  /** After an opt-out nothing is back in the cookie without an accepted sync of its own since. */
  lemma NothingReappears(states: seq<State>, ops: seq<Op>, i: nat, n: nat, family: string)
    requires IsRun(states, ops) && i < n <= |ops| && OptsOut(ops[i]) && family in states[n].uids
    ensures exists k: nat :: i < k < n && SyncedAt(states, ops, k, family, states[n].uids[family])
  {
    Provenance(states, ops, n, family);
  }

  // ---------- reading a request ----------

  /** The cookies of a request: whether the opt-out cookie matches, the uids cookie, and the host's own cookie. */
  datatype Request = Request(optedOut: bool, uidsCookie: Option<Option<Contract>>, family: string,
                             hostUid: Option<string>)

  /** `ParsePBSCookieFromRequest`, step by step on the cookie object. */
  method ParseFromRequest(r: Request, now: int) returns (cookie: PbsCookie)
    ensures fresh(cookie) && Safe(cookie.Value())
    ensures r.optedOut ==> cookie.Value() == State(map[], true, Some(now))
    ensures !r.optedOut ==>
      var stored :=
        if r.uidsCookie.Some? && r.uidsCookie.value.Some? then Decode(r.uidsCookie.value.value, now)
        else Fresh(now);
      var known := r.family in stored.uids && stored.uids[r.family].uid != "";
      if !known && r.hostUid.Some?
      then Next(stored, TrySync(r.family, r.hostUid.value, now), cookie.Value())
      else cookie.Value() == stored
  {
    cookie := new PbsCookie(now);
    if r.optedOut {
      cookie.SetPreference(false);
      return;
    }
    if r.uidsCookie.Some? {
      cookie.Unmarshal(r.uidsCookie.value, now);
      if r.uidsCookie.value.Some? {
        DecodeIsSafe(r.uidsCookie.value.value, now);
      }
    }
    var uid, _, _ := cookie.GetUid(r.family, now);
    if uid == "" && r.hostUid.Some? {
      var _ := cookie.TrySync(r.family, r.hostUid.value, now);
    }
  }
}
