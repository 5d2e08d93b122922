/**
 * `privacy/enforcement.go` and the per-bidder privacy loop of `cleanOpenRTBRequests`: one set of
 * flags is reused for all bidders, yet every bidder is treated by its own.
 */
module Privacy {
  import opened Lists
  import opened Scrubber

  datatype Enforcement = Enforcement(ccpa: bool, coppa: bool, gdprGeo: bool, gdprId: bool, lmt: bool) {
    predicate Any() {
      ccpa || coppa || gdprGeo || gdprId || lmt
    }

    function DeviceIds(): IdStrategy {
      if coppa || gdprId || ccpa || lmt then RemoveIds else KeepIds
    }

    function IPv4(): IPv4Strategy {
      if coppa || gdprGeo || ccpa || lmt then IPv4Lowest8 else KeepIPv4
    }

    function IPv6(): IPv6Strategy {
      if coppa then IPv6Lowest32
      else if gdprGeo || ccpa || lmt then IPv6Lowest16
      else KeepIPv6
    }

    function Position(): GeoStrategy {
      if coppa then GeoFull
      else if gdprGeo || ccpa || lmt then GeoReducedPrecision
      else KeepGeo
    }

    function Person(): UserStrategy {
      if coppa then UserIdAndDemographic
      else if ccpa || lmt then UserId
      else if gdprId then UserId
      else KeepUser
    }

    /** What a bidder sees of a device. */
    function DeviceSeen(d: DeviceFields): DeviceFields {
      DeviceAfter(d, DeviceIds(), IPv4(), IPv6(), Position())
    }

    /** What a bidder sees of a user. */
    function UserSeen(u: UserFields): UserFields {
      UserAfter(u, Person(), Position())
    }
  }

  /** Everything the first asks for, the second asks for too. */
  ghost predicate AtMost(e: Enforcement, e': Enforcement) {
    (e.ccpa ==> e'.ccpa) && (e.coppa ==> e'.coppa) && (e.gdprGeo ==> e'.gdprGeo) && (e.gdprId ==> e'.gdprId) &&
      (e.lmt ==> e'.lmt)
  }

  /** Without any policy nothing is withheld, so not calling the scrubber at all is right. */
  lemma NoPolicyNoChange(e: Enforcement, d: DeviceFields, u: UserFields)
    requires !e.Any()
    ensures e.DeviceSeen(d) == d && e.UserSeen(u) == u
  {
  }

  /** Under COPPA the bidder sees two devices as one exactly when they differ in personal data only. */
  lemma CoppaDevice(e: Enforcement, d: DeviceFields, d': DeviceFields)
    requires e.coppa
    ensures e.DeviceSeen(d) == e.DeviceSeen(d') <==> SameButPersonal(d, d')
  {
    StrictDeviceReveals(d, d');
  }

  lemma CoppaUser(e: Enforcement, u: UserFields, u': UserFields)
    requires e.coppa
    ensures e.UserSeen(u) == e.UserSeen(u') <==> SameUserButPersonal(u, u')
  {
    StrictUserReveals(u, u');
  }

  /**
   * CCPA, LMT or both kinds of GDPR restriction: ids, the last part of addresses and exact
   * coordinates are hidden, nothing else.
   */
  lemma RestrictedReveals(e: Enforcement, d: DeviceFields, d': DeviceFields, u: UserFields, u': UserFields)
    requires !e.coppa && (e.ccpa || e.lmt || (e.gdprGeo && e.gdprId))
    ensures e.DeviceSeen(d) == e.DeviceSeen(d') <==>
      d.rest == d'.rest && SameButLowest8(d.ip, d'.ip) && SameButLowest16(d.ipv6, d'.ipv6) && SameArea(d.geo, d'.geo)
    ensures e.UserSeen(u) == e.UserSeen(u') <==>
      u.rest == u'.rest && u.yob == u'.yob && u.gender == u'.gender && SameButIds(u.ext, u'.ext) &&
        SameArea(u.geo, u'.geo)
  {
    hide ScrubIPv4Lowest8, ScrubIPv6Lowest16, SameButLowest8, SameButLowest16, ScrubGeo, SameArea, ScrubExtIds,
      SameButIds;
    IPv4Reveals(d.ip, d'.ip);
    IPv6RevealsMore(d.ipv6, d'.ipv6);
    AreaReveals(d.geo, d'.geo);
    AreaReveals(u.geo, u'.geo);
    ExtReveals(u.ext, u'.ext);
  }

  /** Only the position is restricted: ids stay visible. */
  lemma GeoRestrictionReveals(e: Enforcement, d: DeviceFields, d': DeviceFields, u: UserFields, u': UserFields)
    requires e == Enforcement(false, false, true, false, false)
    ensures e.DeviceSeen(d) == e.DeviceSeen(d') <==>
      && SameIds(d, d') && d.rest == d'.rest
      && SameButLowest8(d.ip, d'.ip) && SameButLowest16(d.ipv6, d'.ipv6) && SameArea(d.geo, d'.geo)
    ensures e.UserSeen(u) == e.UserSeen(u') <==> u.(geo := None) == u'.(geo := None) && SameArea(u.geo, u'.geo)
  {
    hide ScrubIPv4Lowest8, ScrubIPv6Lowest16, SameButLowest8, SameButLowest16, ScrubGeo, SameArea;
    IPv4Reveals(d.ip, d'.ip);
    IPv6RevealsMore(d.ipv6, d'.ipv6);
    AreaReveals(d.geo, d'.geo);
    AreaReveals(u.geo, u'.geo);
  }

  /** Only ids are restricted: addresses and positions stay visible. */
  lemma IdRestrictionReveals(e: Enforcement, d: DeviceFields, d': DeviceFields, u: UserFields, u': UserFields)
    requires e == Enforcement(false, false, false, true, false)
    ensures e.DeviceSeen(d) == e.DeviceSeen(d') <==>
      d.ip == d'.ip && d.ipv6 == d'.ipv6 && d.geo == d'.geo && d.rest == d'.rest
    ensures e.UserSeen(u) == e.UserSeen(u') <==>
      u.rest == u'.rest && u.yob == u'.yob && u.gender == u'.gender && SameButIds(u.ext, u'.ext) && u.geo == u'.geo
  {
    hide ScrubExtIds, SameButIds;
    ExtReveals(u.ext, u'.ext);
  }

  /** Enforcing more policies never lets a bidder tell apart what it could not tell apart before. */
  lemma MorePoliciesTellNoMore(e: Enforcement, e': Enforcement, d: DeviceFields, d': DeviceFields, u: UserFields,
                               u': UserFields)
    requires AtMost(e, e')
    ensures e.DeviceSeen(d) == e.DeviceSeen(d') ==> e'.DeviceSeen(d) == e'.DeviceSeen(d')
    ensures e.UserSeen(u) == e.UserSeen(u') ==> e'.UserSeen(u) == e'.UserSeen(u')
  {
    hide ScrubIPv4Lowest8, ScrubIPv6Lowest16, ScrubIPv6Lowest32, Round, ScrubExtIds;
    if ScrubIPv6Lowest16(d.ipv6) == ScrubIPv6Lowest16(d'.ipv6) {
      FewerBitsFewerSecrets(d.ipv6, d'.ipv6);
    }
  }

  // ---------- requests ----------

  /** What a request shows: the contents of its device and user. */
  datatype View = View(device: Option<DeviceFields>, user: Option<UserFields>)

  /** A bidder's own copy of the request; the device and user it points to may be shared. */
  class BidRequest {
    var device: Device?
    var user: User?

    ghost function Seen(): View
      reads this, device, user
    {
      View(if device == null then None else Some(device.fields), if user == null then None else Some(user.fields))
    }
  }

  ghost function Scrubbed(e: Enforcement, v: View): View {
    View(if v.device.None? then None else Some(e.DeviceSeen(v.device.value)),
         if v.user.None? then None else Some(e.UserSeen(v.user.value)))
  }

  method Apply(e: Enforcement, bidRequest: BidRequest?)
    modifies bidRequest
    ensures bidRequest != null ==> bidRequest.Seen() == Scrubbed(e, old(bidRequest.Seen()))
  {
    hide DeviceAfter, UserAfter;
    if bidRequest != null && e.Any() {
      bidRequest.device := ScrubDevice(bidRequest.device, e.DeviceIds(), e.IPv4(), e.IPv6(), e.Position());
      bidRequest.user := ScrubUser(bidRequest.user, e.Person(), e.Position());
    } else if bidRequest != null {
      NothingToApply(e, bidRequest.Seen());
    }
  }

  lemma NothingToApply(e: Enforcement, v: View)
    requires !e.Any()
    ensures Scrubbed(e, v) == v
  {
  }

  datatype BidderRequest = BidderRequest(bidderName: string, bidderCoreName: string, bidRequest: BidRequest)

  /** The answer of the GDPR permissions about one vendor. */
  datatype GdprAnswer = GdprAnswer(bid: bool, geo: bool, id: bool, failed: bool)

  /** What the request and the account say: the decisions about a bidder are arbitrary functions of it. */
  datatype Policies = Policies(
    coppa: bool, lmt: bool, ccpa: string -> bool,
    gdprEnforced: bool, gdpr: (string, bool) -> GdprAnswer, basicVendors: Option<seq<string>>)
  {
    predicate WeakVendor(core: string) {
      basicVendors.Some? && core in basicVendors.value
    }

    predicate Allows(b: BidderRequest) {
      gdprEnforced ==> gdpr(b.bidderCoreName, WeakVendor(b.bidderCoreName)).bid
    }

    /** The flags for one bidder, as if it were alone. */
    function FlagsOf(b: BidderRequest): Enforcement {
      var answer := gdpr(b.bidderCoreName, WeakVendor(b.bidderCoreName));
      Enforcement(
        ccpa(b.bidderName), coppa,
        gdprEnforced && (answer.failed || !answer.geo),
        gdprEnforced && (answer.failed || !answer.id),
        lmt)
    }
  }

  method IsWeakVendor(p: Policies, core: string) returns (weak: bool)
    ensures weak == p.WeakVendor(core)
  {
    weak := false;
    if p.basicVendors.Some? {
      var vendors := p.basicVendors.value;
      for i := 0 to |vendors|
        invariant weak == (core in vendors[..i]) == false
      {
        if vendors[i] == core {
          return true;
        }
      }
      assert vendors[..|vendors|] == vendors;
    }
  }

  /** The flags after one turn of the loop, from whatever the previous bidder left. */
  method SetFlags(p: Policies, b: BidderRequest, before: Enforcement) returns (e: Enforcement, allowed: bool)
    requires before.coppa == p.coppa && before.lmt == p.lmt
    requires !p.gdprEnforced ==> !before.gdprGeo && !before.gdprId
    ensures e == p.FlagsOf(b) && allowed == p.Allows(b)
    ensures e.coppa == p.coppa && e.lmt == p.lmt && (!p.gdprEnforced ==> !e.gdprGeo && !e.gdprId)
  {
    allowed := true;
    e := before.(ccpa := p.ccpa(b.bidderName));
    if p.gdprEnforced {
      var weak := IsWeakVendor(p, b.bidderCoreName);
      var answer := p.gdpr(b.bidderCoreName, weak);
      allowed := answer.bid;
      if !answer.failed {
        e := e.(gdprGeo := !answer.geo);
        e := e.(gdprId := !answer.id);
      } else {
        e := e.(gdprGeo := true);
        e := e.(gdprId := true);
      }
    }
  }

  /** What a bidder's request shows in the end: scrubbed by its own flags, or as it was if the bidder may not bid. */
  ghost function Due(p: Policies, b: BidderRequest, was: View): View {
    if p.Allows(b) then Scrubbed(p.FlagsOf(b), was) else was
  }

  ghost predicate SameViewButPersonal(v: View, v': View) {
    && (v.device.Some? <==> v'.device.Some?) && (v.device.Some? ==> SameButPersonal(v.device.value, v'.device.value))
    && (v.user.Some? <==> v'.user.Some?) && (v.user.Some? ==> SameUserButPersonal(v.user.value, v'.user.value))
  }

  /**
   * Under COPPA a bidder's device and user are the same for two requests exactly when these differ
   * in personal data only.
   */
  lemma CoppaHidesPersonalData(p: Policies, b: BidderRequest, v: View, v': View)
    requires p.coppa && p.Allows(b)
    ensures Due(p, b, v) == Due(p, b, v') <==> SameViewButPersonal(v, v')
  {
    hide SameButPersonal, SameUserButPersonal, DeviceAfter, UserAfter;
    var e := p.FlagsOf(b);
    if v.device.Some? && v'.device.Some? {
      CoppaDevice(e, v.device.value, v'.device.value);
    }
    if v.user.Some? && v'.user.Some? {
      CoppaUser(e, v.user.value, v'.user.value);
    }
  }

  ghost function AllowedOf(p: Policies, all: seq<BidderRequest>): seq<BidderRequest> {
    Filter((b: BidderRequest) => p.Allows(b), all)
  }

  lemma AllowedStep(p: Policies, all: seq<BidderRequest>, n: nat)
    requires n < |all|
    ensures AllowedOf(p, all[..n + 1]) == AllowedOf(p, all[..n]) + if p.Allows(all[n]) then [all[n]] else []
  {
    assert all[..n + 1] == all[..n] + [all[n]];
    FilterAppend((b: BidderRequest) => p.Allows(b), all[..n], [all[n]]);
  }

  // ---------- in plain terms ----------

  /** The answer about the bidder; vendors the account lists are asked about with weak enforcement. */
  ghost function AnswerFor(p: Policies, b: BidderRequest): GdprAnswer {
    p.gdpr(b.bidderCoreName, p.basicVendors.Some? && b.bidderCoreName in p.basicVendors.value)
  }

  /** What a device shows afterwards: ids gone or kept, addresses and position coarse or kept. */
  ghost predicate DeviceShows(d: DeviceFields, d': DeviceFields, hideIds: bool, hidePlace: bool, child: bool) {
    && d'.rest == d.rest
    && (hideIds ==>
          && d'.didmd5 == "" && d'.didsha1 == "" && d'.dpidmd5 == "" && d'.dpidsha1 == ""
          && d'.ifa == "" && d'.macmd5 == "" && d'.macsha1 == "")
    && (!hideIds ==> SameIds(d, d'))
    && (!hidePlace ==> d'.ip == d.ip && d'.ipv6 == d.ipv6)
    && (hidePlace ==> CoarseAddresses(d, d', child))
    && GeoShows(d.geo, d'.geo, hidePlace, child)
  }

  /** The last part of an IPv4 address and the last one or two of an IPv6 address are zero. */
  ghost predicate CoarseAddresses(d: DeviceFields, d': DeviceFields, child: bool) {
    && ('.' !in d.ip ==> d'.ip == "") && (':' !in d.ipv6 ==> d'.ipv6 == "")
    && (forall high, low :: Splits(d.ip, '.', high, low) ==> d'.ip == high + ".0")
    && (!child ==> forall high, low :: SplitsOff(d.ipv6, high, low) ==> d'.ipv6 == high + ":0")
    && (child ==> forall high, low, lowest :: SplitsTwice(d.ipv6, high, low, lowest) ==> d'.ipv6 == high + ":0:0")
  }

  /** A position is kept, rounded to hundredths, or emptied. */
  ghost predicate GeoShows(geo: Option<Geo>, geo': Option<Geo>, hidePlace: bool, child: bool) {
    && (geo.Some? <==> geo'.Some?)
    && (!hidePlace ==> geo' == geo)
    && (hidePlace && child && geo.Some? ==> geo'.value == Geo(0.0, 0.0, ""))
    && (hidePlace && !child && geo.Some? ==>
          && geo'.value.rest == geo.value.rest
          && Near(geo.value.lat, geo'.value.lat) && Near(geo.value.lon, geo'.value.lon))
  }

  /** A whole number of hundredths close to the coordinate. */
  ghost predicate Near(x: real, x': real) {
    && (x' * 100.0).Floor as real == x' * 100.0
    && -0.005 < x' - x < 0.015
  }

  /** What a user shows afterwards. */
  ghost predicate UserShows(u: UserFields, u': UserFields, hideIds: bool, hidePlace: bool, child: bool) {
    && u'.rest == u.rest
    && (hideIds ==> u'.id == "" && u'.buyerUid == "" && SameButIds(u.ext, u'.ext))
    && (hideIds && u'.ext.Object? ==> "eids" !in u'.ext.members && "digitrust" !in u'.ext.members)
    && (!hideIds ==> u'.id == u.id && u'.buyerUid == u.buyerUid && u'.ext == u.ext)
    && (if child then u'.yob == 0 && u'.gender == "" else u'.yob == u.yob && u'.gender == u.gender)
    && GeoShows(u.geo, u'.geo, hidePlace, child)
  }

  /** What an allowed bidder's request shows, from the policies and the answer about it. */
  ghost predicate Shows(p: Policies, b: BidderRequest, was: View, now: View) {
    var answer := AnswerFor(p, b);
    var always := p.coppa || p.lmt || p.ccpa(b.bidderName);
    var hideIds := always || (p.gdprEnforced && (answer.failed || !answer.id));
    var hidePlace := always || (p.gdprEnforced && (answer.failed || !answer.geo));
    && (was.device.Some? <==> now.device.Some?) && (was.user.Some? <==> now.user.Some?)
    && (was.device.Some? ==> DeviceShows(was.device.value, now.device.value, hideIds, hidePlace, p.coppa))
    && (was.user.Some? ==> UserShows(was.user.value, now.user.value, hideIds, hidePlace, p.coppa))
  }

  lemma RoundedIsNear(x: real)
    ensures Near(x, Round(x))
  {
    RoundIsNear(x);
    assert Round(x) * 100.0 == Hundredths(x) as real;
  }

  lemma GeoInPlainTerms(e: Enforcement, geo: Option<Geo>)
    ensures GeoShows(geo, ScrubGeo(geo, e.Position()), e.coppa || e.gdprGeo || e.ccpa || e.lmt, e.coppa)
  {
    hide Round, Near;
    if geo.Some? {
      RoundedIsNear(geo.value.lat);
      RoundedIsNear(geo.value.lon);
    }
  }

  lemma AddressesInPlainTerms(d: DeviceFields, d': DeviceFields, child: bool)
    requires d'.ip == ScrubIPv4Lowest8(d.ip)
    requires d'.ipv6 == if child then ScrubIPv6Lowest32(d.ipv6) else ScrubIPv6Lowest16(d.ipv6)
    ensures CoarseAddresses(d, d', child)
  {
    hide Splits, SplitsOff, SplitsTwice, ScrubIPv4Lowest8, ScrubIPv6Lowest16, ScrubIPv6Lowest32;
    AddressForms(d.ip, "", "", "");
    AddressForms(d.ipv6, "", "", "");
    forall high, low | Splits(d.ip, '.', high, low) ensures d'.ip == high + ".0" {
      AddressForms(d.ip, high, low, "");
    }
    forall high, low | SplitsOff(d.ipv6, high, low) ensures !child ==> d'.ipv6 == high + ":0" {
      AddressForms(d.ipv6, high, low, "");
    }
    forall high, low, lowest | SplitsTwice(d.ipv6, high, low, lowest) ensures child ==> d'.ipv6 == high + ":0:0" {
      AddressForms(d.ipv6, high, low, lowest);
    }
  }

  lemma DeviceInPlainTerms(e: Enforcement, d: DeviceFields)
    ensures DeviceShows(d, e.DeviceSeen(d), e.coppa || e.gdprId || e.ccpa || e.lmt,
                        e.coppa || e.gdprGeo || e.ccpa || e.lmt, e.coppa)
  {
    hide ScrubIPv4Lowest8, ScrubIPv6Lowest16, ScrubIPv6Lowest32, ScrubGeo, CoarseAddresses, GeoShows;
    GeoInPlainTerms(e, d.geo);
    if e.coppa || e.gdprGeo || e.ccpa || e.lmt {
      AddressesInPlainTerms(d, e.DeviceSeen(d), e.coppa);
    }
  }

  lemma ExtInPlainTerms(ext: Ext)
    ensures SameButIds(ext, ScrubExtIds(ext))
    ensures ScrubExtIds(ext).Object? ==>
      "eids" !in ScrubExtIds(ext).members && "digitrust" !in ScrubExtIds(ext).members
  {
  }

  lemma UserInPlainTerms(e: Enforcement, u: UserFields)
    ensures UserShows(u, e.UserSeen(u), e.coppa || e.gdprId || e.ccpa || e.lmt,
                      e.coppa || e.gdprGeo || e.ccpa || e.lmt, e.coppa)
  {
    hide ScrubGeo, GeoShows, ScrubExtIds, SameButIds;
    GeoInPlainTerms(e, u.geo);
    ExtInPlainTerms(u.ext);
  }

  /** An allowed bidder's request shows what the policies and the answer about it call for. */
  lemma DueInPlainTerms(p: Policies, b: BidderRequest, was: View)
    requires p.Allows(b)
    ensures Shows(p, b, was, Due(p, b, was))
  {
    hide DeviceShows, UserShows, DeviceAfter, UserAfter;
    var e := p.FlagsOf(b);
    if was.device.Some? {
      DeviceInPlainTerms(e, was.device.value);
    }
    if was.user.Some? {
      UserInPlainTerms(e, was.user.value);
    }
  }

  /** Who is let through: everybody without GDPR, otherwise those about whom the answer is to bid. */
  lemma AllowedInPlainTerms(p: Policies, all: seq<BidderRequest>)
    ensures Subsequence(AllowedOf(p, all), all)
    ensures !p.gdprEnforced ==> AllowedOf(p, all) == all
    ensures forall b :: b in AllowedOf(p, all) <==> b in all && p.Allows(b)
    ensures forall b :: p.Allows(b) <==> !p.gdprEnforced || AnswerFor(p, b).bid
  {
    hide Filter, Subsequence;
    var keep := (b: BidderRequest) => p.Allows(b);
    FilterKeeps(keep, all);
    assert forall b :: b in Filter(keep, all) <==> multiset(Filter(keep, all))[b] > 0;
    assert forall b :: b in all <==> multiset(all)[b] > 0;
    if !p.gdprEnforced {
      EverybodyAllowed(p, all);
    }
  }

  lemma {:induction false} EverybodyAllowed(p: Policies, all: seq<BidderRequest>)
    requires !p.gdprEnforced
    ensures AllowedOf(p, all) == all
  {
    if all != [] {
      EverybodyAllowed(p, all[1..]);
    }
  }

  method CleanRequests(p: Policies, all: seq<BidderRequest>) returns (allowed: seq<BidderRequest>)
    requires forall i, j :: 0 <= i < j < |all| ==> all[i].bidRequest != all[j].bidRequest
    modifies set i | 0 <= i < |all| :: all[i].bidRequest
    ensures allowed == AllowedOf(p, all)
    ensures forall i :: 0 <= i < |all| ==> all[i].bidRequest.Seen() == Due(p, all[i], old(all[i].bidRequest.Seen()))
    ensures Subsequence(allowed, all) && (!p.gdprEnforced ==> allowed == all)
    ensures p.gdprEnforced ==> forall i :: 0 <= i < |all| ==> (all[i] in allowed <==> AnswerFor(p, all[i]).bid)
    ensures forall i :: 0 <= i < |all| && all[i] in allowed ==>
      Shows(p, all[i], old(all[i].bidRequest.Seen()), all[i].bidRequest.Seen())
    ensures forall i :: 0 <= i < |all| && all[i] !in allowed ==>
      all[i].bidRequest.Seen() == old(all[i].bidRequest.Seen())
  {
    hide Policies.Allows, Policies.FlagsOf, Scrubbed, AllowedOf, Shows, Subsequence, AnswerFor;
    allowed := CleanAll(p, all);
    AllowedInPlainTerms(p, all);
    forall i | 0 <= i < |all| && all[i] in allowed
      ensures Shows(p, all[i], old(all[i].bidRequest.Seen()), all[i].bidRequest.Seen())
    {
      DueInPlainTerms(p, all[i], old(all[i].bidRequest.Seen()));
    }
  }

  /** The loop over all bidders. */
  method CleanAll(p: Policies, all: seq<BidderRequest>) returns (allowed: seq<BidderRequest>)
    requires forall i, j :: 0 <= i < j < |all| ==> all[i].bidRequest != all[j].bidRequest
    modifies set i | 0 <= i < |all| :: all[i].bidRequest
    ensures allowed == AllowedOf(p, all)
    ensures forall i :: 0 <= i < |all| ==> all[i].bidRequest.Seen() == Due(p, all[i], old(all[i].bidRequest.Seen()))
  {
    hide Policies.Allows, Policies.FlagsOf, Scrubbed;
    var e := Enforcement(false, p.coppa, false, false, p.lmt);
    allowed := [];
    for n := 0 to |all|
      invariant e.coppa == p.coppa && e.lmt == p.lmt && (!p.gdprEnforced ==> !e.gdprGeo && !e.gdprId)
      invariant allowed == AllowedOf(p, all[..n])
      invariant forall i :: 0 <= i < n ==> all[i].bidRequest.Seen() == Due(p, all[i], old(all[i].bidRequest.Seen()))
      invariant forall i :: n <= i < |all| ==> unchanged(all[i].bidRequest)
    {
      var ok: bool;
      e, ok := SetFlags(p, all[n], e);
      AllowedStep(p, all, n);
      if ok {
        Apply(e, all[n].bidRequest);
        allowed := allowed + [all[n]];
      }
    }
    assert all[..|all|] == all;
  }
}
