/**
 * `privacy/scrubber.go`: copies of a device or user with personal data removed, and exactly what
 * the copies still reveal.
 */
module Scrubber {
  import opened Lists

  datatype Geo = Geo(lat: real, lon: real, rest: string)

  const EmptyGeo := Geo(0.0, 0.0, "")

  /** The fields of a device that scrubbing looks at, and the others. */
  datatype DeviceFields = DeviceFields(
    didmd5: string, didsha1: string, dpidmd5: string, dpidsha1: string, ifa: string, macmd5: string, macsha1: string,
    ip: string, ipv6: string, geo: Option<Geo>, rest: string)

  /** The `ext` of a user: empty, not a JSON object, null, or an object whose values are left as text. */
  datatype Ext = Empty | Unreadable(text: string) | Null | Object(members: map<string, string>)

  datatype UserFields = UserFields(
    id: string, buyerUid: string, ext: Ext, yob: int, gender: string, geo: Option<Geo>, rest: string)

  /** Requests point to devices and users; several requests may point to the same one. */
  class Device {
    var fields: DeviceFields
    constructor (fields: DeviceFields)
      ensures this.fields == fields
    {
      this.fields := fields;
    }
  }

  class User {
    var fields: UserFields
    constructor (fields: UserFields)
      ensures this.fields == fields
    {
      this.fields := fields;
    }
  }

  datatype IdStrategy = KeepIds | RemoveIds
  datatype IPv4Strategy = KeepIPv4 | IPv4Lowest8
  datatype IPv6Strategy = KeepIPv6 | IPv6Lowest16 | IPv6Lowest32
  datatype GeoStrategy = KeepGeo | GeoFull | GeoReducedPrecision
  datatype UserStrategy = KeepUser | UserIdAndDemographic | UserId

  // ---------- addresses ----------

  function LastIndex(s: string, c: char): (i: int)
    ensures -1 <= i < |s|
    ensures i >= 0 ==> s[i] == c
    ensures forall j :: i < j < |s| ==> s[j] != c
  {
    if s == "" then -1 else if s[|s| - 1] == c then |s| - 1 else LastIndex(s[..|s| - 1], c)
  }

  function ScrubIPv4Lowest8(ip: string): string {
    var i := LastIndex(ip, '.');
    if i == -1 then "" else ip[..i] + ".0"
  }

  function RemoveLowestSegment(ip: string): string {
    var i := LastIndex(ip, ':');
    if i == -1 then "" else ip[..i]
  }

  function ScrubIPv6Lowest16(ip: string): string {
    var high := RemoveLowestSegment(ip);
    if high != "" then high + ":0" else high
  }

  function ScrubIPv6Lowest32(ip: string): string {
    var high := RemoveLowestSegment(RemoveLowestSegment(ip));
    if high != "" then high + ":0:0" else high
  }

  /** `low` is what follows the last `c`. */
  ghost predicate Splits(s: string, c: char, high: string, low: string) {
    s == high + [c] + low && c !in low
  }

  /** The addresses agree up to and including the last dot, if there is one. */
  ghost predicate SameButLowest8(ip: string, ip': string) {
    || ('.' !in ip && '.' !in ip')
    || exists high, low, low' :: Splits(ip, '.', high, low) && Splits(ip', '.', high, low')
  }

  ghost predicate SplitsTwice(s: string, high: string, a: string, b: string) {
    s == high + ":" + a + ":" + b && ':' !in a && ':' !in b && high != ""
  }

  /** The addresses agree in what comes before their last two segments, if anything does. */
  ghost predicate SameButLowest32(ip: string, ip': string) {
    || (!(exists high, a, b :: SplitsTwice(ip, high, a, b)) && !(exists high, a, b :: SplitsTwice(ip', high, a, b)))
    || exists high, a, b, a', b' :: SplitsTwice(ip, high, a, b) && SplitsTwice(ip', high, a', b')
  }

  lemma SplitAtLast(s: string, c: char, high: string, low: string)
    ensures Splits(s, c, high, low) <==>
      (LastIndex(s, c) >= 0 && high == s[..LastIndex(s, c)] && low == s[LastIndex(s, c) + 1..])
  {
    var i := LastIndex(s, c);
    if Splits(s, c, high, low) {
      assert s[|high|] == c;
      assert forall j :: |high| < j < |s| ==> s[j] == low[j - |high| - 1];
      assert s[..|high|] == high && s[|high| + 1..] == low;
    }
    if i >= 0 {
      assert s == s[..i] + [c] + s[i + 1..];
    }
  }

  lemma NoLast(s: string, c: char)
    ensures LastIndex(s, c) == -1 <==> c !in s
  {
  }

  lemma SameAboveLast(ip: string, ip': string, c: char)
    requires LastIndex(ip, c) >= 0 && LastIndex(ip', c) >= 0
    ensures ip[..LastIndex(ip, c)] == ip'[..LastIndex(ip', c)]
            <==> exists high, low, low' :: Splits(ip, c, high, low) && Splits(ip', c, high, low')
  {
    hide LastIndex, Splits;
    var i, i' := LastIndex(ip, c), LastIndex(ip', c);
    if ip[..i] == ip'[..i'] {
      SplitAtLast(ip, c, ip[..i], ip[i + 1..]);
      SplitAtLast(ip', c, ip'[..i'], ip'[i' + 1..]);
    } else if high, low, low' :| Splits(ip, c, high, low) && Splits(ip', c, high, low') {
      SplitAtLast(ip, c, high, low);
      SplitAtLast(ip', c, high, low');
      assert false;
    }
  }

  /** The scrubbed address tells everything above the last dot and nothing else. */
  lemma IPv4Reveals(ip: string, ip': string)
    ensures ScrubIPv4Lowest8(ip) == ScrubIPv4Lowest8(ip') <==> SameButLowest8(ip, ip')
  {
    hide LastIndex, Splits;
    NoLast(ip, '.');
    NoLast(ip', '.');
    var i, i' := LastIndex(ip, '.'), LastIndex(ip', '.');
    if i >= 0 && i' >= 0 {
      SameAboveLast(ip, ip', '.');
      SuffixCancels(ip[..i], ip'[..i'], ".0");
    } else if high, low, low' :| Splits(ip, '.', high, low) && Splits(ip', '.', high, low') {
      SplitAtLast(ip, '.', high, low);
      SplitAtLast(ip', '.', high, low');
      assert false;
    }
  }

  lemma SuffixCancels(a: string, b: string, suffix: string)
    ensures a + suffix == b + suffix <==> a == b
  {
    if a + suffix == b + suffix {
      assert a == (a + suffix)[..|a|];
      assert b == (b + suffix)[..|b|];
    }
  }

  lemma SegmentsAbove(s: string, high: string, a: string, b: string)
    requires SplitsTwice(s, high, a, b)
    ensures RemoveLowestSegment(RemoveLowestSegment(s)) == high
  {
    var above := high + ":" + a;
    assert Splits(s, ':', above, b);
    SplitAtLast(s, ':', above, b);
    SplitAtLast(above, ':', high, a);
  }

  lemma SegmentsExist(s: string) returns (a: string, b: string)
    requires RemoveLowestSegment(RemoveLowestSegment(s)) != ""
    ensures SplitsTwice(s, RemoveLowestSegment(RemoveLowestSegment(s)), a, b)
  {
    var above := RemoveLowestSegment(s);
    var i, j := LastIndex(s, ':'), LastIndex(above, ':');
    a, b := above[j + 1..], s[i + 1..];
    SplitAtLast(s, ':', s[..i], b);
    SplitAtLast(above, ':', above[..j], a);
  }

  lemma IPv6Reveals(ip: string, ip': string)
    ensures ScrubIPv6Lowest32(ip) == ScrubIPv6Lowest32(ip') <==> SameButLowest32(ip, ip')
  {
    hide RemoveLowestSegment, SplitsTwice;
    var high, high' := RemoveLowestSegment(RemoveLowestSegment(ip)), RemoveLowestSegment(RemoveLowestSegment(ip'));
    SuffixCancels(high, high', ":0:0");
    HighIsHigh(ip);
    HighIsHigh(ip');
    if h, a, b, a', b' :| SplitsTwice(ip, h, a, b) && SplitsTwice(ip', h, a', b') {
      SegmentsAbove(ip, h, a, b);
      SegmentsAbove(ip', h, a', b');
    } else if high == high' != "" {
      var a, b := SegmentsExist(ip);
      var a', b' := SegmentsExist(ip');
      assert false;
    }
  }

  /** Only the low part is replaced, and by zeros. */
  lemma AddressForms(s: string, high: string, low: string, lowest: string)
    ensures Splits(s, '.', high, low) ==> ScrubIPv4Lowest8(s) == high + ".0"
    ensures SplitsOff(s, high, low) ==> ScrubIPv6Lowest16(s) == high + ":0"
    ensures SplitsTwice(s, high, low, lowest) ==> ScrubIPv6Lowest32(s) == high + ":0:0"
    ensures '.' !in s ==> ScrubIPv4Lowest8(s) == ""
    ensures ':' !in s ==> ScrubIPv6Lowest16(s) == "" && ScrubIPv6Lowest32(s) == ""
  {
    hide LastIndex;
    NoLast(s, '.');
    NoLast(s, ':');
    NoLast("", ':');
    SplitAtLast(s, '.', high, low);
    SegmentAbove(s, high, low);
    if SplitsTwice(s, high, low, lowest) {
      SegmentsAbove(s, high, low, lowest);
    }
  }

  /** The addresses agree in what comes before their last segment, if anything does. */
  ghost predicate SameButLowest16(ip: string, ip': string) {
    || (!(exists high, low :: SplitsOff(ip, high, low)) && !(exists high, low :: SplitsOff(ip', high, low)))
    || exists high, low, low' :: SplitsOff(ip, high, low) && SplitsOff(ip', high, low')
  }

  ghost predicate SplitsOff(s: string, high: string, low: string) {
    Splits(s, ':', high, low) && high != ""
  }

  lemma SegmentAbove(s: string, high: string, low: string)
    ensures SplitsOff(s, high, low) ==> RemoveLowestSegment(s) == high != ""
    ensures RemoveLowestSegment(s) != "" ==> exists low :: SplitsOff(s, RemoveLowestSegment(s), low)
  {
    hide LastIndex, Splits;
    SplitAtLast(s, ':', high, low);
    var i := LastIndex(s, ':');
    if i >= 0 {
      SplitAtLast(s, ':', s[..i], s[i + 1..]);
      assert i > 0 ==> SplitsOff(s, s[..i], s[i + 1..]);
    }
  }

  lemma IPv6RevealsMore(ip: string, ip': string)
    ensures ScrubIPv6Lowest16(ip) == ScrubIPv6Lowest16(ip') <==> SameButLowest16(ip, ip')
  {
    hide RemoveLowestSegment, SplitsOff;
    var above, above' := RemoveLowestSegment(ip), RemoveLowestSegment(ip');
    SuffixCancels(above, above', ":0");
    SegmentAbove(ip, above, "");
    SegmentAbove(ip', above', "");
    if high, low :| SplitsOff(ip, high, low) {
      SegmentAbove(ip, high, low);
    }
    if high, low :| SplitsOff(ip', high, low) {
      SegmentAbove(ip', high, low);
    }
    if high, low, low' :| SplitsOff(ip, high, low) && SplitsOff(ip', high, low') {
      SegmentAbove(ip, high, low);
      SegmentAbove(ip', high, low');
    }
  }

  lemma HighIsHigh(ip: string)
    ensures RemoveLowestSegment(RemoveLowestSegment(ip)) != "" <==> exists high, a, b :: SplitsTwice(ip, high, a, b)
  {
    hide RemoveLowestSegment;
    if RemoveLowestSegment(RemoveLowestSegment(ip)) != "" {
      var a, b := SegmentsExist(ip);
    } else if high, a, b :| SplitsTwice(ip, high, a, b) {
      SegmentsAbove(ip, high, a, b);
      assert false;
    }
  }

  // ---------- positions and ids ----------

  /** Conversion to `int` drops the fraction. */
  function Truncate(x: real): int {
    if x >= 0.0 then x.Floor else -(-x).Floor
  }

  function Hundredths(x: real): int {
    Truncate(x * 100.0 + 0.5)
  }

  function Round(x: real): real {
    Hundredths(x) as real / 100.0
  }

  function ScrubGeo(geo: Option<Geo>, strategy: GeoStrategy): Option<Geo> {
    if geo.None? then None
    else match strategy
      case KeepGeo => geo
      case GeoFull => Some(EmptyGeo)
      case GeoReducedPrecision => Some(geo.value.(lat := Round(geo.value.lat), lon := Round(geo.value.lon)))
  }

  const IdKeys := {"eids", "digitrust"}

  function ScrubExtIds(ext: Ext): Ext {
    if ext.Object? then Object(ext.members - IdKeys) else ext
  }

  method ScrubUserExtIds(userExt: Ext) returns (r: Ext)
    ensures r == ScrubExtIds(userExt)
  {
    if userExt.Empty? || userExt.Unreadable? || userExt.Null? {
      return userExt;
    }
    var parsed := userExt.members;
    if "eids" in parsed || "digitrust" in parsed {
      parsed := parsed - {"eids"};
      parsed := parsed - {"digitrust"};
      assert parsed == userExt.members - IdKeys;
      return Object(parsed);
    }
    assert userExt.members - IdKeys == userExt.members;
    return userExt;
  }

  // ---------- devices and users ----------

  /** What is left of a device. */
  function DeviceAfter(d: DeviceFields, id: IdStrategy, ipv4: IPv4Strategy, ipv6: IPv6Strategy,
                       geo: GeoStrategy): DeviceFields
  {
    var addressed := d.(
      ip := if ipv4.KeepIPv4? then d.ip else ScrubIPv4Lowest8(d.ip),
      ipv6 := match ipv6
        case KeepIPv6 => d.ipv6
        case IPv6Lowest16 => ScrubIPv6Lowest16(d.ipv6)
        case IPv6Lowest32 => ScrubIPv6Lowest32(d.ipv6),
      geo := ScrubGeo(d.geo, geo));
    if id.KeepIds? then addressed
    else DeviceFields("", "", "", "", "", "", "", addressed.ip, addressed.ipv6, addressed.geo, d.rest)
  }

  /** What is left of a user. */
  function UserAfter(u: UserFields, strategy: UserStrategy, geo: GeoStrategy): UserFields {
    var yob := if strategy.UserIdAndDemographic? then 0 else u.yob;
    var gender := if strategy.UserIdAndDemographic? then "" else u.gender;
    if strategy.KeepUser? then u.(geo := ScrubGeo(u.geo, geo))
    else UserFields("", "", ScrubExtIds(u.ext), yob, gender, ScrubGeo(u.geo, geo), u.rest)
  }

  method ScrubDevice(device: Device?, id: IdStrategy, ipv4: IPv4Strategy, ipv6: IPv6Strategy, geo: GeoStrategy)
    returns (r: Device?)
    ensures r == null <==> device == null
    ensures r != null ==> fresh(r) && r.fields == DeviceAfter(device.fields, id, ipv4, ipv6, geo)
  {
    hide ScrubIPv4Lowest8, ScrubIPv6Lowest16, ScrubIPv6Lowest32, ScrubGeo;
    if device == null {
      return null;
    }
    var copy := device.fields;
    if id == RemoveIds {
      copy := copy.(didmd5 := "");
      copy := copy.(didsha1 := "");
      copy := copy.(dpidmd5 := "");
      copy := copy.(dpidsha1 := "");
      copy := copy.(ifa := "");
      copy := copy.(macmd5 := "");
      copy := copy.(macsha1 := "");
    }
    if ipv4 == IPv4Lowest8 {
      copy := copy.(ip := ScrubIPv4Lowest8(device.fields.ip));
    }
    match ipv6 {
      case KeepIPv6 =>
      case IPv6Lowest16 => copy := copy.(ipv6 := ScrubIPv6Lowest16(device.fields.ipv6));
      case IPv6Lowest32 => copy := copy.(ipv6 := ScrubIPv6Lowest32(device.fields.ipv6));
    }
    copy := copy.(geo := ScrubGeo(device.fields.geo, geo));
    r := new Device(copy);
  }

  method ScrubUser(user: User?, strategy: UserStrategy, geo: GeoStrategy) returns (r: User?)
    ensures r == null <==> user == null
    ensures r != null ==> fresh(r) && r.fields == UserAfter(user.fields, strategy, geo)
  {
    if user == null {
      return null;
    }
    var copy := user.fields;
    if strategy == UserIdAndDemographic || strategy == UserId {
      copy := copy.(buyerUid := "");
      copy := copy.(id := "");
      var ext := ScrubUserExtIds(copy.ext);
      copy := copy.(ext := ext);
    }
    if strategy == UserIdAndDemographic {
      copy := copy.(yob := 0);
      copy := copy.(gender := "");
    }
    copy := copy.(geo := ScrubGeo(user.fields.geo, geo));
    r := new User(copy);
  }

  // ---------- scrubbing what is scrubbed ----------

  lemma IPv4Settles(ip: string)
    ensures ScrubIPv4Lowest8(ScrubIPv4Lowest8(ip)) == ScrubIPv4Lowest8(ip)
  {
    var i := LastIndex(ip, '.');
    if i >= 0 {
      var once := ip[..i] + ".0";
      assert Splits(once, '.', ip[..i], "0");
      SplitAtLast(once, '.', ip[..i], "0");
    }
  }

  lemma IPv6Settles(ip: string)
    ensures ScrubIPv6Lowest16(ScrubIPv6Lowest16(ip)) == ScrubIPv6Lowest16(ip)
    ensures ScrubIPv6Lowest32(ScrubIPv6Lowest32(ip)) == ScrubIPv6Lowest32(ip)
  {
    var high := RemoveLowestSegment(ip);
    assert RemoveLowestSegment("") == "";
    if high != "" {
      assert Splits(high + ":0", ':', high, "0");
      SplitAtLast(high + ":0", ':', high, "0");
    }
    var higher := RemoveLowestSegment(high);
    if higher != "" {
      assert higher + ":0:0" == higher + ":" + "0" + ":" + "0";
      SegmentsAbove(higher + ":0:0", higher, "0", "0");
    }
  }

  /** Rounding a rounded coordinate again changes it exactly when the coordinate is -0.015 or less. */
  lemma RoundSettlesIff(x: real)
    ensures Round(Round(x)) == Round(x) <==> x > -0.015
  {
    var t := Hundredths(x);
    HundredthsSign(x);
    HundredthsAgain(t);
    assert Round(x) * 100.0 == t as real;
  }

  lemma HundredthsSign(x: real)
    ensures Hundredths(x) >= 0 <==> x > -0.015
  {
  }

  lemma HundredthsAgain(t: int)
    ensures Truncate(t as real + 0.5) == if t >= 0 then t else t + 1
  {
  }

  /** Rounding goes to the nearest hundredth, except that it goes up, by up to 0.015, below -0.005. */
  lemma RoundIsNear(x: real)
    ensures x >= -0.005 ==> -0.005 < Round(x) - x <= 0.005
    ensures x < -0.005 ==> 0.005 <= Round(x) - x < 0.015
  {
    assert Round(x) * 100.0 == Hundredths(x) as real;
  }

  ghost predicate Settled(geo: Option<Geo>, strategy: GeoStrategy) {
    strategy.GeoReducedPrecision? && geo.Some? ==> geo.value.lat > -0.015 && geo.value.lon > -0.015
  }

  /** Scrubbing a scrubbed device changes nothing more, except coordinates of -0.015 or less that get rounded again. */
  lemma DeviceSettlesIff(d: DeviceFields, id: IdStrategy, ipv4: IPv4Strategy, ipv6: IPv6Strategy, geo: GeoStrategy)
    ensures var once := DeviceAfter(d, id, ipv4, ipv6, geo);
            DeviceAfter(once, id, ipv4, ipv6, geo) == once <==> Settled(d.geo, geo)
  {
    hide ScrubIPv4Lowest8, ScrubIPv6Lowest16, ScrubIPv6Lowest32, Round;
    IPv4Settles(d.ip);
    IPv6Settles(d.ipv6);
    if d.geo.Some? {
      RoundSettlesIff(d.geo.value.lat);
      RoundSettlesIff(d.geo.value.lon);
    }
  }

  lemma UserSettlesIff(u: UserFields, strategy: UserStrategy, geo: GeoStrategy)
    ensures var once := UserAfter(u, strategy, geo);
            UserAfter(once, strategy, geo) == once <==> Settled(u.geo, geo)
  {
    hide Round;
    if u.geo.Some? {
      RoundSettlesIff(u.geo.value.lat);
      RoundSettlesIff(u.geo.value.lon);
    }
    if u.ext.Object? {
      assert u.ext.members - IdKeys - IdKeys == u.ext.members - IdKeys;
    }
  }

  // ---------- what the copies reveal ----------

  /** The documents agree outside `eids` and `digitrust`. */
  ghost predicate SameButIds(ext: Ext, ext': Ext) {
    if ext.Object? && ext'.Object? then
      forall k :: k !in IdKeys ==>
        (k in ext.members <==> k in ext'.members) && (k in ext.members ==> ext.members[k] == ext'.members[k])
    else ext == ext'
  }

  lemma ExtReveals(ext: Ext, ext': Ext)
    ensures ScrubExtIds(ext) == ScrubExtIds(ext') <==> SameButIds(ext, ext')
  {
    if ext.Object? && ext'.Object? {
      var m, m' := ext.members - IdKeys, ext'.members - IdKeys;
      if m == m' {
        forall k | k !in IdKeys
          ensures (k in ext.members <==> k in ext'.members) && (k in ext.members ==> ext.members[k] == ext'.members[k])
        {
          assert k in ext.members <==> k in m;
          assert k in ext'.members <==> k in m';
        }
      }
    }
  }

  /** The devices agree outside ids, position and the low parts of addresses. */
  ghost predicate SameButPersonal(d: DeviceFields, d': DeviceFields) {
    && d.rest == d'.rest && (d.geo.Some? <==> d'.geo.Some?)
    && SameButLowest8(d.ip, d'.ip) && SameButLowest32(d.ipv6, d'.ipv6)
  }

  /** The users agree outside ids, year of birth, gender and position. */
  ghost predicate SameUserButPersonal(u: UserFields, u': UserFields) {
    u.rest == u'.rest && (u.geo.Some? <==> u'.geo.Some?) && SameButIds(u.ext, u'.ext)
  }

  /** The strictest strategies make two devices equal exactly when they differ in personal data only. */
  lemma StrictDeviceReveals(d: DeviceFields, d': DeviceFields)
    ensures var strict := x => DeviceAfter(x, RemoveIds, IPv4Lowest8, IPv6Lowest32, GeoFull);
            strict(d) == strict(d') <==> SameButPersonal(d, d')
  {
    hide ScrubIPv4Lowest8, ScrubIPv6Lowest32, SameButLowest8, SameButLowest32;
    IPv4Reveals(d.ip, d'.ip);
    IPv6Reveals(d.ipv6, d'.ipv6);
  }

  lemma StrictUserReveals(u: UserFields, u': UserFields)
    ensures var strict := x => UserAfter(x, UserIdAndDemographic, GeoFull);
            strict(u) == strict(u') <==> SameUserButPersonal(u, u')
  {
    hide ScrubExtIds, SameButIds;
    ExtReveals(u.ext, u'.ext);
  }

  ghost predicate SameIds(d: DeviceFields, d': DeviceFields) {
    && d.didmd5 == d'.didmd5 && d.didsha1 == d'.didsha1 && d.dpidmd5 == d'.dpidmd5 && d.dpidsha1 == d'.dpidsha1
    && d.ifa == d'.ifa && d.macmd5 == d'.macmd5 && d.macsha1 == d'.macsha1
  }

  /** The positions agree to the hundredth, and in everything but the coordinates. */
  ghost predicate SameArea(geo: Option<Geo>, geo': Option<Geo>) {
    && (geo.Some? <==> geo'.Some?)
    && (geo.Some? ==>
          && geo.value.rest == geo'.value.rest
          && Hundredths(geo.value.lat) == Hundredths(geo'.value.lat)
          && Hundredths(geo.value.lon) == Hundredths(geo'.value.lon))
  }

  lemma AreaReveals(geo: Option<Geo>, geo': Option<Geo>)
    ensures ScrubGeo(geo, GeoReducedPrecision) == ScrubGeo(geo', GeoReducedPrecision) <==> SameArea(geo, geo')
  {
    hide Hundredths;
    assert forall x, y :: Round(x) == Round(y) ==> Round(x) * 100.0 == Round(y) * 100.0;
    assert forall x :: Round(x) * 100.0 == Hundredths(x) as real;
  }

  /** Dropping 32 bits tells no more than dropping 16. */
  lemma FewerBitsFewerSecrets(ip: string, ip': string)
    requires ScrubIPv6Lowest16(ip) == ScrubIPv6Lowest16(ip')
    ensures ScrubIPv6Lowest32(ip) == ScrubIPv6Lowest32(ip')
  {
    SuffixCancels(RemoveLowestSegment(ip), RemoveLowestSegment(ip'), ":0");
  }
}
