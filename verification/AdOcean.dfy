/**
 * The AdOcean adapter: imps are packed first-fit into request URLs under 8000 characters, and the
 * `aid` parameters of a URL say later which imp a response belongs to.
 */
module AdOcean {
  import opened Lists

  const MAX_URI_LENGTH := 8000

  /** One imp in a request. */
  datatype Slot = Slot(slave: string, imp: string, sizes: string)

  /** A request URL: master id, `aid` values, `aosspsizes` value, and the encoded text of everything else. */
  datatype Url = Url(master: string, aid: seq<string>, sizes: Option<string>, rest: string)

  /** A request as a value: its slots in the order they were added. */
  datatype Pack = Pack(master: string, rest: string, slots: seq<Slot>)

  /** An imp to place. `rest` is what a new URL for it would hold besides its slot, if one can be made. */
  datatype Job = BadExt | Job(master: string, slot: Slot, rest: Option<string>)

  // ---------- lengths ----------

  function HexDigit(n: nat): char
    requires n < 16
  {
    "0123456789ABCDEF"[n]
  }

  /** Query escaping of one byte. */
  function EscapeChar(c: char): string {
    if 'A' <= c <= 'Z' || 'a' <= c <= 'z' || '0' <= c <= '9' || c in "-_.~" then [c]
    else if c == ' ' then "+"
    else ['%', HexDigit(c as int / 16 % 16), HexDigit(c as int % 16)]
  }

  function Escape(s: string): string {
    if s == "" then "" else Escape(s[..|s| - 1]) + EscapeChar(s[|s| - 1])
  }

  function EscapedChar(c: char): nat {
    |EscapeChar(c)|
  }

  function Escaped(s: string): nat {
    if s == "" then 0 else Escaped(s[..|s| - 1]) + EscapedChar(s[|s| - 1])
  }

  function Entry(slot: Slot): string {
    slot.slave + ":" + slot.imp
  }

  function Entries(slots: seq<Slot>): (r: seq<string>)
    ensures |r| == |slots|
    ensures forall i :: 0 <= i < |slots| ==> r[i] == Entry(slots[i])
  {
    seq(|slots|, i requires 0 <= i < |slots| => Entry(slots[i]))
  }

  /** Each value is written as `&aid=` and its escaped text. */
  function AidLength(aid: seq<string>): nat {
    if aid == [] then 0 else AidLength(aid[..|aid| - 1]) + 5 + Escaped(aid[|aid| - 1])
  }

  /** `&aosspsizes=` and the escaped text, if the parameter is there. */
  function SizesLength(sizes: Option<string>): nat {
    if sizes.Some? then 12 + Escaped(sizes.value) else 0
  }

  function UrlLength(url: Url): nat {
    |url.rest| + AidLength(url.aid) + SizesLength(url.sizes)
  }

  function AidText(aid: seq<string>): string {
    if aid == [] then "" else AidText(aid[..|aid| - 1]) + "&aid=" + Escape(aid[|aid| - 1])
  }

  /** The URL as text, but for the order of its parameters. */
  function UrlText(url: Url): string {
    url.rest + AidText(url.aid) + if url.sizes.Some? then "&aosspsizes=" + Escape(url.sizes.value) else ""
  }

  lemma {:induction false} EscapeLength(s: string)
    ensures |Escape(s)| == Escaped(s)
  {
    if s != "" {
      EscapeLength(s[..|s| - 1]);
    }
  }

  lemma {:induction false} AidTextLength(aid: seq<string>)
    ensures |AidText(aid)| == AidLength(aid)
  {
    if aid != [] {
      AidTextLength(aid[..|aid| - 1]);
      EscapeLength(aid[|aid| - 1]);
    }
  }

  lemma UrlTextLength(url: Url)
    ensures |UrlText(url)| == UrlLength(url)
  {
    hide Escape, Escaped, AidText, AidLength;
    AidTextLength(url.aid);
    if url.sizes.Some? {
      EscapeLength(url.sizes.value);
    }
  }

  /** The slave id without the first "adocean". */
  function RawId(id: string): string {
    if id == "" then ""
    else if |id| >= 7 && id[..7] == "adocean" then id[7..]
    else [id[0]] + RawId(id[1..])
  }

  function SizeValue(slave: string, sizes: string): string {
    RawId(slave) + "~" + sizes
  }

  /** What a slave adds to the sizes parameter, with a dash; nothing if its sizes are empty. */
  function Weight(slave: string, sizes: string): nat {
    if sizes == "" then 0 else Escaped(SizeValue(slave, sizes)) + 1
  }

  function TotalWeight(slots: seq<Slot>): nat {
    if slots == [] then 0
    else TotalWeight(slots[..|slots| - 1]) + Weight(slots[|slots| - 1].slave, slots[|slots| - 1].sizes)
  }

  function PackLength(p: Pack): nat {
    |p.rest| + AidLength(Entries(p.slots)) + if TotalWeight(p.slots) == 0 then 0 else 11 + TotalWeight(p.slots)
  }

  // ---------- first fit on values ----------

  ghost predicate HasSlave(slots: seq<Slot>, slave: string) {
    exists i :: 0 <= i < |slots| && slots[i].slave == slave
  }

  function With(p: Pack, slot: Slot): Pack {
    p.(slots := p.slots + [slot])
  }

  ghost predicate Takes(p: Pack, master: string, slot: Slot) {
    p.master == master && !HasSlave(p.slots, slot.slave) && PackLength(With(p, slot)) < MAX_URI_LENGTH
  }

  /** The first pack from `i` on that takes the slot; the number of packs if none does. */
  ghost function FirstFit(packs: seq<Pack>, master: string, slot: Slot, i: nat): (k: nat)
    requires i <= |packs|
    ensures i <= k <= |packs|
    ensures k < |packs| ==> Takes(packs[k], master, slot)
    ensures forall j :: i <= j < k ==> !Takes(packs[j], master, slot)
    decreases |packs| - i
  {
    if i == |packs| || Takes(packs[i], master, slot) then i else FirstFit(packs, master, slot, i + 1)
  }

  ghost predicate Refused(packs: seq<Pack>, job: Job) {
    job.BadExt? || (job.rest.None? && FirstFit(packs, job.master, job.slot, 0) == |packs|)
  }

  ghost function Placed(packs: seq<Pack>, job: Job): seq<Pack> {
    if Refused(packs, job) then packs
    else
      var k := FirstFit(packs, job.master, job.slot, 0);
      if k < |packs| then packs[k := With(packs[k], job.slot)]
      else packs + [Pack(job.master, job.rest.value, [job.slot])]
  }

  ghost function Packed(jobs: seq<Job>): seq<Pack> {
    if jobs == [] then [] else Placed(Packed(jobs[..|jobs| - 1]), jobs[|jobs| - 1])
  }

  /** How many jobs were refused. */
  ghost function Errors(jobs: seq<Job>): nat {
    if jobs == [] then 0
    else
      var before := jobs[..|jobs| - 1];
      Errors(before) + if Refused(Packed(before), jobs[|jobs| - 1]) then 1 else 0
  }

  // ---------- the sizes parameter ----------

  function SizesOf(slots: seq<Slot>): map<string, string> {
    if slots == [] then map[] else SizesOf(slots[..|slots| - 1])[slots[|slots| - 1].slave := slots[|slots| - 1].sizes]
  }

  function SizeValues(order: seq<string>, sizes: map<string, string>): seq<string>
    requires forall k :: k in order ==> k in sizes
  {
    if order == [] then []
    else
      var n := |order| - 1;
      SizeValues(order[..n], sizes) + if sizes[order[n]] == "" then [] else [SizeValue(order[n], sizes[order[n]])]
  }

  function Join(values: seq<string>): string {
    if values == [] then ""
    else if |values| == 1 then values[0]
    else Join(values[..|values| - 1]) + "-" + values[|values| - 1]
  }

  ghost predicate Renders(param: Option<string>, order: seq<string>, sizes: map<string, string>) {
    && Enumerates(order, sizes.Keys)
    && param == (var values := SizeValues(order, sizes); if values == [] then None else Some(Join(values)))
  }

  /** The parameter lists the sizes in some order. */
  ghost predicate Rendered(param: Option<string>, sizes: map<string, string>) {
    exists order :: Renders(param, order, sizes)
  }

  function SumWeights(order: seq<string>, sizes: map<string, string>): nat
    requires forall k :: k in order ==> k in sizes
  {
    if order == [] then 0
    else SumWeights(order[..|order| - 1], sizes) + Weight(order[|order| - 1], sizes[order[|order| - 1]])
  }

  lemma {:induction false} EscapedAppend(a: string, b: string)
    ensures Escaped(a + b) == Escaped(a) + Escaped(b)
  {
    hide EscapedChar;
    if b == "" {
      assert a + b == a;
    } else {
      var n := |b| - 1;
      EscapedAppend(a, b[..n]);
      assert (a + b)[..|a + b| - 1] == a + b[..n];
    }
  }

  lemma {:induction false} JoinLength(order: seq<string>, sizes: map<string, string>)
    requires forall k :: k in order ==> k in sizes
    ensures var values := SizeValues(order, sizes);
            if values == [] then SumWeights(order, sizes) == 0
            else SumWeights(order, sizes) == Escaped(Join(values)) + 1
  {
    if order != [] {
      var n := |order| - 1;
      JoinLength(order[..n], sizes);
      var before := SizeValues(order[..n], sizes);
      if sizes[order[n]] != "" {
        var v := SizeValue(order[n], sizes[order[n]]);
        assert SizeValues(order, sizes) == before + [v];
        JoinStep(before, v);
      } else {
        assert SizeValues(order, sizes) == before;
      }
    }
  }

  lemma JoinStep(values: seq<string>, v: string)
    ensures Escaped(Join(values + [v])) == Escaped(v) + if values == [] then 0 else Escaped(Join(values)) + 1
  {
    if values != [] {
      assert (values + [v])[..|values|] == values;
      EscapedAppend(Join(values), "-");
      EscapedAppend(Join(values) + "-", v);
      assert Escaped("-") == 1;
    }
  }

  /** The sum does not depend on the order. */
  lemma {:induction false} SumWeightsOrder(a: seq<string>, b: seq<string>, sizes: map<string, string>)
    requires forall k :: k in a ==> k in sizes
    requires Distinct(a) && Distinct(b) && forall k :: k in a <==> k in b
    ensures SumWeights(a, sizes) == SumWeights(b, sizes)
  {
    if a == [] {
      assert forall i :: 0 <= i < |b| ==> b[i] in a;
    } else {
      var n := |a| - 1;
      assert a[n] in b;
      var i :| 0 <= i < |b| && b[i] == a[n];
      var b' := b[..i] + b[i + 1..];
      Removed(a, b, i);
      SumWeightsOrder(a[..n], b', sizes);
      SumWithout(b, i, sizes);
    }
  }

  lemma Removed(a: seq<string>, b: seq<string>, i: nat)
    requires a != [] && i < |b| && b[i] == a[|a| - 1]
    requires Distinct(a) && Distinct(b) && forall k :: k in a <==> k in b
    ensures var b' := b[..i] + b[i + 1..];
            Distinct(b') && forall k :: k in a[..|a| - 1] <==> k in b'
  {
    var a', b' := a[..|a| - 1], b[..i] + b[i + 1..];
    forall k ensures k in a' <==> k in b' {
      assert k in b' <==> k in b && k != b[i];
      assert a == a' + [a[|a| - 1]];
    }
  }

  lemma {:induction false} SumWithout(b: seq<string>, i: nat, sizes: map<string, string>)
    requires forall k :: k in b ==> k in sizes
    requires i < |b|
    ensures forall k :: k in b[..i] + b[i + 1..] ==> k in sizes
    ensures SumWeights(b, sizes) == SumWeights(b[..i] + b[i + 1..], sizes) + Weight(b[i], sizes[b[i]])
  {
    hide Weight;
    var n := |b| - 1;
    if i == n {
      assert b[..i] + b[i + 1..] == b[..n];
    } else {
      SumWithout(b[..n], i, sizes);
      var b' := b[..i] + b[i + 1..];
      assert b'[..n - 1] == b[..n][..i] + b[..n][i + 1..];
      assert b'[n - 1] == b[n];
    }
  }

  // ---------- URL and value agree ----------

  ghost predicate DistinctSlaves(slots: seq<Slot>) {
    forall i, j :: 0 <= i < j < |slots| ==> slots[i].slave != slots[j].slave
  }

  ghost function SlavesOf(slots: seq<Slot>): (r: seq<string>)
    ensures |r| == |slots| && forall i :: 0 <= i < |slots| ==> r[i] == slots[i].slave
  {
    seq(|slots|, i requires 0 <= i < |slots| => slots[i].slave)
  }

  /** The keys of the size table are the slave ids of the request. */
  lemma {:induction false} SizesOfKeys(slots: seq<Slot>, k: string)
    ensures k in SizesOf(slots) <==> HasSlave(slots, k)
    ensures k in SizesOf(slots) <==> k in SlavesOf(slots)
  {
    if slots != [] {
      var n := |slots| - 1;
      SizesOfKeys(slots[..n], k);
      assert slots == slots[..n] + [slots[n]];
      assert SlavesOf(slots) == SlavesOf(slots[..n]) + [slots[n].slave];
      assert HasSlave(slots, k) <==> HasSlave(slots[..n], k) || k == slots[n].slave;
    }
  }

  lemma {:induction false} SumWeightsFrame(order: seq<string>, sizes: map<string, string>, k: string, v: string)
    requires k !in order && forall x :: x in order ==> x in sizes
    ensures SumWeights(order, sizes[k := v]) == SumWeights(order, sizes)
  {
    if order != [] {
      SumWeightsFrame(order[..|order| - 1], sizes, k, v);
    }
  }

  lemma {:induction false} SlotWeights(slots: seq<Slot>)
    requires DistinctSlaves(slots)
    ensures forall k :: k in SlavesOf(slots) ==> k in SizesOf(slots)
    ensures SumWeights(SlavesOf(slots), SizesOf(slots)) == TotalWeight(slots)
  {
    hide Weight;
    forall k ensures k in SizesOf(slots) <==> k in SlavesOf(slots) {
      SizesOfKeys(slots, k);
    }
    if slots != [] {
      var n := |slots| - 1;
      SlotWeights(slots[..n]);
      assert SlavesOf(slots)[..n] == SlavesOf(slots[..n]);
      SumWeightsFrame(SlavesOf(slots[..n]), SizesOf(slots[..n]), slots[n].slave, slots[n].sizes);
    }
  }

  /** However the sizes are ordered, the URL has the length of the request as a value. */
  lemma RenderedLength(param: Option<string>, slots: seq<Slot>)
    requires DistinctSlaves(slots) && Rendered(param, SizesOf(slots))
    ensures SizesLength(param) == if TotalWeight(slots) == 0 then 0 else 11 + TotalWeight(slots)
  {
    hide SizeValues, SumWeights, TotalWeight, Join, Escaped;
    var order :| Renders(param, order, SizesOf(slots));
    SlotWeights(slots);
    JoinLength(order, SizesOf(slots));
    forall k ensures k in order <==> k in SlavesOf(slots) {
      SizesOfKeys(slots, k);
    }
    SumWeightsOrder(order, SlavesOf(slots), SizesOf(slots));
  }

  lemma {:induction false} NoValuesIff(order: seq<string>, sizes: map<string, string>)
    requires forall k :: k in order ==> k in sizes
    ensures SizeValues(order, sizes) == [] <==> forall k :: k in order ==> sizes[k] == ""
  {
    if order != [] {
      var n := |order| - 1;
      assert order == order[..n] + [order[n]];
      NoValuesIff(order[..n], sizes);
    }
  }

  /** A parameter left as it was because there is no size to show was absent before, too. */
  lemma NothingToShow(param: Option<string>, sizes: map<string, string>, slave: string, size: string,
                      order: seq<string>)
    requires Rendered(param, sizes) && slave !in sizes
    requires Enumerates(order, sizes[slave := size].Keys) && SizeValues(order, sizes[slave := size]) == []
    ensures Rendered(param, sizes[slave := size])
  {
    hide SizeValues, Join;
    var before :| Renders(param, before, sizes);
    NoValuesIff(before, sizes);
    NoValuesIff(order, sizes[slave := size]);
    assert forall k :: k in before ==> k in order && sizes[slave := size][k] == sizes[k];
    assert Renders(param, order, sizes[slave := size]);
  }

  // ---------- the code ----------

  method ListKeys(sizes: map<string, string>) returns (order: seq<string>)
    ensures Enumerates(order, sizes.Keys)
  {
    order := [];
    var left := sizes.Keys;
    while left != {}
      invariant left <= sizes.Keys
      invariant Enumerates(order, sizes.Keys - left)
      decreases |left|
    {
      var k :| k in left;
      order := order + [k];
      left := left - {k};
    }
  }

  method SetSlaveSizesParam(param: Option<string>, sizes: map<string, string>)
    returns (param': Option<string>, ghost order: seq<string>)
    ensures Enumerates(order, sizes.Keys)
    ensures if SizeValues(order, sizes) == [] then param' == param else Renders(param', order, sizes)
  {
    var slaveIds := ListKeys(sizes);
    order := slaveIds;
    var values: seq<string> := [];
    for i := 0 to |slaveIds|
      invariant values == SizeValues(slaveIds[..i], sizes)
    {
      assert slaveIds[..i + 1][..i] == slaveIds[..i];
      var size := sizes[slaveIds[i]];
      if size == "" {
        continue;
      }
      values := values + [SizeValue(slaveIds[i], size)];
    }
    assert slaveIds[..|slaveIds|] == slaveIds;
    param' := param;
    if |values| > 0 {
      param' := Some(Join(values));
    }
  }

  class RequestData {
    var url: Url
    var slaveSizes: map<string, string>

    /** The object holds this request. */
    ghost predicate Describes(p: Pack)
      reads this
    {
      && url.master == p.master && url.rest == p.rest
      && url.aid == Entries(p.slots)
      && slaveSizes == SizesOf(p.slots) && DistinctSlaves(p.slots)
      && Rendered(url.sizes, slaveSizes)
    }

    constructor (url: Url, slaveSizes: map<string, string>)
      ensures this.url == url && this.slaveSizes == slaveSizes
    {
      this.url, this.slaveSizes := url, slaveSizes;
    }

    /** Adds the slot if it fits; otherwise undoes what was written to the size table. */
    method TryAdd(ghost p: Pack, master: string, slot: Slot) returns (added: bool)
      requires Describes(p)
      modifies this
      ensures added <==> Takes(p, master, slot)
      ensures Describes(if added then With(p, slot) else p)
    {
      hide Rendered, UrlLength, UrlText, PackLength, Renders, DistinctSlaves, SizesOf;
      added := false;
      SizesOfKeys(p.slots, slot.slave);
      if url.master == master && slot.slave !in slaveSizes {
        ghost var before := slaveSizes;
        slaveSizes := slaveSizes[slot.slave := slot.sizes];
        var sizes, order := SetSlaveSizesParam(url.sizes, slaveSizes);
        Grown(p, slot, url.sizes, sizes, order);
        var newUrl := url.(aid := url.aid + [Entry(slot)], sizes := sizes);
        SameLength(newUrl, With(p, slot));
        if |UrlText(newUrl)| < MAX_URI_LENGTH {
          url := newUrl;
          return true;
        }
        slaveSizes := slaveSizes - {slot.slave};
        assert slaveSizes == before;
      }
    }
  }

  lemma Grown(p: Pack, slot: Slot, param: Option<string>, param': Option<string>, order: seq<string>)
    requires DistinctSlaves(p.slots) && slot.slave !in SizesOf(p.slots) && Rendered(param, SizesOf(p.slots))
    requires Enumerates(order, SizesOf(p.slots)[slot.slave := slot.sizes].Keys)
    requires var sizes := SizesOf(p.slots)[slot.slave := slot.sizes];
             if SizeValues(order, sizes) == [] then param' == param else Renders(param', order, sizes)
    ensures var q := With(p, slot);
            && Entries(q.slots) == Entries(p.slots) + [Entry(slot)]
            && SizesOf(q.slots) == SizesOf(p.slots)[slot.slave := slot.sizes]
            && DistinctSlaves(q.slots) && Rendered(param', SizesOf(q.slots))
  {
    hide Renders, Rendered, SizeValues;
    var q := With(p, slot);
    SizesOfKeys(p.slots, slot.slave);
    assert q.slots[..|p.slots|] == p.slots;
    var sizes := SizesOf(p.slots)[slot.slave := slot.sizes];
    if SizeValues(order, sizes) == [] {
      NothingToShow(param, SizesOf(p.slots), slot.slave, slot.sizes, order);
    } else {
      assert Rendered(param', sizes) by { Shown(param', order, sizes); }
    }
  }

  lemma Shown(param: Option<string>, order: seq<string>, sizes: map<string, string>)
    requires Renders(param, order, sizes)
    ensures Rendered(param, sizes)
  {
  }

  lemma SameLength(url: Url, p: Pack)
    requires url.rest == p.rest && url.aid == Entries(p.slots) && DistinctSlaves(p.slots) &&
      Rendered(url.sizes, SizesOf(p.slots))
    ensures |UrlText(url)| == UrlLength(url) == PackLength(p)
  {
    hide Rendered, UrlText;
    UrlTextLength(url);
    RenderedLength(url.sizes, p.slots);
  }

  /** The objects hold these requests. */
  ghost predicate Hold(requests: seq<RequestData>, packs: seq<Pack>)
    reads requests
  {
    && |requests| == |packs|
    && (forall i :: 0 <= i < |requests| ==> requests[i].Describes(packs[i]))
  }

  method AddToExistingRequest(requests: seq<RequestData>, ghost packs: seq<Pack>, master: string, slot: Slot)
    returns (added: bool)
    requires Distinct(requests) && Hold(requests, packs)
    modifies requests
    ensures var k := FirstFit(packs, master, slot, 0);
            && (added <==> k < |packs|)
            && Hold(requests, if added then packs[k := With(packs[k], slot)] else packs)
  {
    hide Takes, RequestData.Describes, With;
    for i := 0 to |requests|
      invariant Hold(requests, packs)
      invariant FirstFit(packs, master, slot, 0) == FirstFit(packs, master, slot, i)
    {
      var taken := requests[i].TryAdd(packs[i], master, slot);
      if taken {
        return true;
      }
    }
    return false;
  }

  method AddNewBid(requests: seq<RequestData>, ghost packs: seq<Pack>, job: Job)
    returns (requests': seq<RequestData>, failed: bool)
    requires Distinct(requests) && Hold(requests, packs)
    modifies requests
    ensures failed <==> Refused(packs, job)
    ensures Distinct(requests') && Hold(requests', Placed(packs, job))
    ensures forall i :: 0 <= i < |requests'| ==> requests'[i] in requests || fresh(requests'[i])
  {
    hide Takes, FirstFit, RequestData.Describes, With;
    requests' := requests;
    if job.BadExt? {
      return requests, true;
    }
    var added := AddToExistingRequest(requests, packs, job.master, job.slot);
    if added {
      return requests, false;
    }
    if job.rest.None? {
      return requests, true;
    }
    var r := NewRequest(job.master, job.slot, job.rest.value);
    requests' := requests + [r];
    failed := false;
  }

  method NewRequest(master: string, slot: Slot, rest: string) returns (r: RequestData)
    ensures fresh(r) && r.Describes(Pack(master, rest, [slot]))
  {
    var slaveSizes := map[slot.slave := slot.sizes];
    var sizes, order := SetSlaveSizesParam(None, slaveSizes);
    NewPack(slot, sizes, order);
    r := new RequestData(Url(master, [Entry(slot)], sizes, rest), slaveSizes);
  }

  lemma NewPack(slot: Slot, param: Option<string>, order: seq<string>)
    requires Enumerates(order, map[slot.slave := slot.sizes].Keys)
    requires var sizes := map[slot.slave := slot.sizes];
             if SizeValues(order, sizes) == [] then param == None else Renders(param, order, sizes)
    ensures Entries([slot]) == [Entry(slot)]
    ensures SizesOf([slot]) == map[slot.slave := slot.sizes]
    ensures DistinctSlaves([slot]) && Rendered(param, SizesOf([slot]))
  {
    assert [slot][..0] == [];
    assert SizesOf([slot]) == map[slot.slave := slot.sizes];
    assert Renders(param, order, SizesOf([slot]));
  }

  lemma HeldUnderLimit(url: Url, p: Pack)
    requires url.rest == p.rest && url.aid == Entries(p.slots) && Rendered(url.sizes, SizesOf(p.slots))
    requires PackOk(p) && |url.aid| >= 2
    ensures |UrlText(url)| < 8000
  {
    hide UrlText, Rendered;
    SameLength(url, p);
  }

  method MakeRequests(jobs: seq<Job>) returns (requests: seq<RequestData>, errors: nat)
    ensures fresh(requests)
    ensures Hold(requests, Packed(jobs)) && errors == if jobs == [] then 1 else Errors(jobs)
    ensures forall i :: 0 <= i < |requests| && |requests[i].url.aid| >= 2 ==> |UrlText(requests[i].url)| < 8000
  {
    hide Placed, Refused, UrlText;
    if |jobs| == 0 {
      return [], 1;
    }
    requests, errors := [], 0;
    for i := 0 to |jobs|
      invariant fresh(requests) && Distinct(requests)
      invariant Hold(requests, Packed(jobs[..i])) && errors == Errors(jobs[..i])
    {
      assert jobs[..i + 1][..i] == jobs[..i];
      var failed: bool;
      requests, failed := AddNewBid(requests, Packed(jobs[..i]), jobs[i]);
      if failed {
        errors := errors + 1;
      }
    }
    assert jobs[..|jobs|] == jobs;
    AlwaysWellPacked(jobs);
    forall i | 0 <= i < |requests| && |requests[i].url.aid| >= 2 ensures |UrlText(requests[i].url)| < 8000 {
      HeldUnderLimit(requests[i].url, Packed(jobs)[i]);
    }
  }

  // ---------- every run ----------

  ghost predicate PackOk(p: Pack) {
    && p.slots != [] && DistinctSlaves(p.slots)
    && (|p.slots| >= 2 ==> PackLength(p) < MAX_URI_LENGTH)
  }

  /** No slot of the later request could have been, or could now be, put into the earlier one. */
  ghost predicate NoRoomFor(earlier: Pack, later: Pack) {
    forall s :: s in later.slots ==> !Takes(earlier, later.master, s)
  }

  ghost predicate WellPacked(packs: seq<Pack>) {
    && (forall i :: 0 <= i < |packs| ==> PackOk(packs[i]))
    && (forall i, j :: 0 <= i < j < |packs| ==> NoRoomFor(packs[i], packs[j]))
  }

  lemma LengthStep(p: Pack, s: Slot)
    ensures PackLength(With(p, s)) ==
      |p.rest| + AidLength(Entries(p.slots)) + 5 + Escaped(Entry(s)) +
      (var w := TotalWeight(p.slots) + Weight(s.slave, s.sizes); if w == 0 then 0 else 11 + w)
    ensures AidLength(Entries(With(p, s).slots)) == AidLength(Entries(p.slots)) + 5 + Escaped(Entry(s))
    ensures TotalWeight(With(p, s).slots) == TotalWeight(p.slots) + Weight(s.slave, s.sizes)
  {
    hide Escaped, Weight;
    var q := With(p, s);
    assert q.slots[..|p.slots|] == p.slots;
    assert Entries(q.slots)[..|p.slots|] == Entries(p.slots);
  }

  /** A request that has grown takes nothing it did not take before. */
  lemma TakesShrinks(p: Pack, t: Slot, master: string, s: Slot)
    requires Takes(With(p, t), master, s)
    ensures Takes(p, master, s)
  {
    hide AidLength, TotalWeight, Weight, Escaped;
    LengthStep(p, s);
    LengthStep(p, t);
    LengthStep(With(p, t), s);
    var q := With(p, t);
    assert forall i :: 0 <= i < |p.slots| ==> p.slots[i] == q.slots[i];
  }

  lemma PackOkStep(p: Pack, master: string, s: Slot)
    requires PackOk(p) && Takes(p, master, s)
    ensures PackOk(With(p, s))
  {
    hide PackLength;
  }

  lemma NewPackOk(master: string, rest: string, s: Slot)
    ensures PackOk(Pack(master, rest, [s]))
  {
  }

  lemma PlacedWell(packs: seq<Pack>, job: Job)
    requires WellPacked(packs)
    ensures WellPacked(Placed(packs, job))
  {
    hide Takes, PackOk, FirstFit;
    if !Refused(packs, job) {
      var k := FirstFit(packs, job.master, job.slot, 0);
      var after := Placed(packs, job);
      if k < |packs| {
        PackOkStep(packs[k], job.master, job.slot);
      } else {
        NewPackOk(job.master, job.rest.value, job.slot);
      }
      FitsMaster(packs, job.master, job.slot);
      forall i, j | 0 <= i < j < |after| ensures NoRoomFor(after[i], after[j]) {
        forall s | s in after[j].slots ensures !Takes(after[i], after[j].master, s) {
          if i == k {
            GrownTakes(packs[k], job.slot, after[j].master, s);
          }
        }
      }
    }
  }

  lemma GrownTakes(p: Pack, t: Slot, master: string, s: Slot)
    ensures Takes(With(p, t), master, s) ==> Takes(p, master, s)
  {
    if Takes(With(p, t), master, s) {
      TakesShrinks(p, t, master, s);
    }
  }

  /**
   * In every run: requests with two or more slots are under the limit, slave ids in a request
   * differ, and first fit left no slot that an earlier request could take.
   */
  lemma {:induction false} AlwaysWellPacked(jobs: seq<Job>)
    ensures WellPacked(Packed(jobs))
  {
    hide WellPacked, Placed;
    if jobs == [] {
      NothingPacked();
    } else {
      AlwaysWellPacked(jobs[..|jobs| - 1]);
      PlacedWell(Packed(jobs[..|jobs| - 1]), jobs[|jobs| - 1]);
    }
  }

  lemma NothingPacked()
    ensures WellPacked([])
  {
  }

  /** The request cannot hold the slot: other master, slave id taken, or too long with it. */
  ghost predicate CannotHold(p: Pack, master: string, s: Slot) {
    || p.master != master
    || (exists i :: 0 <= i < |p.slots| && p.slots[i].slave == s.slave)
    || PackLength(Pack(p.master, p.rest, p.slots + [s])) >= 8000
  }

  /** Every slot is in the first request that can hold it. */
  lemma FirstFitInPlainTerms(jobs: seq<Job>, i: nat, j: nat, s: Slot)
    requires i < j < |Packed(jobs)| && s in Packed(jobs)[j].slots
    ensures CannotHold(Packed(jobs)[i], Packed(jobs)[j].master, s)
  {
    hide Packed, PackLength, PackOk;
    AlwaysWellPacked(jobs);
    assert NoRoomFor(Packed(jobs)[i], Packed(jobs)[j]);
  }

  /** An imp is refused only if its parameters are bad, or no URL can be made for it and no request can hold it. */
  lemma RefusedInPlainTerms(packs: seq<Pack>, job: Job)
    ensures Refused(packs, job) <==>
      || job.BadExt?
      || (job.rest.None? && forall i :: 0 <= i < |packs| ==> CannotHold(packs[i], job.master, job.slot))
  {
    hide PackLength;
    assert forall i :: 0 <= i < |packs| && job.Job? ==>
      (CannotHold(packs[i], job.master, job.slot) <==> !Takes(packs[i], job.master, job.slot));
  }

  /** A slot and the master it is sold under. */
  datatype Sold = Sold(master: string, slot: Slot)

  ghost function SoldIn(p: Pack): seq<Sold> {
    seq(|p.slots|, i requires 0 <= i < |p.slots| => Sold(p.master, p.slots[i]))
  }

  ghost function AllSold(packs: seq<Pack>): multiset<Sold> {
    if packs == [] then multiset{} else AllSold(packs[..|packs| - 1]) + multiset(SoldIn(packs[|packs| - 1]))
  }

  /** The imps that were not refused. */
  ghost function Accepted(jobs: seq<Job>): multiset<Sold> {
    if jobs == [] then multiset{}
    else
      var before, job := jobs[..|jobs| - 1], jobs[|jobs| - 1];
      Accepted(before) + if Refused(Packed(before), job) then multiset{} else multiset{Sold(job.master, job.slot)}
  }

  lemma {:induction false} AllSoldUpdate(packs: seq<Pack>, k: nat, s: Slot)
    requires k < |packs|
    ensures AllSold(packs[k := With(packs[k], s)]) == AllSold(packs) + multiset{Sold(packs[k].master, s)}
  {
    hide SoldIn, With;
    var n := |packs| - 1;
    var after := packs[k := With(packs[k], s)];
    if k < n {
      AllSoldUpdate(packs[..n], k, s);
      assert after[..n] == packs[..n][k := With(packs[k], s)];
    } else {
      assert after[..n] == packs[..n];
      SoldInWith(packs[k], s);
    }
  }

  lemma SoldInWith(p: Pack, s: Slot)
    ensures multiset(SoldIn(With(p, s))) == multiset(SoldIn(p)) + multiset{Sold(p.master, s)}
  {
    assert SoldIn(With(p, s)) == SoldIn(p) + [Sold(p.master, s)];
  }

  lemma AllSoldAppend(packs: seq<Pack>, p: Pack)
    ensures AllSold(packs + [p]) == AllSold(packs) + multiset(SoldIn(p))
  {
  }

  /** Every accepted imp is in exactly one request, exactly once, under its own master; every other one is an error. */
  lemma {:induction false} EveryImpPlacedOnce(jobs: seq<Job>)
    ensures AllSold(Packed(jobs)) == Accepted(jobs)
    ensures |Accepted(jobs)| + Errors(jobs) == |jobs|
  {
    hide Takes, AllSold, FirstFit, With;
    if jobs == [] {
      assert AllSold([]) == multiset{} by { SoldNothing(); }
    } else {
      var before, job := jobs[..|jobs| - 1], jobs[|jobs| - 1];
      var packs := Packed(before);
      EveryImpPlacedOnce(before);
      if !Refused(packs, job) {
        var k := FirstFit(packs, job.master, job.slot, 0);
        if k < |packs| {
          AllSoldUpdate(packs, k, job.slot);
          FitsMaster(packs, job.master, job.slot);
        } else {
          var p := Pack(job.master, job.rest.value, [job.slot]);
          AllSoldAppend(packs, p);
          assert SoldIn(p) == [Sold(job.master, job.slot)];
        }
      }
    }
  }

  lemma SoldNothing()
    ensures AllSold([]) == multiset{}
  {
  }

  lemma FitsMaster(packs: seq<Pack>, master: string, slot: Slot)
    ensures var k := FirstFit(packs, master, slot, 0); k < |packs| ==> packs[k].master == master
  {
    hide PackLength, HasSlave;
  }

  // ---------- reading the ids back ----------

  function IndexOf(s: string, c: char): (i: nat)
    ensures i <= |s| && (i < |s| ==> s[i] == c) && c !in s[..i]
    ensures i == |s| <==> c !in s
  {
    if s == "" || s[0] == c then 0
    else
      var i := IndexOf(s[1..], c) + 1;
      assert s[..i] == [s[0]] + s[1..][..i - 1];
      assert s == [s[0]] + s[1..];
      i
  }

  /** The slave ids and imp ids of a URL's `aid` values: each split at its first colon. */
  function Decoded(aid: seq<string>): map<string, string>
    requires forall i :: 0 <= i < |aid| ==> ':' in aid[i]
  {
    if aid == [] then map[]
    else
      var e := aid[|aid| - 1];
      Decoded(aid[..|aid| - 1])[e[..IndexOf(e, ':')] := e[IndexOf(e, ':') + 1..]]
  }

  method DecodeAid(aid: seq<string>) returns (m: map<string, string>)
    requires forall i :: 0 <= i < |aid| ==> ':' in aid[i]
    ensures m == Decoded(aid)
  {
    m := map[];
    for i := 0 to |aid|
      invariant m == Decoded(aid[..i])
    {
      assert aid[..i + 1][..i] == aid[..i];
      var colon := IndexOf(aid[i], ':');
      m := m[aid[i][..colon] := aid[i][colon + 1..]];
    }
    assert aid[..|aid|] == aid;
  }

  /** Which imp each slave id stands for. */
  ghost function ImpsOf(slots: seq<Slot>): map<string, string> {
    if slots == [] then map[] else ImpsOf(slots[..|slots| - 1])[slots[|slots| - 1].slave := slots[|slots| - 1].imp]
  }

  ghost predicate NoColons(slots: seq<Slot>) {
    forall i :: 0 <= i < |slots| ==> ':' !in slots[i].slave
  }

  lemma EntriesHaveColons(slots: seq<Slot>)
    ensures forall i :: 0 <= i < |slots| ==> ':' in Entries(slots)[i]
  {
  }

  lemma EntrySplits(s: Slot)
    requires ':' !in s.slave
    ensures var e := Entry(s); var i := IndexOf(e, ':');
            i < |e| && e[..i] == s.slave && e[i + 1..] == s.imp
  {
    var e := Entry(s);
    var i := IndexOf(e, ':');
    assert e[|s.slave|] == ':';
    assert forall j :: 0 <= j < |s.slave| ==> e[j] == s.slave[j];
    assert forall j :: 0 <= j < i ==> e[j] == e[..i][j];
    assert i == |s.slave|;
  }

  lemma {:induction false} DecodedWithoutColons(slots: seq<Slot>)
    requires NoColons(slots)
    ensures forall i :: 0 <= i < |slots| ==> ':' in Entries(slots)[i]
    ensures Decoded(Entries(slots)) == ImpsOf(slots)
  {
    EntriesHaveColons(slots);
    if slots != [] {
      var n := |slots| - 1;
      DecodedWithoutColons(slots[..n]);
      assert Entries(slots)[..n] == Entries(slots[..n]);
      EntrySplits(slots[n]);
    }
  }

  lemma {:induction false} DecodedKeysHaveNoColon(aid: seq<string>, k: string)
    requires forall i :: 0 <= i < |aid| ==> ':' in aid[i]
    requires k in Decoded(aid)
    ensures ':' !in k
  {
    if k in Decoded(aid[..|aid| - 1]) {
      DecodedKeysHaveNoColon(aid[..|aid| - 1], k);
    }
  }

  lemma {:induction false} ImpsOfKeys(slots: seq<Slot>, i: nat)
    requires i < |slots|
    ensures slots[i].slave in ImpsOf(slots)
  {
    var n := |slots| - 1;
    if i < n {
      ImpsOfKeys(slots[..n], i);
    }
  }

  /** Decoding gives back which imp each slave id stands for exactly when no slave id contains a colon. */
  lemma DecodeRecoversIff(slots: seq<Slot>)
    ensures forall i :: 0 <= i < |slots| ==> ':' in Entries(slots)[i]
    ensures Decoded(Entries(slots)) == ImpsOf(slots) <==> NoColons(slots)
  {
    hide Decoded, ImpsOf;
    EntriesHaveColons(slots);
    if NoColons(slots) {
      DecodedWithoutColons(slots);
    } else {
      var i :| 0 <= i < |slots| && ':' in slots[i].slave;
      ImpsOfKeys(slots, i);
      if slots[i].slave in Decoded(Entries(slots)) {
        DecodedKeysHaveNoColon(Entries(slots), slots[i].slave);
        assert false;
      }
    }
  }

  // ---------- reading the sizes back ----------

  /** `strings.Split`. */
  function SplitOn(s: string, c: char): (r: seq<string>)
    ensures r != [] && forall i :: 0 <= i < |r| ==> c !in r[i]
    decreases |s|
  {
    var i := IndexOf(s, c);
    if i == |s| then [s] else [s[..i]] + SplitOn(s[i + 1..], c)
  }

  lemma FirstColon(a: string, b: string, c: char)
    requires c !in a
    ensures IndexOf(a + [c] + b, c) == |a|
  {
    var s := a + [c] + b;
    var i := IndexOf(s, c);
    assert s[|a|] == c;
    assert forall j :: 0 <= j < |a| ==> s[j] == a[j];
    assert forall j :: 0 <= j < i ==> s[j] == s[..i][j];
  }

  lemma SplitFirst(front: string, rest: string, c: char)
    requires c !in front
    ensures SplitOn(front, c) == [front]
    ensures SplitOn(front + [c] + rest, c) == [front] + SplitOn(rest, c)
  {
    FirstColon(front, rest, c);
    var s := front + [c] + rest;
    assert s[..|front|] == front && s[|front| + 1..] == rest;
  }

  lemma {:induction false} SplitSnoc(a: string, b: string, c: char)
    requires c !in b
    ensures SplitOn(a + [c] + b, c) == SplitOn(a, c) + [b]
    decreases |a|
  {
    hide SplitOn, IndexOf;
    var i := IndexOf(a, c);
    SplitFirst(b, "", c);
    if i == |a| {
      SplitFirst(a, b, c);
    } else {
      var front, rest := a[..i], a[i + 1..];
      SplitFirst(front, rest, c);
      SplitFirst(front, rest + [c] + b, c);
      SplitSnoc(rest, b, c);
      assert a == front + [c] + rest;
      assert a + [c] + b == front + [c] + (rest + [c] + b);
    }
  }

  /** Splitting the parameter at its dashes gives the values back exactly when no value has a dash in it. */
  lemma {:induction false} JoinSplitsIff(values: seq<string>)
    requires values != []
    ensures SplitOn(Join(values), '-') == values <==> forall i :: 0 <= i < |values| ==> '-' !in values[i]
  {
    hide IndexOf, SplitOn;
    if forall i :: 0 <= i < |values| ==> '-' !in values[i] {
      var n := |values| - 1;
      if n == 0 {
        SplitFirst(values[0], "", '-');
        assert values == [values[0]];
      } else {
        JoinSplitsIff(values[..n]);
        SplitSnoc(Join(values[..n]), values[n], '-');
        assert Join(values) == Join(values[..n]) + ['-'] + values[n];
        assert values == values[..n] + [values[n]];
      }
    }
  }

  /** The text before the first tilde is the raw id, the text behind it the sizes. */
  ghost predicate Reads(value: string, raw: string, sizes: string) {
    var i := IndexOf(value, '~');
    i < |value| && value[..i] == raw && value[i + 1..] == sizes
  }

  lemma ValueReads(slave: string, sizes: string)
    requires '~' !in RawId(slave)
    ensures Reads(SizeValue(slave, sizes), RawId(slave), sizes)
  {
    var v := SizeValue(slave, sizes);
    assert v == RawId(slave) + ['~'] + sizes;
    FirstColon(RawId(slave), sizes, '~');
    assert v[..|RawId(slave)|] == RawId(slave) && v[|RawId(slave)| + 1..] == sizes;
  }

  /** One value per slave with sizes, each read as its raw id and sizes, in order. */
  lemma {:induction false} ValuesRead(order: seq<string>, sizes: map<string, string>, shown: seq<string>)
    requires forall k :: k in order ==> k in sizes && '~' !in RawId(k)
    requires shown == Filter(k => k in sizes && sizes[k] != "", order)
    ensures |SizeValues(order, sizes)| == |shown|
    ensures forall i :: 0 <= i < |shown| ==>
      shown[i] in sizes && Reads(SizeValues(order, sizes)[i], RawId(shown[i]), sizes[shown[i]])
  {
    hide Reads, RawId;
    var keep := k => k in sizes && sizes[k] != "";
    if order != [] {
      var n := |order| - 1;
      assert forall k :: k in order[..n] ==> k in order;
      ValuesRead(order[..n], sizes, Filter(keep, order[..n]));
      FilterSnoc(keep, order[..n], order[n]);
      assert order == order[..n] + [order[n]] && order[n] in order;
      ValueReads(order[n], sizes[order[n]]);
    }
  }

  /**
   * The parameter read back: one value per slave that has sizes, in some order, and each gives the
   * slave's raw id and sizes.
   */
  lemma SizesReadBack(param: Option<string>, sizes: map<string, string>) returns (shown: seq<string>)
    requires Rendered(param, sizes)
    requires forall k :: k in sizes ==> '~' !in RawId(k) && '-' !in RawId(k) && '-' !in sizes[k]
    ensures Enumerates(shown, set k | k in sizes && sizes[k] != "")
    ensures param.None? <==> shown == []
    ensures param.Some? ==>
      && |SplitOn(param.value, '-')| == |shown|
      && forall i :: 0 <= i < |shown| ==>
           shown[i] in sizes && Reads(SplitOn(param.value, '-')[i], RawId(shown[i]), sizes[shown[i]])
  {
    hide Reads, RawId, SizeValue, SizeValues, Join;
    var order :| Renders(param, order, sizes);
    var keep := k => k in sizes && sizes[k] != "";
    shown := Filter(keep, order);
    ShownOnce(order, sizes);
    ValuesRead(order, sizes, shown);
    var values := SizeValues(order, sizes);
    if values != [] {
      forall k | k in sizes ensures '-' !in SizeValue(k, sizes[k]) {
        NoDash(k, sizes[k]);
      }
      NoDashes(order, sizes);
      JoinSplitsIff(values);
    }
  }

  lemma NoDash(slave: string, sizes: string)
    requires '-' !in RawId(slave) && '-' !in sizes
    ensures '-' !in SizeValue(slave, sizes)
  {
    hide RawId;
  }

  lemma {:induction false} NoDashes(order: seq<string>, sizes: map<string, string>)
    requires forall k :: k in order ==> k in sizes && '-' !in SizeValue(k, sizes[k])
    ensures forall i :: 0 <= i < |SizeValues(order, sizes)| ==> '-' !in SizeValues(order, sizes)[i]
  {
    hide SizeValue;
    if order != [] {
      var n := |order| - 1;
      assert forall k :: k in order[..n] ==> k in order;
      assert order[n] in order;
      NoDashes(order[..n], sizes);
    }
  }

  lemma {:induction false} ShownOnce(order: seq<string>, sizes: map<string, string>)
    requires Enumerates(order, sizes.Keys)
    ensures Enumerates(Filter(k => k in sizes && sizes[k] != "", order), set k | k in sizes && sizes[k] != "")
  {
    hide Filter, Subsequence;
    var keep := k => k in sizes && sizes[k] != "";
    var shown := Filter(keep, order);
    FilterKeeps(keep, order);
    DistinctCounts(order);
    assert forall k :: k in order <==> multiset(order)[k] > 0;
    assert forall k :: k in shown <==> multiset(shown)[k] > 0;
    CountsDistinct(shown);
  }

  lemma {:induction false} DistinctCounts(s: seq<string>)
    requires Distinct(s)
    ensures forall x :: multiset(s)[x] <= 1
  {
    if s != [] {
      var n := |s| - 1;
      DistinctCounts(s[..n]);
      assert s == s[..n] + [s[n]];
      assert s[n] !in s[..n];
    }
  }

  lemma CountsDistinct(s: seq<string>)
    requires forall x :: multiset(s)[x] <= 1
    ensures Distinct(s)
  {
    forall i, j | 0 <= i < j < |s| ensures s[i] != s[j] {
      assert s == s[..j] + [s[j]] + s[j + 1..];
      assert s[i] in s[..j];
      assert multiset(s)[s[j]] == multiset(s[..j])[s[j]] + 1 + multiset(s[j + 1..])[s[j]];
    }
  }

  /** The raw id is what follows a leading "adocean"; in general one occurrence of it is cut out, or nothing. */
  lemma {:induction false} RawIdCuts(id: string, rest: string) returns (before: string, after: string)
    ensures RawId("adocean" + rest) == rest
    ensures RawId(id) == id || (id == before + "adocean" + after && RawId(id) == before + after)
    decreases |id|
  {
    assert ("adocean" + rest)[..7] == "adocean" && ("adocean" + rest)[7..] == rest;
    before, after := "", "";
    if |id| >= 7 && id[..7] == "adocean" {
      after := id[7..];
    } else if id != "" {
      before, after := RawIdCuts(id[1..], rest);
      before := [id[0]] + before;
      assert id == [id[0]] + id[1..];
    }
  }
}
