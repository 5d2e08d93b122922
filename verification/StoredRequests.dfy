/**
 * Cached stored requests: `ComposedCache` stacks cache layers, and `fetcherWithCache` puts such
 * stacks in front of a backing fetcher. Layers may forget entries at any time.
 */
module StoredRequests {
  import opened Lists

  type Json = string
  type Data = map<string, Json>

  ghost predicate Within(a: Data, b: Data) {
    forall k :: k in a ==> k in b && a[k] == b[k]
  }

  function Members(ids: seq<string>): set<string> {
    set id | id in ids
  }

  /** The part of `m` at the given ids. */
  function Restrict(m: Data, ids: seq<string>): Data {
    map k | k in ids && k in m :: m[k]
  }

  /**
   * One cache. Unless it is reliable it may miss what it holds and drop whatever it likes when
   * written to; it never returns or keeps anything it was not given.
   */
  class Layer {
    const reliable: bool
    var entries: Data

    constructor (reliable: bool)
      ensures this.reliable == reliable && entries == map[]
    {
      this.reliable := reliable;
      entries := map[];
    }

    method Get(ids: seq<string>) returns (data: Data)
      ensures Within(data, Restrict(entries, ids))
      ensures reliable ==> data == Restrict(entries, ids)
    {
      data := Restrict(entries, ids);
      if !reliable {
        var missed: set<string> := *;
        data := data - missed;
      }
    }

    method Save(data: Data)
      modifies this
      ensures Within(entries, old(entries) + data)
      ensures reliable ==> entries == old(entries) + data
    {
      entries := entries + data;
      if !reliable {
        var evicted: set<string> := *;
        entries := entries - evicted;
      }
    }

    method Invalidate(ids: seq<string>)
      modifies this
      ensures Within(entries, old(entries) - Members(ids))
      ensures reliable ==> entries == old(entries) - Members(ids)
    {
      entries := entries - Members(ids);
      if !reliable {
        var evicted: set<string> := *;
        entries := entries - evicted;
      }
    }
  }

  // ---------- a stack of layers ----------

  /** The union of the answers in which earlier ones win. */
  ghost function FirstWins(answers: seq<Data>): Data {
    if answers == [] then map[]
    else answers[|answers| - 1] + FirstWins(answers[..|answers| - 1])
  }

  lemma FirstWinsSteps(answers: seq<Data>, answer: Data)
    ensures FirstWins([]) == map[]
    ensures FirstWins(answers + [answer]) == answer + FirstWins(answers)
  {
  }

  /** The ids not found yet, in order. */
  function Missing(ids: seq<string>, found: set<string>): seq<string> {
    if ids == [] then []
    else (if ids[0] in found then [] else [ids[0]]) + Missing(ids[1..], found)
  }

  lemma {:induction false} MissingMembers(ids: seq<string>, found: set<string>)
    ensures forall id :: id in Missing(ids, found) <==> id in ids && id !in found
  {
    if ids != [] {
      MissingMembers(ids[1..], found);
      assert forall id :: id in ids <==> id == ids[0] || id in ids[1..];
    }
  }

  lemma {:induction false} MissingSnoc(ids: seq<string>, id: string, found: set<string>)
    ensures Missing(ids + [id], found) == Missing(ids, found) + if id in found then [] else [id]
  {
    if ids == [] {
      assert ids + [id] == [id];
    } else {
      var head := if ids[0] in found then [] else [ids[0]];
      var last := if id in found then [] else [id];
      assert (ids + [id])[1..] == ids[1..] + [id] && (ids + [id])[0] == ids[0];
      MissingSnoc(ids[1..], id, found);
      assert head + (Missing(ids[1..], found) + last) == (head + Missing(ids[1..], found)) + last;
    }
  }

  lemma {:induction false} MissingTwice(ids: seq<string>, a: set<string>, b: set<string>)
    ensures Missing(Missing(ids, a), b) == Missing(ids, a + b)
  {
    if ids != [] {
      MissingTwice(ids[1..], a, b);
      if ids[0] in a {
        assert Missing(ids, a) == Missing(ids[1..], a);
      } else {
        assert Missing(ids, a)[1..] == Missing(ids[1..], a);
      }
    }
  }

  lemma {:induction false} NothingFound(ids: seq<string>)
    ensures Missing(ids, {}) == ids
  {
    if ids != [] {
      NothingFound(ids[1..]);
    }
  }

  lemma RestrictSnoc(m: Data, ids: seq<string>, id: string)
    ensures Restrict(m, ids + [id]) == if id in m then Restrict(m, ids)[id := m[id]] else Restrict(m, ids)
  {
  }

  method UpdateFromCache(data: Data, ids: seq<string>, newData: Data) returns (data': Data, remaining: seq<string>)
    ensures data' == data + Restrict(newData, ids)
    ensures remaining == Missing(ids, newData.Keys)
  {
    hide Missing, Restrict;
    data', remaining := data, ids;
    if |newData| > 0 {
      remaining := [];
      RestrictEnds(newData, []);
      for i := 0 to |ids|
        invariant remaining == Missing(ids[..i], newData.Keys)
        invariant data' == data + Restrict(newData, ids[..i])
      {
        assert ids[..i + 1] == ids[..i] + [ids[i]];
        MissingSnoc(ids[..i], ids[i], newData.Keys);
        RestrictSnoc(newData, ids[..i], ids[i]);
        if ids[i] in newData {
          data' := data'[ids[i] := newData[ids[i]]];
        } else {
          remaining := remaining + [ids[i]];
        }
      }
      assert ids[..|ids|] == ids;
    } else {
      assert newData.Keys == {};
      NothingFound(ids);
      RestrictEnds(newData, ids);
    }
  }

  lemma RestrictEnds(m: Data, ids: seq<string>)
    ensures (forall k :: k in m ==> k in ids) ==> Restrict(m, ids) == m
    ensures Restrict(m, []) == map[] && Missing([], m.Keys) == []
  {
  }

  class ComposedCache {
    const layers: seq<Layer>

    constructor (layers: seq<Layer>)
      ensures this.layers == layers
    {
      this.layers := layers;
    }

    /** No layer holds anything but what the truth says. */
    ghost predicate Coherent(truth: Data)
      reads layers
    {
      forall i :: 0 <= i < |layers| ==> Within(layers[i].entries, truth)
    }

    /** Some layer holds the id. */
    ghost predicate Holds(id: string)
      reads layers
    {
      exists i :: 0 <= i < |layers| && id in layers[i].entries
    }

    /**
     * Asks the layers in turn for what is still missing. `answers` is what they said: the first
     * answer for an id is the one returned, and asking stops early only when nothing is missing.
     */
    method Get(ids: seq<string>) returns (data: Data, ghost answers: seq<Data>)
      ensures |answers| <= |layers|
      ensures forall i :: 0 <= i < |answers| ==> Within(answers[i], Restrict(layers[i].entries, ids))
      ensures forall i :: 0 <= i < |answers| && layers[i].reliable ==>
        forall id :: id in ids && id in layers[i].entries ==> id in data
      ensures data == FirstWins(answers)
      ensures forall k :: k in data ==> k in ids
      ensures |answers| < |layers| ==> forall id :: id in ids ==> id in data
    {
      hide Missing, FirstWins;
      data, answers := map[], [];
      var remaining := ids;
      NothingFound(ids);
      assert data.Keys == {};
      FirstWinsSteps(answers, map[]);
      var i := 0;
      while i < |layers|
        invariant 0 <= i <= |layers| && |answers| == i
        invariant forall j :: 0 <= j < i ==> Within(answers[j], Restrict(layers[j].entries, ids))
        invariant forall j :: 0 <= j < i && layers[j].reliable ==>
          forall id :: id in ids && id in layers[j].entries ==> id in data
        invariant data == FirstWins(answers)
        invariant forall k :: k in data ==> k in ids
        invariant remaining == Missing(ids, data.Keys)
      {
        MissingMembers(ids, data.Keys);
        var cached := layers[i].Get(remaining);
        MissingTwice(ids, data.Keys, cached.Keys);
        RestrictEnds(cached, remaining);
        FirstWinsSteps(answers, cached);
        assert data + cached == cached + data;
        data, remaining := UpdateFromCache(data, remaining, cached);
        answers := answers + [cached];
        MissingMembers(ids, data.Keys);
        i := i + 1;
        if |remaining| == 0 {
          break;
        }
      }
    }

    method Save(data: Data)
      requires Distinct(layers)
      modifies layers
      ensures forall i :: 0 <= i < |layers| ==> Within(layers[i].entries, old(layers[i].entries) + data)
      ensures forall i :: 0 <= i < |layers| && layers[i].reliable ==> layers[i].entries == old(layers[i].entries) + data
    {
      for i := 0 to |layers|
        invariant forall j :: 0 <= j < i ==> Within(layers[j].entries, old(layers[j].entries) + data)
        invariant forall j :: 0 <= j < i && layers[j].reliable ==> layers[j].entries == old(layers[j].entries) + data
        invariant forall j :: i <= j < |layers| ==> layers[j].entries == old(layers[j].entries)
      {
        layers[i].Save(data);
      }
    }

    method Invalidate(ids: seq<string>)
      requires Distinct(layers)
      modifies layers
      ensures forall i :: 0 <= i < |layers| ==> Within(layers[i].entries, old(layers[i].entries) - Members(ids))
      ensures forall i :: 0 <= i < |layers| && layers[i].reliable ==>
        layers[i].entries == old(layers[i].entries) - Members(ids)
      ensures forall i, id :: 0 <= i < |layers| && id in ids ==> id !in layers[i].entries
    {
      for i := 0 to |layers|
        invariant forall j :: 0 <= j < i ==> Within(layers[j].entries, old(layers[j].entries) - Members(ids))
        invariant forall j :: 0 <= j < i && layers[j].reliable ==>
          layers[j].entries == old(layers[j].entries) - Members(ids)
        invariant forall j :: i <= j < |layers| ==> layers[j].entries == old(layers[j].entries)
      {
        layers[i].Invalidate(ids);
      }
    }
  }

  // ---------- the cached fetcher ----------

  datatype Error = NotFound(id: string, dataType: string) | OtherError(message: string)

  datatype Reply = Reply(requests: Data, imps: Data, errs: seq<Error>)

  /** Stored data as the backing fetcher sees it. */
  datatype World = World(requests: Data, imps: Data)

  function NotFoundErrors(ids: seq<string>, dataType: string): seq<Error> {
    seq(|ids|, i requires 0 <= i < |ids| => NotFound(ids[i], dataType))
  }

  /** What a fetcher answers that sees all of the world: the data asked for, and an error for each id it lacks. */
  function Answer(w: World, requestIds: seq<string>, impIds: seq<string>): Reply {
    Reply(Restrict(w.requests, requestIds), Restrict(w.imps, impIds),
          NotFoundErrors(Missing(requestIds, w.requests.Keys), "Request") +
            NotFoundErrors(Missing(impIds, w.imps.Keys), "Imp"))
  }

  lemma {:induction false} MissingCount(ids: seq<string>, found: set<string>)
    ensures forall id :: multiset(Missing(ids, found))[id] == if id in found then 0 else multiset(ids)[id]
  {
    if ids != [] {
      assert ids == [ids[0]] + ids[1..];
      MissingCount(ids[1..], found);
    }
  }

  lemma {:induction false} NotFoundCount(ids: seq<string>, dataType: string)
    ensures forall e: Error ::
      multiset(NotFoundErrors(ids, dataType))[e] ==
        if e.NotFound? && e.dataType == dataType then multiset(ids)[e.id] else 0
  {
    if ids != [] {
      var n := |ids| - 1;
      NotFoundCount(ids[..n], dataType);
      assert ids == ids[..n] + [ids[n]];
      assert NotFoundErrors(ids, dataType) == NotFoundErrors(ids[..n], dataType) + [NotFound(ids[n], dataType)];
    }
  }

  /** What the world has at the ids, and nothing else. */
  ghost predicate Holding(data: Data, stored: Data, ids: seq<string>) {
    forall id :: Lookup(data, id) == if id in ids then Lookup(stored, id) else None
  }

  /** One not-found error of the kind for every time a missing id was asked for. */
  ghost predicate Complains(errs: seq<Error>, dataType: string, stored: Data, ids: seq<string>) {
    forall id :: multiset(errs)[NotFound(id, dataType)] == if id in stored then 0 else multiset(ids)[id]
  }

  lemma AnswerErrors(w: World, requestIds: seq<string>, impIds: seq<string>, e: Error)
    ensures multiset(Answer(w, requestIds, impIds).errs)[e] ==
      (if e.NotFound? && e.dataType == "Request" && e.id !in w.requests then multiset(requestIds)[e.id] else 0)
      + (if e.NotFound? && e.dataType == "Imp" && e.id !in w.imps then multiset(impIds)[e.id] else 0)
  {
    hide Missing, NotFoundErrors;
    MissingCount(requestIds, w.requests.Keys);
    MissingCount(impIds, w.imps.Keys);
    NotFoundCount(Missing(requestIds, w.requests.Keys), "Request");
    NotFoundCount(Missing(impIds, w.imps.Keys), "Imp");
  }

  /** The data of an answer id by id, and its errors counted. */
  lemma AnswerInPlainTerms(w: World, requestIds: seq<string>, impIds: seq<string>)
    ensures var reply := Answer(w, requestIds, impIds);
            && Holding(reply.requests, w.requests, requestIds) && Holding(reply.imps, w.imps, impIds)
            && Complains(reply.errs, "Request", w.requests, requestIds)
            && Complains(reply.errs, "Imp", w.imps, impIds)
            && forall e :: e in reply.errs ==> e.NotFound?
  {
    hide Missing, NotFoundErrors;
    var errs := Answer(w, requestIds, impIds).errs;
    assert "Request" != "Imp" by { assert |"Request"| != |"Imp"|; }
    forall id
      ensures multiset(errs)[NotFound(id, "Request")] == (if id in w.requests then 0 else multiset(requestIds)[id])
      ensures multiset(errs)[NotFound(id, "Imp")] == (if id in w.imps then 0 else multiset(impIds)[id])
    {
      AnswerErrors(w, requestIds, impIds, NotFound(id, "Request"));
      AnswerErrors(w, requestIds, impIds, NotFound(id, "Imp"));
    }
    forall e | e in errs ensures e.NotFound? {
      AnswerErrors(w, requestIds, impIds, e);
      assert multiset(errs)[e] > 0;
    }
  }

  /** The backing fetcher. When it is not healthy it may leave data out and report anything. */
  class Backing {
    var world: World
    var healthy: bool

    constructor (world: World)
      ensures this.world == world && healthy
    {
      this.world, healthy := world, true;
    }

    method FetchRequests(requestIds: seq<string>, impIds: seq<string>) returns (reply: Reply)
      ensures Within(reply.requests, Restrict(world.requests, requestIds))
      ensures Within(reply.imps, Restrict(world.imps, impIds))
      ensures healthy ==> reply == Answer(world, requestIds, impIds)
    {
      reply := Answer(world, requestIds, impIds);
      if !healthy {
        var lostRequests: set<string> := *;
        var lostImps: set<string> := *;
        var errs: seq<Error> := *;
        reply := Reply(reply.requests - lostRequests, reply.imps - lostImps, errs);
      }
    }
  }

  lemma {:induction false} DataFits(ids: seq<string>, keys: set<string>)
    requires forall k :: k in keys ==> k in ids
    ensures |keys| <= |ids|
  {
    if ids == [] {
      assert keys == {};
    } else {
      DataFits(ids[1..], keys - {ids[0]});
      assert |keys| <= |keys - {ids[0]}| + 1;
    }
  }

  /** No data but at the ids. */
  predicate OnlyAsked(data: Data, ids: seq<string>) {
    forall k :: k in data ==> k in ids
  }

  /** None stands for the panic of reserving a negative capacity, which data at the ids alone cannot cause. */
  method FindLeftovers(ids: seq<string>, data: Data) returns (leftovers: Option<seq<string>>)
    ensures leftovers == if |data| > |ids| then None else Some(Missing(ids, data.Keys))
    ensures OnlyAsked(data, ids) ==> leftovers.Some?
  {
    hide Missing;
    if OnlyAsked(data, ids) {
      DataFits(ids, data.Keys);
    }
    if |ids| - |data| < 0 {
      return None;
    }
    var found: seq<string> := [];
    NothingMissingOfNothing(data.Keys);
    for i := 0 to |ids|
      invariant found == Missing(ids[..i], data.Keys)
    {
      assert ids[..i + 1] == ids[..i] + [ids[i]];
      MissingSnoc(ids[..i], ids[i], data.Keys);
      if ids[i] !in data {
        found := found + [ids[i]];
      }
    }
    assert ids[..|ids|] == ids;
    leftovers := Some(found);
  }

  method LeftoversOf(ids: seq<string>, data: Data) returns (leftovers: seq<string>)
    requires OnlyAsked(data, ids)
    ensures leftovers == Missing(ids, data.Keys)
  {
    var found := FindLeftovers(ids, data);
    leftovers := found.value;
  }

  method MergeData(cached: Data, fetched: Data) returns (merged: Data)
    ensures merged == cached + fetched
  {
    merged := cached;
    var left := fetched.Keys;
    while left != {}
      invariant left <= fetched.Keys
      invariant merged == cached + (fetched - left)
      decreases |left|
    {
      var key :| key in left;
      merged := merged[key := fetched[key]];
      left := left - {key};
    }
  }

  lemma {:induction false} FirstWinsWithin(answers: seq<Data>, truth: Data)
    requires forall i :: 0 <= i < |answers| ==> Within(answers[i], truth)
    ensures Within(FirstWins(answers), truth)
  {
    if answers != [] {
      FirstWinsWithin(answers[..|answers| - 1], truth);
    }
  }

  lemma NothingMissingOfNothing(found: set<string>)
    ensures Missing([], found) == []
  {
  }

  /** Cached data topped up with what the truth has at the leftover ids is the truth at all ids. */
  lemma TopUp(truth: Data, ids: seq<string>, cached: Data)
    requires Within(cached, Restrict(truth, ids))
    ensures cached + Restrict(truth, Missing(ids, cached.Keys)) == Restrict(truth, ids)
    ensures Missing(Missing(ids, cached.Keys), truth.Keys) == Missing(ids, truth.Keys)
    ensures Missing(ids, cached.Keys) == [] ==> cached == Restrict(truth, ids) && Missing(ids, truth.Keys) == []
  {
    hide Missing;
    MissingMembers(ids, cached.Keys);
    MissingTwice(ids, cached.Keys, truth.Keys);
    assert cached.Keys + truth.Keys == truth.Keys;
    if Missing(ids, cached.Keys) == [] {
      assert forall id :: id in ids ==> id !in Missing(ids, cached.Keys);
      assert Restrict(truth, Missing(ids, cached.Keys)) == map[];
      NothingMissingOfNothing(truth.Keys);
    }
  }

  /** The cached data and the backing fetcher's answer to the leftovers make up its answer to everything. */
  lemma AnswerInTwoParts(w: World, requestIds: seq<string>, impIds: seq<string>, requestData: Data, impData: Data)
    requires Within(requestData, Restrict(w.requests, requestIds)) && Within(impData, Restrict(w.imps, impIds))
    ensures var leftoverRequests, leftoverImps := Missing(requestIds, requestData.Keys), Missing(impIds, impData.Keys);
            var rest, whole := Answer(w, leftoverRequests, leftoverImps), Answer(w, requestIds, impIds);
            && whole == Reply(requestData + rest.requests, impData + rest.imps, rest.errs)
            && (leftoverRequests == [] && leftoverImps == [] ==> whole == Reply(requestData, impData, []))
            && Within(whole.requests, Restrict(w.requests, requestIds)) && Within(whole.imps, Restrict(w.imps, impIds))
  {
    hide Missing, Restrict;
    TopUp(w.requests, requestIds, requestData);
    TopUp(w.imps, impIds, impData);
  }

  class FetcherWithCache {
    const backing: Backing
    const requests: ComposedCache
    const imps: ComposedCache

    constructor (backing: Backing, requests: ComposedCache, imps: ComposedCache)
      ensures this.backing == backing && this.requests == requests && this.imps == imps
    {
      this.backing, this.requests, this.imps := backing, requests, imps;
    }

    /** Whatever any layer holds is what the backing fetcher would say. */
    ghost predicate Coherent()
      reads backing, requests.layers, imps.layers
    {
      requests.Coherent(backing.world.requests) && imps.Coherent(backing.world.imps)
    }

    /**
     * With a healthy backing fetcher the reply, errors included, is the one it would have given
     * itself. What no layer held is afterwards held by every reliable one.
     */
    method FetchRequests(requestIds: seq<string>, impIds: seq<string>) returns (reply: Reply)
      requires Separate(requests, imps) && Coherent()
      modifies requests.layers, imps.layers
      ensures Coherent()
      ensures Within(reply.requests, Restrict(backing.world.requests, requestIds))
      ensures Within(reply.imps, Restrict(backing.world.imps, impIds))
      ensures backing.healthy ==> reply == Answer(backing.world, requestIds, impIds)
      ensures forall l, id :: l in requests.layers && l.reliable && id in reply.requests ==>
        id in l.entries || old(requests.Holds(id))
      ensures forall l, id :: l in imps.layers && l.reliable && id in reply.imps ==>
        id in l.entries || old(imps.Holds(id))
    {
      hide Missing, Restrict, Within, OnlyAsked, ComposedCache.Coherent, Answer, Separate;
      ghost var world := backing.world;
      var requestData := AskCache(requests, requestIds, world.requests);
      var impData := AskCache(imps, impIds, world.imps);
      var leftoverImps := LeftoversOf(impIds, impData);
      var leftoverRequests := LeftoversOf(requestIds, requestData);
      AnswerInTwoParts(world, requestIds, impIds, requestData, impData);
      var errs := [];
      if |leftoverRequests| > 0 || |leftoverImps| > 0 {
        var fetched := backing.FetchRequests(leftoverRequests, leftoverImps);
        FetchedIsTrue(world.requests, requestIds, requestData, fetched.requests);
        FetchedIsTrue(world.imps, impIds, impData, fetched.imps);
        errs := fetched.errs;
        SaveBoth(requests, imps, fetched.requests, fetched.imps, world);
        requestData := MergeData(requestData, fetched.requests);
        impData := MergeData(impData, fetched.imps);
      }
      reply := Reply(requestData, impData, errs);
    }
  }

  /** A coherent cache answers with the truth or not at all. */
  method AskCache(cache: ComposedCache, ids: seq<string>, ghost truth: Data) returns (data: Data)
    requires cache.Coherent(truth)
    ensures Within(data, Restrict(truth, ids)) && OnlyAsked(data, ids)
    ensures forall k :: k in data ==> cache.Holds(k)
  {
    ghost var answers;
    data, answers := cache.Get(ids);
    CachedIsTrue(cache, truth, ids, answers);
    forall k | k in data ensures cache.Holds(k) {
      FirstWinsFrom(answers, k);
    }
  }

  lemma {:induction false} FirstWinsFrom(answers: seq<Data>, k: string)
    requires k in FirstWins(answers)
    ensures exists i :: 0 <= i < |answers| && k in answers[i]
  {
    var n := |answers| - 1;
    if k in answers[n] {
    } else {
      FirstWinsFrom(answers[..n], k);
      var i :| 0 <= i < n && k in answers[..n][i];
      assert k in answers[i];
    }
  }

  /** No cache layer is used twice. */
  ghost predicate Separate(requests: ComposedCache, imps: ComposedCache) {
    && Distinct(requests.layers) && Distinct(imps.layers)
    && forall l :: l in requests.layers ==> l !in imps.layers
  }

  /** Saved data becomes part of what a cache may hold. */
  method SaveOne(cache: ComposedCache, data: Data, ghost truth: Data)
    requires Distinct(cache.layers) && cache.Coherent(truth)
    modifies cache.layers
    ensures cache.Coherent(truth + data)
    ensures forall l :: l in cache.layers && l.reliable ==> l.entries == old(l.entries) + data
  {
    cache.Save(data);
  }

  /** Saving the truth keeps the caches coherent. */
  method SaveBoth(requests: ComposedCache, imps: ComposedCache, requestData: Data, impData: Data, ghost w: World)
    requires Separate(requests, imps) && requests.Coherent(w.requests) && imps.Coherent(w.imps)
    modifies requests.layers, imps.layers
    ensures requests.Coherent(w.requests + requestData) && imps.Coherent(w.imps + impData)
    ensures Within(requestData, w.requests) ==> requests.Coherent(w.requests)
    ensures Within(impData, w.imps) ==> imps.Coherent(w.imps)
    ensures forall l :: l in requests.layers && l.reliable ==> l.entries == old(l.entries) + requestData
    ensures forall l :: l in imps.layers && l.reliable ==> l.entries == old(l.entries) + impData
  {
    assert forall i :: 0 <= i < |imps.layers| ==> imps.layers[i] in imps.layers;
    SaveOne(requests, requestData, w.requests);
    SaveOne(imps, impData, w.imps);
    assert Within(requestData, w.requests) ==> w.requests + requestData == w.requests;
    assert Within(impData, w.imps) ==> w.imps + impData == w.imps;
  }

  // ---------- whole runs ----------

  datatype Edit = Edit(id: string, value: Option<Json>)

  function Edited(d: Data, edits: seq<Edit>): Data {
    if edits == [] then d
    else
      var before, last := Edited(d, edits[..|edits| - 1]), edits[|edits| - 1];
      if last.value.Some? then before[last.id := last.value.value] else before - {last.id}
  }

  function IdsOf(edits: seq<Edit>): seq<string> {
    seq(|edits|, i requires 0 <= i < |edits| => edits[i].id)
  }

  /**
   * A fetch; a change of the stored data followed by the invalidation of its ids; or new data
   * announced by a save event.
   */
  datatype Op =
    | Fetch(requestIds: seq<string>, impIds: seq<string>)
    | Change(requestEdits: seq<Edit>, impEdits: seq<Edit>)
    | Publish(requests: Data, imps: Data)

  function After(w: World, op: Op): World {
    match op
    case Fetch(_, _) => w
    case Change(requestEdits, impEdits) => World(Edited(w.requests, requestEdits), Edited(w.imps, impEdits))
    case Publish(requests, imps) => World(w.requests + requests, w.imps + imps)
  }

  /** The stored data after a run. */
  function WorldAfter(w: World, ops: seq<Op>): World {
    if ops == [] then w else After(WorldAfter(w, ops[..|ops| - 1]), ops[|ops| - 1])
  }

  lemma {:induction false} EditsOnlyTheirIds(d: Data, edits: seq<Edit>, k: string)
    requires k !in IdsOf(edits)
    ensures k in Edited(d, edits) <==> k in d
    ensures k in d ==> Edited(d, edits)[k] == d[k]
  {
    if edits != [] {
      var n := |edits| - 1;
      assert IdsOf(edits)[n] in IdsOf(edits);
      assert IdsOf(edits)[..n] == IdsOf(edits[..n]);
      EditsOnlyTheirIds(d, edits[..n], k);
    }
  }

  /** An edited id has what its last edit says. */
  lemma {:induction false} LastEditCounts(d: Data, edits: seq<Edit>, j: nat)
    requires j < |edits| && forall i :: j < i < |edits| ==> edits[i].id != edits[j].id
    ensures Lookup(Edited(d, edits), edits[j].id) == edits[j].value
  {
    if j < |edits| - 1 {
      LastEditCounts(d, edits[..|edits| - 1], j);
    }
  }

  lemma InvalidatedIsTrue(entries: Data, d: Data, edits: seq<Edit>)
    requires Within(entries, d)
    ensures Within(entries - Members(IdsOf(edits)), Edited(d, edits))
  {
    hide Edited, IdsOf;
    var left := entries - Members(IdsOf(edits));
    forall k | k in left ensures k in Edited(d, edits) && left[k] == Edited(d, edits)[k] {
      EditsOnlyTheirIds(d, edits, k);
    }
  }

  method InvalidateEdited(cache: ComposedCache, ghost d: Data, edits: seq<Edit>)
    requires Distinct(cache.layers) && cache.Coherent(d)
    modifies cache.layers
    ensures cache.Coherent(Edited(d, edits))
  {
    hide Edited, IdsOf;
    forall i | 0 <= i < |cache.layers|
      ensures Within(cache.layers[i].entries - Members(IdsOf(edits)), Edited(d, edits))
    {
      InvalidatedIsTrue(cache.layers[i].entries, d, edits);
    }
    cache.Invalidate(IdsOf(edits));
  }

  /** The reply to a fetch: nothing but the stored data, and with a healthy backing fetcher all it would answer. */
  ghost predicate Correct(w: World, op: Op, healthy: bool, reply: Reply)
    requires op.Fetch?
  {
    && Within(reply.requests, Restrict(w.requests, op.requestIds))
    && Within(reply.imps, Restrict(w.imps, op.impIds))
    && (healthy ==> reply == Answer(w, op.requestIds, op.impIds))
    && (forall id :: id in reply.requests ==> id in op.requestIds && Lookup(w.requests, id) == Some(reply.requests[id]))
    && (forall id :: id in reply.imps ==> id in op.impIds && Lookup(w.imps, id) == Some(reply.imps[id]))
    && (healthy ==>
          && Holding(reply.requests, w.requests, op.requestIds) && Holding(reply.imps, w.imps, op.impIds)
          && Complains(reply.errs, "Request", w.requests, op.requestIds)
          && Complains(reply.errs, "Imp", w.imps, op.impIds))
  }

  lemma CorrectInPlainTerms(w: World, op: Op, healthy: bool, reply: Reply)
    requires op.Fetch?
    requires Within(reply.requests, Restrict(w.requests, op.requestIds))
    requires Within(reply.imps, Restrict(w.imps, op.impIds))
    requires healthy ==> reply == Answer(w, op.requestIds, op.impIds)
    ensures Correct(w, op, healthy, reply)
  {
    hide Answer, Complains, Holding;
    AnswerInPlainTerms(w, op.requestIds, op.impIds);
  }

  /** One operation, while the backing fetcher is healthy or not. */
  method Perform(f: FetcherWithCache, op: Op, healthy: bool) returns (reply: Reply)
    requires Separate(f.requests, f.imps) && f.Coherent()
    modifies f.backing, f.requests.layers, f.imps.layers
    ensures f.Coherent() && f.backing.world == After(old(f.backing.world), op)
    ensures op.Fetch? ==> Correct(old(f.backing.world), op, healthy, reply)
  {
    hide Edited, Answer, Separate, ComposedCache.Coherent, Within;
    reply := Reply(map[], map[], []);
    f.backing.healthy := healthy;
    ghost var before := f.backing.world;
    match op
    case Fetch(requestIds, impIds) =>
      reply := f.FetchRequests(requestIds, impIds);
      CorrectInPlainTerms(before, op, healthy, reply);
    case Change(requestEdits, impEdits) =>
      f.backing.world := After(f.backing.world, op);
      InvalidateBoth(f.requests, f.imps, before, requestEdits, impEdits);
    case Publish(requests, imps) =>
      f.backing.world := After(f.backing.world, op);
      SaveBoth(f.requests, f.imps, requests, imps, before);
  }

  method InvalidateBoth(requests: ComposedCache, imps: ComposedCache, ghost w: World, requestEdits: seq<Edit>,
                        impEdits: seq<Edit>)
    requires Separate(requests, imps) && requests.Coherent(w.requests) && imps.Coherent(w.imps)
    modifies requests.layers, imps.layers
    ensures requests.Coherent(Edited(w.requests, requestEdits)) && imps.Coherent(Edited(w.imps, impEdits))
  {
    hide Edited, Within;
    InvalidateEdited(requests, w.requests, requestEdits);
    assert forall i :: 0 <= i < |imps.layers| ==> imps.layers[i] in imps.layers;
    InvalidateEdited(imps, w.imps, impEdits);
  }

  /**
   * In every run, every fetch is answered as if there were no cache, whenever the backing fetcher
   * can answer at all.
   */
  method Run(f: FetcherWithCache, ops: seq<Op>, health: seq<bool>) returns (replies: seq<Reply>)
    requires Separate(f.requests, f.imps) && f.Coherent() && |health| == |ops|
    modifies f.backing, f.requests.layers, f.imps.layers
    ensures f.Coherent() && f.backing.world == WorldAfter(old(f.backing.world), ops)
    ensures |replies| == |ops|
    ensures forall i :: 0 <= i < |ops| && ops[i].Fetch? ==>
      Correct(WorldAfter(old(f.backing.world), ops[..i]), ops[i], health[i], replies[i])
  {
    hide Correct, After, FetcherWithCache.Coherent;
    replies := [];
    for i := 0 to |ops|
      invariant f.Coherent() && f.backing.world == WorldAfter(old(f.backing.world), ops[..i])
      invariant |replies| == i
      invariant forall j :: 0 <= j < i && ops[j].Fetch? ==>
        Correct(WorldAfter(old(f.backing.world), ops[..j]), ops[j], health[j], replies[j])
    {
      assert ops[..i + 1][..i] == ops[..i];
      var reply := Perform(f, ops[i], health[i]);
      replies := replies + [reply];
    }
    assert ops[..|ops|] == ops;
  }

  lemma CachedIsTrue(cache: ComposedCache, truth: Data, ids: seq<string>, answers: seq<Data>)
    requires cache.Coherent(truth) && |answers| <= |cache.layers|
    requires forall i :: 0 <= i < |answers| ==> Within(answers[i], Restrict(cache.layers[i].entries, ids))
    ensures Within(FirstWins(answers), Restrict(truth, ids))
  {
    forall i | 0 <= i < |answers| ensures Within(answers[i], Restrict(truth, ids)) {
      assert Within(cache.layers[i].entries, truth);
    }
    FirstWinsWithin(answers, Restrict(truth, ids));
  }

  lemma FetchedIsTrue(truth: Data, ids: seq<string>, cached: Data, fetched: Data)
    requires Within(cached, Restrict(truth, ids))
    requires Within(fetched, Restrict(truth, Missing(ids, cached.Keys)))
    ensures Within(cached + fetched, Restrict(truth, ids)) && Within(fetched, truth)
  {
    MissingMembers(ids, cached.Keys);
  }
}
