/**
 * `MultiFetcher`: polls its fetchers in turn for what is still missing and accounts for errors
 * once, at the end.
 */
module MultiFetcher {
  import opened Lists
  import opened StoredRequests

  /** A sub-fetcher: its reply to request ids and imp ids. */
  type Fetcher = (seq<string>, seq<string>) -> Reply

  /** It returns no data that was not asked for. */
  ghost predicate Honest(f: Fetcher) {
    forall r, i :: (forall k :: k in f(r, i).requests ==> k in r) && (forall k :: k in f(r, i).imps ==> k in i)
  }

  /** The errors that say something else than that an id was not found, in order. */
  function Others(errs: seq<Error>): seq<Error> {
    Filter((e: Error) => !e.NotFound?, errs)
  }

  lemma OthersStep(errs: seq<Error>, i: nat)
    requires i < |errs|
    ensures Others(errs[..i + 1]) == Others(errs[..i]) + if errs[i].NotFound? then [] else [errs[i]]
  {
    assert errs[..i + 1] == errs[..i] + [errs[i]];
    FilterSnoc((e: Error) => !e.NotFound?, errs[..i], errs[i]);
  }

  /** Every other error is kept as often as it was given, in order. */
  ghost predicate OthersOf(kept: seq<Error>, errs: seq<Error>) {
    Subsequence(kept, errs) && forall e :: multiset(kept)[e] == if e.NotFound? then 0 else multiset(errs)[e]
  }

  lemma OthersKept(errs: seq<Error>)
    ensures OthersOf(Others(errs), errs)
  {
    hide Filter, Subsequence;
    FilterKeeps((e: Error) => !e.NotFound?, errs);
  }

  /** Compacts the slice in place: the kept errors overwrite its front. */
  method DropMissingIds(errs: array<Error>) returns (n: nat)
    modifies errs
    ensures n <= errs.Length && errs[..n] == Others(old(errs[..]))
    ensures OthersOf(errs[..n], old(errs[..]))
  {
    hide Others, OthersOf;
    ghost var given := errs[..];
    OthersKept(given);
    NoErrors();
    n := 0;
    for i := 0 to errs.Length
      invariant n <= i
      invariant errs[..n] == Others(given[..i])
      invariant forall j :: i <= j < errs.Length ==> errs[j] == given[j]
    {
      var e := errs[i];
      OthersStep(given, i);
      if !e.NotFound? {
        errs[n] := e;
        n := n + 1;
      }
    }
    assert given[..errs.Length] == given;
  }

  lemma NoErrors()
    ensures Others([]) == []
  {
  }

  /** The ids not excluded; the list itself if nothing is. */
  method FilterIds(original: seq<string>, exclude: Data) returns (filtered: seq<string>)
    ensures filtered == Missing(original, exclude.Keys)
  {
    hide Missing;
    if |exclude| == 0 {
      assert exclude.Keys == {};
      NothingFound(original);
      return original;
    }
    filtered := [];
    NothingMissingOfNothing(exclude.Keys);
    for i := 0 to |original|
      invariant filtered == Missing(original[..i], exclude.Keys)
    {
      assert original[..i + 1] == original[..i] + [original[i]];
      MissingSnoc(original[..i], original[i], exclude.Keys);
      if original[i] !in exclude {
        filtered := filtered + [original[i]];
      }
    }
    assert original[..|original|] == original;
  }

  /** One error for every occurrence of an id that was not found. */
  method AppendNotFoundErrors(dataType: string, expected: seq<string>, contains: Data, errs: seq<Error>)
    returns (all: seq<Error>)
    ensures all == errs + NotFoundErrors(Missing(expected, contains.Keys), dataType)
  {
    hide Missing;
    all := errs;
    NothingMissingOfNothing(contains.Keys);
    for i := 0 to |expected|
      invariant all == errs + NotFoundErrors(Missing(expected[..i], contains.Keys), dataType)
    {
      assert expected[..i + 1] == expected[..i] + [expected[i]];
      MissingSnoc(expected[..i], expected[i], contains.Keys);
      if expected[i] !in contains {
        all := all + [NotFound(expected[i], dataType)];
      }
    }
    assert expected[..|expected|] == expected;
  }

  function RequestsOf(replies: seq<Reply>): seq<Data> {
    seq(|replies|, i requires 0 <= i < |replies| => replies[i].requests)
  }

  function ImpsOf(replies: seq<Reply>): seq<Data> {
    seq(|replies|, i requires 0 <= i < |replies| => replies[i].imps)
  }

  /** Everything the fetchers complained about other than missing ids, in order. */
  ghost function OtherErrors(replies: seq<Reply>): seq<Error> {
    if replies == [] then []
    else OtherErrors(replies[..|replies| - 1]) + Others(replies[|replies| - 1].errs)
  }

  /** How often an error occurs in all the replies together. */
  ghost function Reported(replies: seq<Reply>, e: Error): nat {
    if replies == [] then 0
    else Reported(replies[..|replies| - 1], e) + multiset(replies[|replies| - 1].errs)[e]
  }

  lemma {:induction false} OtherErrorsCount(replies: seq<Reply>, e: Error)
    ensures multiset(OtherErrors(replies))[e] == if e.NotFound? then 0 else Reported(replies, e)
  {
    hide Others, Subsequence;
    if replies != [] {
      OtherErrorsCount(replies[..|replies| - 1], e);
      OthersKept(replies[|replies| - 1].errs);
    }
  }

  ghost function Found(replies: seq<Reply>): World {
    World(FirstWins(RequestsOf(replies)), FirstWins(ImpsOf(replies)))
  }

  /** The replies: every fetcher is asked for exactly what its predecessors did not find. */
  ghost function Polled(fetchers: seq<Fetcher>, requestIds: seq<string>, impIds: seq<string>): (replies: seq<Reply>)
    ensures |replies| == |fetchers|
  {
    if fetchers == [] then []
    else
      var n := |fetchers| - 1;
      var before := Polled(fetchers[..n], requestIds, impIds);
      var found := Found(before);
      before + [fetchers[n](Missing(requestIds, found.requests.Keys), Missing(impIds, found.imps.Keys))]
  }

  /** First-wins data, the other errors in order, and one error for every occurrence of an id found nowhere. */
  ghost function Combined(fetchers: seq<Fetcher>, requestIds: seq<string>, impIds: seq<string>): Reply {
    var replies := Polled(fetchers, requestIds, impIds);
    var found := Found(replies);
    Reply(found.requests, found.imps,
          OtherErrors(replies)
          + NotFoundErrors(Missing(requestIds, found.requests.Keys), "Request")
          + NotFoundErrors(Missing(impIds, found.imps.Keys), "Imp"))
  }

  lemma CombinedCount(fetchers: seq<Fetcher>, requestIds: seq<string>, impIds: seq<string>, e: Error)
    ensures var replies := Polled(fetchers, requestIds, impIds);
            var reply := Combined(fetchers, requestIds, impIds);
            multiset(reply.errs)[e] ==
              (if e.NotFound? then 0 else Reported(replies, e))
              + (if e.NotFound? && e.dataType == "Request" && e.id !in reply.requests
                 then multiset(requestIds)[e.id] else 0)
              + (if e.NotFound? && e.dataType == "Imp" && e.id !in reply.imps then multiset(impIds)[e.id] else 0)
  {
    hide Missing, NotFoundErrors, Polled, Found, OtherErrors, Reported;
    var replies := Polled(fetchers, requestIds, impIds);
    var found := Found(replies);
    MissingCount(requestIds, found.requests.Keys);
    MissingCount(impIds, found.imps.Keys);
    NotFoundCount(Missing(requestIds, found.requests.Keys), "Request");
    NotFoundCount(Missing(impIds, found.imps.Keys), "Imp");
    OtherErrorsCount(replies, e);
  }

  /**
   * The errors counted: each error of another kind as often as the fetchers reported it, and one
   * not-found error for every time an id was asked for that none of them has.
   */
  lemma ErrorsInPlainTerms(fetchers: seq<Fetcher>, requestIds: seq<string>, impIds: seq<string>)
    ensures var reply := Combined(fetchers, requestIds, impIds);
            && AllReported(reply.errs, Polled(fetchers, requestIds, impIds))
            && Complains(reply.errs, "Request", reply.requests, requestIds)
            && Complains(reply.errs, "Imp", reply.imps, impIds)
  {
    hide Polled, Combined, Reported;
    assert "Request" != "Imp" by { assert |"Request"| != |"Imp"|; }
    forall e: Error | !e.NotFound?
      ensures multiset(Combined(fetchers, requestIds, impIds).errs)[e] ==
              Reported(Polled(fetchers, requestIds, impIds), e)
    {
      CombinedCount(fetchers, requestIds, impIds, e);
    }
    forall id
      ensures var reply := Combined(fetchers, requestIds, impIds);
              && multiset(reply.errs)[NotFound(id, "Request")] ==
                   (if id in reply.requests then 0 else multiset(requestIds)[id])
              && multiset(reply.errs)[NotFound(id, "Imp")] == (if id in reply.imps then 0 else multiset(impIds)[id])
    {
      CombinedCount(fetchers, requestIds, impIds, NotFound(id, "Request"));
      CombinedCount(fetchers, requestIds, impIds, NotFound(id, "Imp"));
    }
  }

  /** Each error of another kind occurs as often as in all the replies together. */
  ghost predicate AllReported(errs: seq<Error>, replies: seq<Reply>) {
    forall e: Error :: !e.NotFound? ==> multiset(errs)[e] == Reported(replies, e)
  }

  lemma FoundStep(replies: seq<Reply>, reply: Reply)
    ensures Found([]) == World(map[], map[]) && OtherErrors([]) == []
    ensures var all := replies + [reply];
            && Found(all) == World(reply.requests + Found(replies).requests, reply.imps + Found(replies).imps)
            && OtherErrors(all) == OtherErrors(replies) + Others(reply.errs)
  {
    var all := replies + [reply];
    assert all[..|replies|] == replies;
    FirstWinsSteps(RequestsOf(replies), reply.requests);
    FirstWinsSteps(ImpsOf(replies), reply.imps);
    assert RequestsOf(all) == RequestsOf(replies) + [reply.requests];
    assert ImpsOf(all) == ImpsOf(replies) + [reply.imps];
    assert RequestsOf([]) == [] && ImpsOf([]) == [];
  }

  lemma PolledStep(fetchers: seq<Fetcher>, requestIds: seq<string>, impIds: seq<string>, i: nat)
    requires i < |fetchers|
    ensures var before := Polled(fetchers[..i], requestIds, impIds);
            var found := Found(before);
            var reply := fetchers[i](Missing(requestIds, found.requests.Keys), Missing(impIds, found.imps.Keys));
            Polled(fetchers[..i + 1], requestIds, impIds) == before + [reply]
  {
    hide Found, Missing;
    assert fetchers[..i + 1][..i] == fetchers[..i];
  }

  /** Data found later does not overlap what was found before, so the order of merging does not matter. */
  lemma FreshData(ids: seq<string>, found: Data, fetched: Data)
    requires forall k :: k in fetched ==> k in Missing(ids, found.Keys)
    ensures found + fetched == fetched + found
  {
    MissingMembers(ids, found.Keys);
  }

  method FetchRequests(fetchers: seq<Fetcher>, givenRequestIds: seq<string>, givenImpIds: seq<string>)
    returns (reply: Reply)
    requires forall i :: 0 <= i < |fetchers| ==> Honest(fetchers[i])
    ensures reply == Combined(fetchers, givenRequestIds, givenImpIds)
    ensures AllReported(reply.errs, Polled(fetchers, givenRequestIds, givenImpIds))
    ensures Complains(reply.errs, "Request", reply.requests, givenRequestIds)
    ensures Complains(reply.errs, "Imp", reply.imps, givenImpIds)
  {
    hide Complains, AllReported, Missing, Found, OtherErrors, Others, NotFoundErrors, Polled;
    var requestIds, impIds := givenRequestIds, givenImpIds;
    var requestData: Data, impData: Data, errs: seq<Error> := map[], map[], [];
    ghost var replies := Polled(fetchers[..0], givenRequestIds, givenImpIds);
    FoundStep([], Reply(map[], map[], []));
    assert requestData.Keys == {} && impData.Keys == {};
    NothingFound(givenRequestIds);
    NothingFound(givenImpIds);
    for i := 0 to |fetchers|
      invariant replies == Polled(fetchers[..i], givenRequestIds, givenImpIds)
      invariant World(requestData, impData) == Found(replies)
      invariant Missing(requestIds, requestData.Keys) == Missing(givenRequestIds, requestData.Keys)
      invariant Missing(impIds, impData.Keys) == Missing(givenImpIds, impData.Keys)
      invariant errs == OtherErrors(replies)
    {
      requestIds := FilterIds(requestIds, requestData);
      impIds := FilterIds(impIds, impData);
      var these := fetchers[i](requestIds, impIds);
      assert Honest(fetchers[i]);
      FreshData(givenRequestIds, requestData, these.requests);
      FreshData(givenImpIds, impData, these.imps);
      MissingTwice(givenRequestIds, requestData.Keys, (requestData + these.requests).Keys);
      MissingTwice(givenImpIds, impData.Keys, (impData + these.imps).Keys);
      assert requestData.Keys + (requestData + these.requests).Keys == (requestData + these.requests).Keys;
      assert impData.Keys + (impData + these.imps).Keys == (impData + these.imps).Keys;
      PolledStep(fetchers, givenRequestIds, givenImpIds, i);
      FoundStep(replies, these);
      var kept := KeepOthers(these.errs);
      errs := errs + kept;
      requestData := MergeData(requestData, these.requests);
      impData := MergeData(impData, these.imps);
      replies := replies + [these];
    }
    assert fetchers[..|fetchers|] == fetchers;
    errs := AppendNotFoundErrors("Request", requestIds, requestData, errs);
    errs := AppendNotFoundErrors("Imp", impIds, impData, errs);
    reply := Reply(requestData, impData, errs);
    ErrorsInPlainTerms(fetchers, givenRequestIds, givenImpIds);
  }

  method KeepOthers(errs: seq<Error>) returns (kept: seq<Error>)
    ensures kept == Others(errs)
  {
    var slice := new Error[|errs|](i requires 0 <= i < |errs| => errs[i]);
    assert slice[..] == errs;
    var n := DropMissingIds(slice);
    kept := slice[..n];
  }

  // ---------- consequences ----------

  /** Data for an id is the data of the first reply that has any. */
  lemma {:induction false} FirstReplyWins(answers: seq<Data>, k: string) returns (i: nat)
    requires k in FirstWins(answers)
    ensures i < |answers| && k in answers[i] && FirstWins(answers)[k] == answers[i][k]
    ensures forall j :: 0 <= j < i ==> k !in answers[j]
  {
    var n := |answers| - 1;
    var front := answers[..n];
    if k in FirstWins(front) {
      i := FirstReplyWins(front, k);
      assert forall j :: 0 <= j < n ==> front[j] == answers[j];
    } else {
      i := n;
      NotInAny(front, k);
      assert forall j :: 0 <= j < n ==> front[j] == answers[j];
    }
  }

  lemma {:induction false} NotInAny(answers: seq<Data>, k: string)
    requires k !in FirstWins(answers)
    ensures forall j :: 0 <= j < |answers| ==> k !in answers[j]
  {
    if answers != [] {
      var n := |answers| - 1;
      NotInAny(answers[..n], k);
      assert forall j :: 0 <= j < n ==> answers[..n][j] == answers[j];
    }
  }

  /** The fetcher that sees all of one store. */
  function StoreFetcher(w: World): Fetcher {
    (r, i) => Answer(w, r, i)
  }

  ghost function Layered(worlds: seq<World>): World {
    World(FirstWins(seq(|worlds|, i requires 0 <= i < |worlds| => worlds[i].requests)),
          FirstWins(seq(|worlds|, i requires 0 <= i < |worlds| => worlds[i].imps)))
  }

  lemma LayeredStep(worlds: seq<World>, w: World)
    ensures Layered([]) == World(map[], map[])
    ensures Layered(worlds + [w]) == World(w.requests + Layered(worlds).requests, w.imps + Layered(worlds).imps)
  {
    var all := worlds + [w];
    var requests := seq(|worlds|, i requires 0 <= i < |worlds| => worlds[i].requests);
    var imps := seq(|worlds|, i requires 0 <= i < |worlds| => worlds[i].imps);
    FirstWinsSteps(requests, w.requests);
    FirstWinsSteps(imps, w.imps);
    assert seq(|all|, i requires 0 <= i < |all| => all[i].requests) == requests + [w.requests];
    assert seq(|all|, i requires 0 <= i < |all| => all[i].imps) == imps + [w.imps];
  }

  lemma RestrictTopUp(ids: seq<string>, below: Data, above: Data)
    ensures Restrict(below, Missing(ids, Restrict(above, ids).Keys)) + Restrict(above, ids) ==
      Restrict(below + above, ids)
  {
    MissingMembers(ids, Restrict(above, ids).Keys);
  }

  lemma {:induction false} MissingSame(ids: seq<string>, a: set<string>, b: set<string>)
    requires forall i :: 0 <= i < |ids| ==> (ids[i] in a <==> ids[i] in b)
    ensures Missing(ids, a) == Missing(ids, b)
  {
    if ids != [] {
      MissingSame(ids[1..], a, b);
    }
  }

  lemma {:induction false} NoOthers(ids: seq<string>, dataType: string, errs: seq<Error>)
    requires Others(errs) == []
    ensures Others(errs + NotFoundErrors(ids, dataType)) == []
  {
    if ids == [] {
      assert errs + NotFoundErrors(ids, dataType) == errs;
    } else {
      var n := |ids| - 1;
      NoOthers(ids[..n], dataType, errs);
      var all := errs + NotFoundErrors(ids, dataType);
      OthersStep(all, |all| - 1);
      assert all[..|all|] == all && all[..|all| - 1] == errs + NotFoundErrors(ids[..n], dataType);
    }
  }

  lemma StoresHaveNoOtherErrors(w: World, requestIds: seq<string>, impIds: seq<string>)
    ensures Others(Answer(w, requestIds, impIds).errs) == []
  {
    var first := NotFoundErrors(Missing(requestIds, w.requests.Keys), "Request");
    NoOthers(Missing(requestIds, w.requests.Keys), "Request", []);
    assert [] + first == first;
    NoOthers(Missing(impIds, w.imps.Keys), "Imp", first);
  }

  /** After any number of stores have been polled, what is found is their layered content at the ids. */
  lemma {:induction false} FoundInStores(worlds: seq<World>, fetchers: seq<Fetcher>, requestIds: seq<string>,
                                         impIds: seq<string>)
    requires |fetchers| == |worlds| && forall i :: 0 <= i < |worlds| ==> fetchers[i] == StoreFetcher(worlds[i])
    ensures var replies := Polled(fetchers, requestIds, impIds);
            && Found(replies).requests == Restrict(Layered(worlds).requests, requestIds)
            && Found(replies).imps == Restrict(Layered(worlds).imps, impIds)
            && OtherErrors(replies) == []
  {
    hide Missing, Restrict, Others, Found, Layered, OtherErrors, NotFoundErrors;
    if worlds == [] {
      FoundStep([], Reply(map[], map[], []));
      LayeredStep([], World(map[], map[]));
      RestrictNothing(requestIds);
      RestrictNothing(impIds);
    } else {
      var n := |worlds| - 1;
      var front, above, w := Polled(fetchers[..n], requestIds, impIds), Layered(worlds[..n]), worlds[n];
      FoundInStores(worlds[..n], fetchers[..n], requestIds, impIds);
      assert fetchers[n] == StoreFetcher(w);
      FoundStep(front, Answer(w, Missing(requestIds, Found(front).requests.Keys),
        Missing(impIds, Found(front).imps.Keys)));
      LayeredStep(worlds[..n], w);
      assert worlds == worlds[..n] + [w];
      RestrictTopUp(requestIds, w.requests, above.requests);
      RestrictTopUp(impIds, w.imps, above.imps);
      StoresHaveNoOtherErrors(w, Missing(requestIds, Found(front).requests.Keys),
        Missing(impIds, Found(front).imps.Keys));
    }
  }

  lemma RestrictNothing(ids: seq<string>)
    ensures Restrict(map[], ids) == map[]
  {
  }

  lemma MissingOfRestricted(ids: seq<string>, d: Data)
    ensures Missing(ids, Restrict(d, ids).Keys) == Missing(ids, d.Keys)
  {
    forall i | 0 <= i < |ids| ensures ids[i] in Restrict(d, ids).Keys <==> ids[i] in d.Keys {
      assert ids[i] in ids;
    }
    MissingSame(ids, Restrict(d, ids).Keys, d.Keys);
  }

  /** A multi-fetcher over stores is one store in which earlier stores shadow later ones. */
  lemma StoresActAsOne(worlds: seq<World>, fetchers: seq<Fetcher>, requestIds: seq<string>, impIds: seq<string>)
    requires |fetchers| == |worlds| && forall i :: 0 <= i < |worlds| ==> fetchers[i] == StoreFetcher(worlds[i])
    ensures Combined(fetchers, requestIds, impIds) == Answer(Layered(worlds), requestIds, impIds)
  {
    hide Missing, Restrict, Found, Layered, NotFoundErrors, OtherErrors, Polled;
    FoundInStores(worlds, fetchers, requestIds, impIds);
    MissingOfRestricted(requestIds, Layered(worlds).requests);
    MissingOfRestricted(impIds, Layered(worlds).imps);
    var notFound := NotFoundErrors(Missing(requestIds, Layered(worlds).requests.Keys), "Request");
    assert [] + notFound == notFound;
  }
}
