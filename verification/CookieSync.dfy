/**
 * `/cookie_sync`: the bidder list of a request is filtered in place, then cut down to a random
 * subset. Random choices are a parameter: the indices drawn, in order.
 */
module CookieSync {
  import opened Lists
  import Cookie

  lemma FilterStep(keep: string -> bool, bidders: seq<string>, i: nat)
    requires i < |bidders|
    ensures Filter(keep, bidders[..i + 1]) == Filter(keep, bidders[..i]) + if keep(bidders[i]) then [bidders[i]] else []
  {
    assert bidders[..i + 1] == bidders[..i] + [bidders[i]];
    FilterAppend(keep, bidders[..i], [bidders[i]]);
    assert [bidders[i]][1..] == [];
  }

  /** The list while it is being filtered: what was kept so far, then what has not been looked at. */
  ghost function Partial(keep: string -> bool, all: seq<string>, seen: nat): seq<string>
    requires seen <= |all|
  {
    Filter(keep, all[..seen]) + all[seen..]
  }

  lemma PartialStep(keep: string -> bool, all: seq<string>, seen: nat)
    requires seen < |all|
    ensures var list, i := Partial(keep, all, seen), |Filter(keep, all[..seen])|;
            && i < |list| && list[i] == all[seen]
            && Partial(keep, all, seen + 1) == (if keep(all[seen]) then list else list[..i] + list[i + 1..])
            && |Filter(keep, all[..seen + 1])| == (if keep(all[seen]) then i + 1 else i)
  {
    hide Filter;
    FilterStep(keep, all, seen);
    assert all[seen..] == [all[seen]] + all[seen + 1..];
  }

  lemma PartialEnds(keep: string -> bool, all: seq<string>)
    ensures Partial(keep, all, 0) == all && Partial(keep, all, |all|) == Filter(keep, all) &&
      Filter(keep, all[..0]) == []
  {
    assert all[..|all|] == all;
  }

  class CookieSyncRequest {
    var bidders: seq<string>
    var limit: int

    constructor (bidders: seq<string>, limit: int)
      ensures this.bidders == bidders && this.limit == limit
    {
      this.bidders, this.limit := bidders, limit;
    }

    /** The loop all three filters share: delete at `i`, then look at `i` again. */
    method DeleteWhile(keep: string -> bool)
      modifies this`bidders
      ensures bidders == Filter(keep, old(bidders))
      ensures Subsequence(bidders, old(bidders))
      ensures forall b :: multiset(bidders)[b] == if keep(b) then multiset(old(bidders))[b] else 0
    {
      hide Filter, Partial, Subsequence;
      FilterKeeps(keep, bidders);
      ghost var all := bidders;
      ghost var seen := 0;
      var i := 0;
      PartialEnds(keep, all);
      PartialLength(keep, all, 0);
      while i < |bidders|
        invariant 0 <= seen <= |all| && bidders == Partial(keep, all, seen) && i == |Filter(keep, all[..seen])|
        invariant |bidders| - i == |all| - seen
        decreases |all| - seen
      {
        PartialStep(keep, all, seen);
        PartialLength(keep, all, seen + 1);
        if !keep(bidders[i]) {
          bidders := bidders[..i] + bidders[i + 1..];
          i := i - 1;
        }
        i := i + 1;
        seen := seen + 1;
      }
    }

    /** Keeps the bidders with a syncer (`families` maps them to its family) that have no live sync yet. */
    method FilterExistingSyncs(families: map<string, string>, cookie: Cookie.PbsCookie, now: int,
                               needSyncupForSameSite: bool)
      modifies this`bidders
      ensures bidders == Filter(NeedsSync(families, cookie.uids, now, needSyncupForSameSite), old(bidders))
      ensures Subsequence(bidders, old(bidders))
      ensures forall b :: b !in families ==> multiset(bidders)[b] == 0
      ensures forall b :: b in families && (needSyncupForSameSite || families[b] !in cookie.uids) ==>
        multiset(bidders)[b] == multiset(old(bidders))[b]
      ensures forall b :: b in families && !needSyncupForSameSite && families[b] in cookie.uids ==>
        multiset(bidders)[b] == if now < cookie.uids[families[b]].expires then 0 else multiset(old(bidders))[b]
    {
      hide Filter, Subsequence;
      DeleteWhile(NeedsSync(families, cookie.uids, now, needSyncupForSameSite));
    }

    /** `hostAllowed` and `allowed` are the consent decisions; absent where they could not be made. */
    method FilterForGdpr(gdpr: Option<int>, hostAllowed: Option<bool>, allowed: string -> Option<bool>)
      modifies this`bidders
      ensures gdpr == Some(0) ==> bidders == old(bidders)
      ensures gdpr != Some(0) && hostAllowed != Some(true) ==> bidders == []
      ensures gdpr != Some(0) && hostAllowed == Some(true) ==>
        bidders == Filter(b => allowed(b) == Some(true), old(bidders))
    {
      if gdpr == Some(0) {
        return;
      }
      if hostAllowed != Some(true) {
        bidders := [];
        return;
      }
      DeleteWhile(b => allowed(b) == Some(true));
    }

    /** `enforced` says which bidders the parsed policy blocks; absent if it does not parse. */
    method FilterForCcpa(enforced: Option<string -> bool>)
      modifies this`bidders
      ensures bidders == if enforced.Some? then Filter(b => !enforced.value(b), old(bidders)) else old(bidders)
    {
      if enforced.Some? {
        var blocked := enforced.value;
        DeleteWhile(b => !blocked(b));
      }
    }

    /** Overwrites a randomly drawn cell with the last one, once for every bidder over the limit. */
    method FilterToLimit(choices: seq<nat>)
      requires 0 < limit < |bidders| ==> Drawable(|bidders|, limit, choices)
      modifies this`bidders
      ensures bidders == if 0 < limit < |old(bidders)| then Draw(old(bidders), limit, choices) else old(bidders)
    {
      if limit <= 0 || limit >= |bidders| {
        return;
      }
      bidders := DrawInPlace(bidders, limit, choices);
    }
  }

  /** The truncated shuffle; the cells from `i` on are never looked at again. */
  method DrawInPlace(given: seq<string>, limit: int, choices: seq<nat>) returns (bidders: seq<string>)
    requires 0 < limit <= |given| && Drawable(|given|, limit, choices)
    ensures bidders == Draw(given, limit, choices)
  {
    hide Draw, Overwrite, Drawable;
    bidders := given;
    var n, t := |bidders|, 0;
    ghost var rest := choices;
    assert bidders[..n] == bidders;
    var i := n - 1;
    while i >= limit
      invariant limit - 1 <= i < n == |bidders| && t == n - 1 - i
      invariant t <= |choices| && rest == choices[t..]
      invariant Drawable(i + 1, limit, rest)
      invariant Draw(bidders[..i + 1], limit, rest) == Draw(given, limit, choices)
    {
      DrawStep(bidders[..i + 1], limit, rest);
      var j := choices[t];
      OverwritePrefix(bidders, i, j);
      if i != j {
        bidders := bidders[j := bidders[i]];
      }
      rest := rest[1..];
      i, t := i - 1, t + 1;
    }
    DrawStep(bidders[..limit], limit, rest);
    bidders := bidders[..limit];
  }

  predicate Live(uids: Cookie.Uids, family: string, now: int) {
    family in uids && now < uids[family].expires
  }

  function NeedsSync(families: map<string, string>, uids: Cookie.Uids, now: int, sameSite: bool): string -> bool {
    b => b in families && (sameSite || !Live(uids, families[b], now))
  }

  // ---------- the random subset ----------

  /** One index per bidder over the limit, each within what is left of the list at its turn. */
  predicate Drawable(n: nat, limit: int, choices: seq<nat>)
    requires 0 < limit <= n
  {
    |choices| == n - limit && forall t :: 0 <= t < |choices| ==> choices[t] < n - t
  }

  /** Overwrites cell `j` with the last one and forgets the last. */
  function Overwrite(s: seq<string>, j: nat): (r: seq<string>)
    requires j < |s|
    ensures |r| == |s| - 1
  {
    var n := |s| - 1;
    (if n != j then s[j := s[n]] else s)[..n]
  }

  function Draw(s: seq<string>, limit: int, choices: seq<nat>): (r: seq<string>)
    requires 0 < limit <= |s| && Drawable(|s|, limit, choices)
    ensures |r| == limit
    decreases |s|
  {
    if |s| == limit then s else Draw(Overwrite(s, choices[0]), limit, choices[1..])
  }

  lemma DrawStep(s: seq<string>, limit: int, choices: seq<nat>)
    requires 0 < limit <= |s| && Drawable(|s|, limit, choices)
    ensures |s| == limit ==> Draw(s, limit, choices) == s
    ensures |s| > limit ==>
      && choices != [] && choices[0] < |s|
      && Drawable(|s| - 1, limit, choices[1..])
      && Draw(s, limit, choices) == Draw(Overwrite(s, choices[0]), limit, choices[1..])
  {
  }

  lemma OverwritePrefix(s: seq<string>, i: nat, j: nat)
    requires j <= i < |s|
    ensures (if i != j then s[j := s[i]] else s)[..i] == Overwrite(s[..i + 1], j)
  {
  }

  /** Dropping index `j` this way removes that bidder and no other. */
  lemma OverwriteDrops(s: seq<string>, j: nat)
    requires j < |s|
    ensures multiset(Overwrite(s, j)) == multiset(s) - multiset{s[j]}
  {
    var n := |s| - 1;
    assert s == s[..n] + [s[n]];
    if n != j {
      assert s[j := s[n]][..n] == s[..n][j := s[n]];
    }
  }

  /** The drawn bidders are among those given, each at most as often. */
  lemma {:induction false} DrawIsSubset(s: seq<string>, limit: int, choices: seq<nat>)
    requires 0 < limit <= |s| && Drawable(|s|, limit, choices)
    ensures multiset(Draw(s, limit, choices)) <= multiset(s)
    decreases |s|
  {
    if |s| > limit {
      OverwriteDrops(s, choices[0]);
      DrawIsSubset(Overwrite(s, choices[0]), limit, choices[1..]);
    }
  }

  /** Some bidder can be dropped without losing anything that is wanted. */
  lemma SpareIndex(s: seq<string>, wanted: multiset<string>) returns (j: nat)
    requires wanted <= multiset(s) && |wanted| < |s|
    ensures j < |s| && wanted <= multiset(s) - multiset{s[j]}
  {
    var spare := multiset(s) - wanted;
    assert |spare| == |multiset(s)| - |wanted| > 0;
    var x :| x in spare;
    assert x in multiset(s);
    j :| j < |s| && s[j] == x;
  }

  /** Every sub-multiset of the right size is drawn by some choices. */
  lemma {:induction false} EverySubsetCanBeDrawn(s: seq<string>, limit: int, wanted: multiset<string>)
    returns (choices: seq<nat>)
    requires 0 < limit <= |s| && wanted <= multiset(s) && |wanted| == limit
    ensures Drawable(|s|, limit, choices) && multiset(Draw(s, limit, choices)) == wanted
    decreases |s|
  {
    hide Overwrite;
    if |s| == limit {
      choices := [];
      assert |multiset(s) - wanted| == 0;
      assert multiset(s) == wanted + (multiset(s) - wanted);
    } else {
      var j := SpareIndex(s, wanted);
      OverwriteDrops(s, j);
      var later := EverySubsetCanBeDrawn(Overwrite(s, j), limit, wanted);
      choices := [j] + later;
      assert choices[1..] == later;
    }
  }

  lemma PartialLength(keep: string -> bool, all: seq<string>, seen: nat)
    requires seen <= |all|
    ensures |Partial(keep, all, seen)| - |Filter(keep, all[..seen])| == |all| - seen
  {
  }
}
