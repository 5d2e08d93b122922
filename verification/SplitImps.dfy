/**
 * `splitImps`: every bidder gets copies of the imps that name it, with its own parameters under
 * `bidder` and nobody else's.
 */
module SplitImps {
  import opened Lists

  /** A JSON value; numbers, strings, booleans and arrays are all `Scalar` here. */
  datatype Json = Null | Scalar(text: string) | Object(members: map<string, Json>)

  type Members = map<string, Json>

  /** An imp: its `ext` (absent if it is not JSON at all) and everything else. */
  datatype Imp = Imp(ext: Option<Json>, rest: string)

  const PREBID := "prebid"
  const BIDDER := "bidder"
  const DATA := "data"
  const CONTEXT := "context"
  const SKADN := "skadn"

  predicate IsSpecialField(key: string) {
    key == CONTEXT || key == DATA || key == SKADN || key == PREBID
  }

  /** Unmarshalling into a map: null is the empty map, anything else but an object an error. */
  function AsMembers(j: Json): Option<Members> {
    match j
    case Null => Some(map[])
    case Scalar(_) => None
    case Object(m) => Some(m)
  }

  function ExtOf(imp: Imp): Option<Members> {
    if imp.ext.None? then None else AsMembers(imp.ext.value)
  }

  /** The object at a key; empty if it is missing or of another kind. */
  function MembersAt(m: Members, key: string): Members {
    if key in m && AsMembers(m[key]).Some? then AsMembers(m[key]).value else map[]
  }

  function Only(ext: Members, keys: set<string>): Members {
    map k | k in ext && k in keys :: ext[k]
  }

  /** What every bidder of the imp may see. */
  function Shared(ext: Members): Members {
    PrebidPart(MembersAt(ext, PREBID) - {BIDDER}) + Only(ext, {DATA, CONTEXT, SKADN})
  }

  function PrebidPart(prebid: Members): Members {
    if prebid != map[] then map[PREBID := Object(prebid)] else map[]
  }

  /** The parameters written beside `prebid`, except those of the bidders in `skipped`. */
  function Fallback(ext: Members, skipped: set<string>): Members {
    map k | k in ext && k !in skipped && !IsSpecialField(k) :: ext[k]
  }

  /** The parameters of every bidder named: those under `prebid.bidder` first, then those beside it. */
  function BidderParams(ext: Members): Members {
    Fallback(ext, {}) + MembersAt(MembersAt(ext, PREBID), BIDDER)
  }

  /** The imp as the bidder gets it. */
  function CopyFor(imp: Imp, bidder: string): Imp
    requires ExtOf(imp).Some? && bidder in BidderParams(ExtOf(imp).value)
  {
    var ext := ExtOf(imp).value;
    imp.(ext := Some(Object(Shared(ext)[BIDDER := BidderParams(ext)[bidder]])))
  }

  predicate Names(imp: Imp, bidder: string) {
    ExtOf(imp).Some? && bidder in BidderParams(ExtOf(imp).value)
  }

  /** The bidder's copies of the imps that name it, in order. */
  function CopiesFor(imps: seq<Imp>, bidder: string): seq<Imp> {
    if imps == [] then []
    else
      var n := |imps| - 1;
      CopiesFor(imps[..n], bidder) + if Names(imps[n], bidder) then [CopyFor(imps[n], bidder)] else []
  }

  ghost predicate Parses(imps: seq<Imp>) {
    forall i :: 0 <= i < |imps| ==> ExtOf(imps[i]).Some?
  }

  // ---------- the code ----------

  method CreateSanitizedImpExt(impExt: Members, impExtPrebid: Members) returns (sanitized: Members)
    requires impExtPrebid == MembersAt(impExt, PREBID)
    ensures sanitized == Shared(impExt)
  {
    hide Only, MembersAt;
    sanitized := map[];
    var prebid := impExtPrebid - {BIDDER};
    if |prebid| > 0 {
      sanitized := sanitized[PREBID := Object(prebid)];
    }
    assert sanitized == PrebidPart(prebid);
    sanitized := CopyFields(impExt, sanitized);
  }

  /** The three first-party fields, one after the other. */
  method CopyFields(impExt: Members, first: Members) returns (sanitized: Members)
    ensures sanitized == first + Only(impExt, {DATA, CONTEXT, SKADN})
  {
    hide Only;
    sanitized := first;
    OnlySteps(impExt, first, {}, DATA);
    if DATA in impExt {
      sanitized := sanitized[DATA := impExt[DATA]];
    }
    assert sanitized == first + Only(impExt, {} + {DATA});
    OnlySteps(impExt, first, {} + {DATA}, CONTEXT);
    if CONTEXT in impExt {
      sanitized := sanitized[CONTEXT := impExt[CONTEXT]];
    }
    assert sanitized == first + Only(impExt, {} + {DATA} + {CONTEXT});
    OnlySteps(impExt, first, {} + {DATA} + {CONTEXT}, SKADN);
    if SKADN in impExt {
      sanitized := sanitized[SKADN := impExt[SKADN]];
    }
    assert {} + {DATA} + {CONTEXT} + {SKADN} == {DATA, CONTEXT, SKADN};
  }

  lemma OnlySteps(ext: Members, first: Members, keys: set<string>, k: string)
    ensures first + Only(ext, {}) == first
    ensures first + Only(ext, keys + {k}) ==
      if k in ext then (first + Only(ext, keys))[k := ext[k]] else first + Only(ext, keys)
  {
  }

  lemma FallbackSteps(ext: Members, preferred: Members, left: set<string>, b: string)
    requires b in left && left <= ext.Keys
    ensures Fallback(ext, ext.Keys) + preferred == preferred
    ensures var before, after := Fallback(ext, left) + preferred, Fallback(ext, left - {b}) + preferred;
            after == if IsSpecialField(b) || b in before then before else before[b := ext[b]]
  {
  }

  method ExtractBidderExts(impExt: Members, impExtPrebidBidder: Members) returns (exts: Members)
    ensures exts == Fallback(impExt, {}) + impExtPrebidBidder
  {
    hide Fallback, IsSpecialField;
    exts := impExtPrebidBidder;
    var left := impExt.Keys;
    if left != {} {
      FallbackSteps(impExt, impExtPrebidBidder, left, Pick(left));
    } else {
      NoFallback(impExt, impExtPrebidBidder);
    }
    while left != {}
      invariant left <= impExt.Keys
      invariant exts == Fallback(impExt, left) + impExtPrebidBidder
      decreases |left|
    {
      var bidder :| bidder in left;
      FallbackSteps(impExt, impExtPrebidBidder, left, bidder);
      if !IsSpecialField(bidder) && bidder !in exts {
        exts := exts[bidder := impExt[bidder]];
      }
      left := left - {bidder};
    }
  }

  lemma NoFallback(ext: Members, preferred: Members)
    requires ext.Keys == {}
    ensures Fallback(ext, {}) + preferred == preferred
  {
  }

  /** The tables after the bidders of one imp have been served. */
  ghost predicate Served(imps: seq<Imp>, table: map<string, seq<Imp>>) {
    && (forall b :: b in table ==> CopiesFor(imps, b) == table[b] != [])
    && (forall b :: b !in table ==> CopiesFor(imps, b) == [])
  }

  /** Writing the bidder field again wipes out whatever an earlier bidder left there. */
  lemma Rewritten(sanitized: Members, shared: Members, v: Json)
    requires sanitized[BIDDER := Null] == shared[BIDDER := Null]
    ensures sanitized[BIDDER := v] == shared[BIDDER := v]
    ensures sanitized[BIDDER := v][BIDDER := Null] == shared[BIDDER := Null]
  {
    assert sanitized[BIDDER := v] == sanitized[BIDDER := Null][BIDDER := v];
  }

  /** What bidder `b` is owed so far: one more copy if the imp names it and it is not among those still to be served. */
  ghost predicate Owed(before: seq<Imp>, imp: Imp, table: map<string, seq<Imp>>, b: string, left: set<string>) {
    var due := CopiesFor(before, b) + if b !in left && Names(imp, b) then [CopyFor(imp, b)] else [];
    if b in table then table[b] == due && due != [] else due == []
  }

  /** Appends the imp to the list of every bidder it names; one sanitized map serves them all. */
  method ServeBidders(ghost before: seq<Imp>, imp: Imp, exts: Members, shared: Members, table: map<string, seq<Imp>>)
    returns (table': map<string, seq<Imp>>)
    requires ExtOf(imp).Some? && exts == BidderParams(ExtOf(imp).value) && shared == Shared(ExtOf(imp).value)
    requires Served(before, table)
    ensures Served(before + [imp], table')
  {
    hide Shared, BidderParams, ExtOf, CopiesFor;
    table' := table;
    var sanitized := shared;
    var left := exts.Keys;
    assert forall b :: b in exts <==> Names(imp, b);
    while left != {}
      invariant left <= exts.Keys
      invariant sanitized[BIDDER := Null] == shared[BIDDER := Null]
      invariant forall b :: Owed(before, imp, table', b, left)
      decreases |left|
    {
      var bidder :| bidder in left;
      Rewritten(sanitized, shared, exts[bidder]);
      sanitized := sanitized[BIDDER := exts[bidder]];
      var impCopy := imp.(ext := Some(Object(sanitized)));
      assert impCopy == CopyFor(imp, bidder);
      assert Owed(before, imp, table', bidder, left);
      ghost var served, waiting := table', left;
      table' := table'[bidder := (if bidder in table' then table'[bidder] else []) + [impCopy]];
      left := left - {bidder};
      forall b ensures Owed(before, imp, table', b, left) {
        assert Owed(before, imp, served, b, waiting);
      }
    }
    forall b
      ensures b in table' ==> CopiesFor(before + [imp], b) == table'[b] != []
      ensures b !in table' ==> CopiesFor(before + [imp], b) == []
    {
      CopiesStep(before, imp, b);
      assert Owed(before, imp, table', b, {});
    }
  }

  lemma CopiesStep(before: seq<Imp>, imp: Imp, b: string)
    ensures CopiesFor(before + [imp], b) == CopiesFor(before, b) + if Names(imp, b) then [CopyFor(imp, b)] else []
  {
  }

  /** The per-bidder lists, or the index of the first imp whose `ext` cannot be read. */
  datatype Split = Split(bidderImps: map<string, seq<Imp>>) | InvalidImp(index: nat)

  method SplitAll(imps: seq<Imp>) returns (r: Split)
    ensures r.Split? <==> Parses(imps)
    ensures r.Split? <==> forall i :: 0 <= i < |imps| ==> imps[i].ext.Some? && !imps[i].ext.value.Scalar?
    ensures r.Split? ==> Served(imps, r.bidderImps)
    ensures r.Split? ==> forall b :: Delivered(imps, if b in r.bidderImps then r.bidderImps[b] else [], b)
    ensures r.Split? ==> forall b :: b in r.bidderImps ==> r.bidderImps[b] != []
    ensures r.InvalidImp? ==> r.index < |imps| && ExtOf(imps[r.index]).None? && Parses(imps[..r.index])
  {
    hide Served, ExtOf, Delivered;
    ParsesInPlainTerms(imps);
    var table: map<string, seq<Imp>> := map[];
    NobodyServed();
    for i := 0 to |imps|
      invariant Parses(imps[..i])
      invariant Served(imps[..i], table)
    {
      var imp := imps[i];
      var ext := ExtOf(imp);
      if ext.None? {
        return InvalidImp(i);
      }
      var impExt := ext.value;
      var impExtPrebid := MembersAt(impExt, PREBID);
      var impExtPrebidBidder := MembersAt(impExtPrebid, BIDDER);
      var sanitized := CreateSanitizedImpExt(impExt, impExtPrebid);
      var exts := ExtractBidderExts(impExt, impExtPrebidBidder);
      assert imps[..i + 1] == imps[..i] + [imp];
      table := ServeBidders(imps[..i], imp, exts, sanitized, table);
    }
    assert imps[..|imps|] == imps;
    r := Split(table);
    ServedInPlainTerms(imps, table);
  }

  lemma ParsesInPlainTerms(imps: seq<Imp>)
    ensures Parses(imps) <==> forall i :: 0 <= i < |imps| ==> imps[i].ext.Some? && !imps[i].ext.value.Scalar?
  {
  }

  lemma ServedInPlainTerms(imps: seq<Imp>, table: map<string, seq<Imp>>)
    requires Parses(imps) && Served(imps, table)
    ensures forall b :: Delivered(imps, if b in table then table[b] else [], b)
    ensures forall b :: b in table ==> table[b] != []
  {
    hide CopiesFor, ExtOf;
    forall b ensures Delivered(imps, if b in table then table[b] else [], b) {
      CopiesInPlainTerms(imps, b);
    }
  }

  lemma NobodyServed()
    ensures Served([], map[])
  {
  }

  // ---------- isolation ----------

  /** The two exts differ at most in the parameters of bidders other than `b`. */
  ghost predicate SameFor(ext: Members, ext': Members, b: string) {
    && (forall k :: k == DATA || k == CONTEXT || k == SKADN ==> Lookup(ext, k) == Lookup(ext', k))
    && (!IsSpecialField(b) ==> Lookup(ext, b) == Lookup(ext', b))
    && MembersAt(ext, PREBID) - {BIDDER} == MembersAt(ext', PREBID) - {BIDDER}
    && Lookup(MembersAt(MembersAt(ext, PREBID), BIDDER), b) == Lookup(MembersAt(MembersAt(ext', PREBID), BIDDER), b)
  }

  lemma SameForBidder(imp: Imp, imp': Imp, b: string)
    requires ExtOf(imp).Some? && ExtOf(imp').Some? && imp.rest == imp'.rest
    requires SameFor(ExtOf(imp).value, ExtOf(imp').value, b)
    ensures Names(imp, b) <==> Names(imp', b)
    ensures Names(imp, b) ==> CopyFor(imp, b) == CopyFor(imp', b)
  {
    var ext, ext' := ExtOf(imp).value, ExtOf(imp').value;
    assert Lookup(BidderParams(ext), b) == Lookup(BidderParams(ext'), b);
    SameShared(ext, ext', b);
  }

  lemma SameShared(ext: Members, ext': Members, b: string)
    requires SameFor(ext, ext', b)
    ensures Shared(ext) == Shared(ext')
  {
    var keys := {DATA, CONTEXT, SKADN};
    forall k | k in keys ensures Lookup(ext, k) == Lookup(ext', k) {
    }
    assert Only(ext, keys) == Only(ext', keys);
  }

  /** Changing only other bidders' parameters, in any imps, leaves a bidder's imps unchanged. */
  lemma {:induction false} OthersDoNotMatter(imps: seq<Imp>, imps': seq<Imp>, b: string)
    requires |imps| == |imps'| && Parses(imps) && Parses(imps')
    requires forall i :: 0 <= i < |imps| ==>
      imps[i].rest == imps'[i].rest && SameFor(ExtOf(imps[i]).value, ExtOf(imps'[i]).value, b)
    ensures CopiesFor(imps, b) == CopiesFor(imps', b)
  {
    hide SameFor, Names, CopyFor, ExtOf;
    if imps != [] {
      var n := |imps| - 1;
      OthersDoNotMatter(imps[..n], imps'[..n], b);
      SameForBidder(imps[n], imps'[n], b);
    }
  }

  /** A copy shows the bidder's own parameters and shared fields only; in particular nothing of `prebid.bidder`. */
  lemma CopyHidesOthers(imp: Imp, b: string)
    requires Names(imp, b)
    ensures var copy := ExtOf(CopyFor(imp, b));
            && copy.Some?
            && copy.value.Keys <= {PREBID, DATA, CONTEXT, SKADN, BIDDER}
            && copy.value[BIDDER] == BidderParams(ExtOf(imp).value)[b]
            && BIDDER !in MembersAt(copy.value, PREBID)
            && CopyFor(imp, b).rest == imp.rest
  {
  }

  /** Parameters under `prebid.bidder` take precedence; a special field is a bidder only there. */
  lemma PreferredParams(ext: Members, b: string)
    ensures var preferred := MembersAt(MembersAt(ext, PREBID), BIDDER);
            Lookup(BidderParams(ext), b) ==
              if b in preferred then Some(preferred[b]) else if IsSpecialField(b) then None else Lookup(ext, b)
  {
  }

  // ---------- in plain terms ----------

  lemma MembersAtCases(m: Members, key: string)
    ensures key in m && m[key].Object? ==> MembersAt(m, key) == m[key].members
    ensures !(key in m && m[key].Object?) ==> MembersAt(m, key) == map[]
  {
  }

  /** The bidder is named under `prebid.bidder`, or beside `prebid` by a name that is no special field. */
  ghost predicate NamedIn(ext: Members, b: string) {
    || b in MembersAt(MembersAt(ext, "prebid"), "bidder")
    || (b in ext && b != "context" && b != "data" && b != "skadn" && b != "prebid")
  }

  /**
   * A bidder's copy of an imp: the same apart from `ext`; there, the bidder's own parameters, the
   * first-party fields as they are, and `prebid` as it is but for `bidder`, if anything is left.
   */
  ghost predicate IsCopy(imp: Imp, copy: Imp, b: string) {
    && imp.ext.Some? && imp.ext.value.Object? && copy.ext.Some? && copy.ext.value.Object?
    && copy.rest == imp.rest
    && var ext, seen := imp.ext.value.members, copy.ext.value.members;
       var preferred := MembersAt(MembersAt(ext, "prebid"), "bidder");
       && Lookup(seen, "bidder") == (if b in preferred then Some(preferred[b]) else Lookup(ext, b))
       && Lookup(seen, "data") == Lookup(ext, "data")
       && Lookup(seen, "context") == Lookup(ext, "context")
       && Lookup(seen, "skadn") == Lookup(ext, "skadn")
       && (forall k :: k != "bidder" ==>
             Lookup(MembersAt(seen, "prebid"), k) == Lookup(MembersAt(ext, "prebid"), k))
       && "bidder" !in MembersAt(seen, "prebid")
       && ("prebid" in seen <==> exists k :: k != "bidder" && k in MembersAt(ext, "prebid"))
       && seen.Keys <= {"bidder", "data", "context", "skadn", "prebid"}
  }

  /** The copies are those of the imps that name the bidder, in order and one each. */
  ghost predicate Delivered(imps: seq<Imp>, copies: seq<Imp>, b: string) {
    if imps == [] then copies == []
    else
      var n, m := |imps| - 1, |copies| - 1;
      if imps[n].ext.Some? && imps[n].ext.value.Object? && NamedIn(imps[n].ext.value.members, b)
      then copies != [] && IsCopy(imps[n], copies[m], b) && Delivered(imps[..n], copies[..m], b)
      else Delivered(imps[..n], copies, b)
  }

  lemma KeysApart()
    ensures PREBID != BIDDER && PREBID != DATA && PREBID != CONTEXT && PREBID != SKADN
    ensures BIDDER != DATA && BIDDER != CONTEXT && BIDDER != SKADN
    ensures DATA != CONTEXT && DATA != SKADN && CONTEXT != SKADN
  {
    assert |PREBID| == 6 && |BIDDER| == 6 && |DATA| == 4 && |CONTEXT| == 7 && |SKADN| == 5;
    assert PREBID[0] != BIDDER[0];
  }

  lemma SharedInPlainTerms(ext: Members, k: string)
    ensures var seen, prebid := Shared(ext), MembersAt(ext, "prebid");
            && (k == "data" || k == "context" || k == "skadn" ==> Lookup(seen, k) == Lookup(ext, k))
            && (k != "bidder" ==> Lookup(MembersAt(seen, "prebid"), k) == Lookup(prebid, k))
            && (k == "bidder" ==> k !in seen && k !in MembersAt(seen, "prebid"))
            && ("prebid" in seen <==> prebid - {"bidder"} != map[])
            && seen.Keys <= {"bidder", "data", "context", "skadn", "prebid"}
  {
    KeysApart();
  }

  lemma NamedInPlainTerms(imp: Imp, b: string)
    requires ExtOf(imp).Some?
    ensures Names(imp, b) <==> imp.ext.Some? && imp.ext.value.Object? && NamedIn(imp.ext.value.members, b)
  {
  }

  lemma CopyInPlainTerms(imp: Imp, b: string)
    requires Names(imp, b)
    ensures IsCopy(imp, CopyFor(imp, b), b)
  {
    hide Shared, MembersAt, Fallback;
    NamedInPlainTerms(imp, b);
    var ext := imp.ext.value.members;
    var seen := Shared(ext)[BIDDER := BidderParams(ext)[b]];
    KeysApart();
    PreferredParams(ext, b);
    MembersAtCases(Shared(ext), "prebid");
    MembersAtCases(seen, "prebid");
    forall k ensures k != "bidder" ==> Lookup(MembersAt(seen, "prebid"), k) == Lookup(MembersAt(ext, "prebid"), k) {
      SharedInPlainTerms(ext, k);
    }
    SharedInPlainTerms(ext, "data");
    SharedInPlainTerms(ext, "context");
    SharedInPlainTerms(ext, "skadn");
    SharedInPlainTerms(ext, "bidder");
    SomethingLeft(MembersAt(ext, "prebid"));
  }

  lemma SomethingLeft(prebid: Members)
    ensures prebid - {"bidder"} != map[] <==> exists k :: k != "bidder" && k in prebid
  {
    var left := prebid - {"bidder"};
    if left != map[] {
      var k := Pick(left.Keys);
      assert k != "bidder" && k in prebid;
    }
    assert forall k :: k != "bidder" && k in prebid ==> k in left;
  }

  /** Every bidder gets, in order and once each, faithful copies of precisely the imps that name it. */
  lemma {:induction false} CopiesInPlainTerms(imps: seq<Imp>, b: string)
    requires Parses(imps)
    ensures Delivered(imps, CopiesFor(imps, b), b)
  {
    hide Names, CopyFor, IsCopy, NamedIn, ExtOf;
    if imps != [] {
      var n := |imps| - 1;
      CopiesInPlainTerms(imps[..n], b);
      NamedInPlainTerms(imps[n], b);
      var before := CopiesFor(imps[..n], b);
      if Names(imps[n], b) {
        CopyInPlainTerms(imps[n], b);
        assert CopiesFor(imps, b)[..|before|] == before;
      } else {
        assert CopiesFor(imps, b) == before;
      }
    }
  }
}
