/**
 * `getAllBids` and `recoverSafely`: one goroutine per bidder sends its result into a channel with
 * room for one message per bidder, and the collector receives that many messages. A goroutine
 * that panics is recovered and sends an empty message instead.
 */
module FanIn {
  import opened Lists

  datatype Extra = EmptyExtra | Recorded(millis: int, errors: seq<string>)

  type SeatBids = seq<string>

  /** What a bidder goroutine does. It may even panic after it has sent its result. */
  datatype Outcome = Panics | Returns(bids: Option<SeatBids>, extra: Extra, thenPanics: bool)

  datatype Request = Request(name: string, outcome: Outcome)

  /** A message; `origin` and `genuine` identify it in proofs and are not looked at by the collector. */
  datatype Msg = Msg(origin: nat, genuine: bool, bidder: string, bids: Option<SeatBids>, extra: Extra)

  function Result(reqs: seq<Request>, i: nat): Msg
    requires i < |reqs| && reqs[i].outcome.Returns?
  {
    Msg(i, true, reqs[i].name, reqs[i].outcome.bids, reqs[i].outcome.extra)
  }

  /** What `recoverSafely` sends: it names no bidder. */
  function Empty(i: nat): Msg {
    Msg(i, false, "", None, EmptyExtra)
  }

  // ---------- the collector ----------

  datatype Collected = Collected(adapterBids: map<string, SeatBids>, adapterExtra: map<string, Extra>, bidsFound: bool)

  const NOTHING := Collected(map[], map[], false)

  function Absorb(c: Collected, m: Msg): Collected {
    var bids := if m.bids.Some? && |m.bids.value| != 0 then c.adapterBids[m.bidder := m.bids.value] else c.adapterBids;
    Collected(bids, c.adapterExtra[m.bidder := m.extra],
              c.bidsFound || (m.bidder in bids && |bids[m.bidder]| > 0))
  }

  function AbsorbAll(msgs: seq<Msg>): (c: Collected)
    ensures c.bidsFound <==> c.adapterBids != map[]
    ensures forall b :: b in c.adapterBids ==> |c.adapterBids[b]| > 0
  {
    if msgs == [] then NOTHING
    else
      var m := msgs[|msgs| - 1];
      var c := Absorb(AbsorbAll(msgs[..|msgs| - 1]), m);
      assert m.bidder in c.adapterBids ==> c.adapterBids != map[];
      c
  }

  /** The receive loop of `getAllBids`. */
  method Collect(msgs: seq<Msg>)
    returns (adapterBids: map<string, SeatBids>, adapterExtra: map<string, Extra>, bidsFound: bool)
    ensures Collected(adapterBids, adapterExtra, bidsFound) == AbsorbAll(msgs)
  {
    adapterBids, adapterExtra, bidsFound := map[], map[], false;
    for i := 0 to |msgs|
      invariant Collected(adapterBids, adapterExtra, bidsFound) == AbsorbAll(msgs[..i])
    {
      var brw := msgs[i];
      assert msgs[..i + 1][..i] == msgs[..i];
      if brw.bids.Some? && |brw.bids.value| != 0 {
        adapterBids := adapterBids[brw.bidder := brw.bids.value];
      }
      adapterExtra := adapterExtra[brw.bidder := brw.extra];
      if !bidsFound && brw.bidder in adapterBids && |adapterBids[brw.bidder]| > 0 {
        bidsFound := true;
      }
    }
    assert msgs[..|msgs|] == msgs;
  }

  // ---------- the protocol ----------

  datatype Phase = Running | Crashed | Done

  /** `received` is the history of what the collector took; `collected` is what it made of it. */
  datatype State = State(phases: seq<Phase>, channel: seq<Msg>, received: seq<Msg>, collected: Collected)

  function Init(reqs: seq<Request>): State {
    State(seq(|reqs|, _ => Running), [], [], NOTHING)
  }

  datatype Step = Send(i: nat) | Panic(i: nat) | Recover(i: nat) | Receive

  /** When a step can be taken; a send needs room in the channel. */
  predicate Enabled(reqs: seq<Request>, s: State, step: Step)
    requires |s.phases| == |reqs|
  {
    match step
    case Send(i) => i < |reqs| && s.phases[i].Running? && reqs[i].outcome.Returns? && |s.channel| < |reqs|
    case Panic(i) => i < |reqs| && s.phases[i].Running? && reqs[i].outcome.Panics?
    case Recover(i) => i < |reqs| && s.phases[i].Crashed? && |s.channel| < |reqs|
    case Receive => |s.received| < |reqs| && s.channel != []
  }

  function Take(reqs: seq<Request>, s: State, step: Step): State
    requires |s.phases| == |reqs| && Enabled(reqs, s, step)
  {
    match step
    case Send(i) =>
      s.(phases := s.phases[i := if reqs[i].outcome.thenPanics then Crashed else Done],
         channel := s.channel + [Result(reqs, i)])
    case Panic(i) => s.(phases := s.phases[i := Crashed])
    case Recover(i) => s.(phases := s.phases[i := Done], channel := s.channel + [Empty(i)])
    case Receive =>
      State(s.phases, s.channel[1..], s.received + [s.channel[0]], Absorb(s.collected, s.channel[0]))
  }

  ghost predicate Leads(reqs: seq<Request>, s: State, step: Step, s': State) {
    |s.phases| == |reqs| && Enabled(reqs, s, step) && s' == Take(reqs, s, step)
  }

  /** The states after every step of a schedule that can be followed. */
  ghost predicate Follows(reqs: seq<Request>, steps: seq<Step>, s: State) {
    if steps == [] then s == Init(reqs)
    else
      var front, last := steps[..|steps| - 1], steps[|steps| - 1];
      exists before :: Follows(reqs, front, before) && Leads(reqs, before, last, s)
  }

  // ---------- what every step keeps ----------

  ghost predicate HasSent(reqs: seq<Request>, s: State, m: Msg)
    requires |s.phases| == |reqs|
  {
    && m.origin < |reqs|
    && (m.genuine ==> reqs[m.origin].outcome.Returns? && !s.phases[m.origin].Running? && m == Result(reqs, m.origin))
    && (!m.genuine ==>
          && s.phases[m.origin].Done? && m == Empty(m.origin)
          && (reqs[m.origin].outcome.Panics? || reqs[m.origin].outcome.thenPanics))
  }

  ghost function Traffic(s: State): seq<Msg> {
    s.received + s.channel
  }

  ghost predicate Inv(reqs: seq<Request>, s: State) {
    && |s.phases| == |reqs|
    && |s.received| <= |reqs| && |s.channel| <= |reqs|
    && s.collected == AbsorbAll(s.received)
    && Distinct(Traffic(s))
    && (forall k :: 0 <= k < |Traffic(s)| ==> HasSent(reqs, s, Traffic(s)[k]))
    && (forall i :: 0 <= i < |reqs| && reqs[i].outcome.Returns? && !s.phases[i].Running? ==>
      Result(reqs, i) in Traffic(s))
    && (forall i :: 0 <= i < |reqs| && s.phases[i].Done? && (reqs[i].outcome.Panics? || reqs[i].outcome.thenPanics) ==>
          Empty(i) in Traffic(s))
    && (forall i :: 0 <= i < |reqs| && s.phases[i].Crashed? ==> reqs[i].outcome.Panics? || reqs[i].outcome.thenPanics)
  }

  lemma InvInit(reqs: seq<Request>)
    ensures Inv(reqs, Init(reqs))
  {
  }

  lemma SendKeepsInv(reqs: seq<Request>, s: State, i: nat, m: Msg, phase: Phase)
    requires Inv(reqs, s) && i < |reqs| && |s.channel| < |reqs| && m.origin == i && m !in Traffic(s)
    requires var s' := s.(phases := s.phases[i := phase], channel := s.channel + [m]); HasSent(reqs, s', m)
    requires m.genuine ==> s.phases[i].Running? && phase == (if reqs[i].outcome.thenPanics then Crashed else Done)
    requires !m.genuine ==> s.phases[i].Crashed? && phase == Done
    ensures Inv(reqs, s.(phases := s.phases[i := phase], channel := s.channel + [m]))
  {
    var s' := s.(phases := s.phases[i := phase], channel := s.channel + [m]);
    assert Traffic(s') == Traffic(s) + [m];
  }

  lemma InvStep(reqs: seq<Request>, s: State, step: Step)
    requires Inv(reqs, s) && Enabled(reqs, s, step)
    ensures Inv(reqs, Take(reqs, s, step))
  {
    match step
    case Send(i) =>
      SendKeepsInv(reqs, s, i, Result(reqs, i), if reqs[i].outcome.thenPanics then Crashed else Done);
    case Panic(i) =>
      assert Traffic(Take(reqs, s, step)) == Traffic(s);
    case Recover(i) =>
      SendKeepsInv(reqs, s, i, Empty(i), Done);
    case Receive =>
      var s' := Take(reqs, s, step);
      assert Traffic(s') == Traffic(s);
      assert s'.received[..|s'.received| - 1] == s.received;
  }

  lemma {:induction false} InvReachable(reqs: seq<Request>, steps: seq<Step>, s: State)
    requires Follows(reqs, steps, s)
    ensures Inv(reqs, s)
  {
    if steps == [] {
      InvInit(reqs);
    } else {
      var front, last := steps[..|steps| - 1], steps[|steps| - 1];
      var before :| Follows(reqs, front, before) && Leads(reqs, before, last, s);
      InvReachable(reqs, front, before);
      InvStep(reqs, before, last);
    }
  }

  // ---------- counting messages ----------

  ghost function Sum(xs: seq<nat>): nat {
    if xs == [] then 0 else Sum(xs[..|xs| - 1]) + xs[|xs| - 1]
  }

  lemma {:induction false} SumUpdate(xs: seq<nat>, i: nat, v: nat)
    requires i < |xs|
    ensures Sum(xs[i := v]) == Sum(xs) - xs[i] + v
  {
    var n := |xs| - 1;
    if i == n {
      assert xs[i := v][..n] == xs[..n];
    } else {
      SumUpdate(xs[..n], i, v);
      assert xs[i := v][..n] == xs[..n][i := v];
    }
  }

  lemma {:induction false} SumBounds(xs: seq<nat>, low: nat, high: nat)
    requires forall i :: 0 <= i < |xs| ==> low <= xs[i] <= high
    ensures low * |xs| <= Sum(xs) <= high * |xs|
    ensures (exists i :: 0 <= i < |xs| && xs[i] < high) ==> Sum(xs) < high * |xs|
  {
    if xs != [] {
      var n := |xs| - 1;
      SumBounds(xs[..n], low, high);
      assert low * |xs| == low * n + low && high * |xs| == high * n + high;
      if i :| 0 <= i < |xs| && xs[i] < high {
        assert i == n || xs[..n][i] < high;
      }
    }
  }

  predicate Recovers(o: Outcome) {
    o.Panics? || o.thenPanics
  }

  /** How many messages a goroutine has sent. */
  function Produced(req: Request, phase: Phase): nat {
    (if req.outcome.Returns? && !phase.Running? then 1 else 0) + (if Recovers(req.outcome) && phase.Done? then 1 else 0)
  }

  ghost function SentBy(reqs: seq<Request>, phases: seq<Phase>): seq<nat>
    requires |phases| == |reqs|
  {
    seq(|reqs|, i requires 0 <= i < |reqs| => Produced(reqs[i], phases[i]))
  }

  /** How far a goroutine is from being done. */
  function Remaining(phase: Phase): nat {
    match phase case Running => 2 case Crashed => 1 case Done => 0
  }

  ghost function RemainingOf(phases: seq<Phase>): seq<nat> {
    seq(|phases|, i requires 0 <= i < |phases| => Remaining(phases[i]))
  }

  ghost function Measure(s: State): nat {
    2 * Sum(RemainingOf(s.phases)) + |s.channel|
  }

  /** No message is lost or made up. */
  ghost predicate Counted(reqs: seq<Request>, s: State) {
    |s.phases| == |reqs| && |s.received| + |s.channel| == Sum(SentBy(reqs, s.phases))
  }

  lemma PhaseChange(reqs: seq<Request>, phases: seq<Phase>, i: nat, phase: Phase)
    requires |phases| == |reqs| && i < |reqs|
    ensures var phases' := phases[i := phase];
            && Sum(SentBy(reqs, phases')) ==
              Sum(SentBy(reqs, phases)) - Produced(reqs[i], phases[i]) + Produced(reqs[i], phase)
            && Sum(RemainingOf(phases')) == Sum(RemainingOf(phases)) - Remaining(phases[i]) + Remaining(phase)
  {
    var phases' := phases[i := phase];
    SumUpdate(SentBy(reqs, phases), i, Produced(reqs[i], phase));
    assert SentBy(reqs, phases') == SentBy(reqs, phases)[i := Produced(reqs[i], phase)];
    SumUpdate(RemainingOf(phases), i, Remaining(phase));
    assert RemainingOf(phases') == RemainingOf(phases)[i := Remaining(phase)];
  }

  lemma CountStep(reqs: seq<Request>, s: State, step: Step)
    requires Inv(reqs, s) && Counted(reqs, s) && Enabled(reqs, s, step)
    ensures Counted(reqs, Take(reqs, s, step))
    ensures Measure(Take(reqs, s, step)) < Measure(s)
  {
    if step.Send? || step.Panic? || step.Recover? {
      PhaseChange(reqs, s.phases, step.i, Take(reqs, s, step).phases[step.i]);
    }
  }

  lemma CountInit(reqs: seq<Request>)
    ensures Counted(reqs, Init(reqs)) && Measure(Init(reqs)) == 4 * |reqs|
  {
    SumBounds(SentBy(reqs, Init(reqs).phases), 0, 0);
    SumBounds(RemainingOf(Init(reqs).phases), 2, 2);
  }

  /** Every schedule is short, whatever the interleaving. */
  lemma {:induction false} SchedulesAreBounded(reqs: seq<Request>, steps: seq<Step>, s: State)
    requires Follows(reqs, steps, s)
    ensures Counted(reqs, s)
    ensures |steps| + Measure(s) <= 4 * |reqs|
  {
    CountInit(reqs);
    if steps != [] {
      var front, last := steps[..|steps| - 1], steps[|steps| - 1];
      var before :| Follows(reqs, front, before) && Leads(reqs, before, last, s);
      SchedulesAreBounded(reqs, front, before);
      InvReachable(reqs, front, before);
      CountStep(reqs, before, last);
    }
  }

  /** Bidders that send their result do not panic afterwards. */
  ghost predicate NoLatePanics(reqs: seq<Request>) {
    forall i :: 0 <= i < |reqs| && reqs[i].outcome.Returns? ==> !reqs[i].outcome.thenPanics
  }

  /** Without late panics a goroutine that wants to send never finds the channel full. */
  lemma NoSenderBlocks(reqs: seq<Request>, steps: seq<Step>, s: State, i: nat)
    requires Follows(reqs, steps, s) && NoLatePanics(reqs)
    requires i < |reqs| && |s.phases| == |reqs|
    requires (s.phases[i].Running? && reqs[i].outcome.Returns?) || s.phases[i].Crashed?
    ensures |s.channel| < |reqs|
    ensures Enabled(reqs, s, if s.phases[i].Crashed? then Recover(i) else Send(i))
  {
    InvReachable(reqs, steps, s);
    SchedulesAreBounded(reqs, steps, s);
    var sent := SentBy(reqs, s.phases);
    assert sent[i] < 1;
    SumBounds(sent, 0, 1);
  }

  ghost predicate Finished(reqs: seq<Request>, s: State) {
    |s.received| == |reqs| && forall i :: 0 <= i < |s.phases| ==> s.phases[i].Done?
  }

  /** No deadlock, even with late panics: until everybody is done some step can be taken. */
  lemma NoDeadlock(reqs: seq<Request>, steps: seq<Step>, s: State) returns (next: Step)
    requires Follows(reqs, steps, s) && !Finished(reqs, s)
    ensures |s.phases| == |reqs| && Enabled(reqs, s, next)
  {
    InvReachable(reqs, steps, s);
    SchedulesAreBounded(reqs, steps, s);
    var sent := SentBy(reqs, s.phases);
    if |s.received| < |reqs| && s.channel != [] {
      next := Receive;
    } else if i: nat :| i < |reqs| && !s.phases[i].Done? {
      assert sent[i] < 2;
      SumBounds(sent, 0, 2);
      next := if s.phases[i].Crashed? then Recover(i) else if reqs[i].outcome.Panics? then Panic(i) else Send(i);
    } else {
      SumBounds(sent, 1, 2);
      assert false;
    }
  }

  // ---------- the result ----------

  predicate HasBids(o: Outcome) {
    o.Returns? && o.bids.Some? && |o.bids.value| > 0
  }

  ghost predicate DistinctNames(reqs: seq<Request>) {
    forall i, j :: 0 <= i < j < |reqs| ==> reqs[i].name != reqs[j].name
  }

  /** The bids of every bidder that returned some. */
  ghost function ExpectedBids(reqs: seq<Request>): map<string, SeatBids>
    requires DistinctNames(reqs)
  {
    map i | 0 <= i < |reqs| && HasBids(reqs[i].outcome) :: reqs[i].name := reqs[i].outcome.bids.value
  }

  predicate Carries(m: Msg) {
    m.bids.Some? && |m.bids.value| > 0
  }

  /** The collected bids are those of the last message with bids from each bidder. */
  lemma {:induction false} CollectedBids(msgs: seq<Msg>)
    ensures var bids := AbsorbAll(msgs).adapterBids;
            && (forall b :: b in bids ==>
              exists k :: 0 <= k < |msgs| && msgs[k].bidder == b && msgs[k].bids == Some(bids[b]))
            && (forall k :: 0 <= k < |msgs| && Carries(msgs[k]) ==> msgs[k].bidder in bids)
  {
    if msgs != [] {
      var n := |msgs| - 1;
      CollectedBids(msgs[..n]);
      var before, bids := AbsorbAll(msgs[..n]).adapterBids, AbsorbAll(msgs).adapterBids;
      forall b | b in bids ensures exists k :: 0 <= k < |msgs| && msgs[k].bidder == b && msgs[k].bids == Some(bids[b]) {
        if Carries(msgs[n]) && b == msgs[n].bidder {
          assert msgs[n].bids == Some(bids[b]);
        } else {
          var k :| 0 <= k < n && msgs[..n][k].bidder == b && msgs[..n][k].bids == Some(before[b]);
          assert msgs[k].bids == Some(bids[b]);
        }
      }
    }
  }

  /** Bids in the collection were returned by the bidder they are filed under. */
  lemma CollectedWasReturned(reqs: seq<Request>, s: State, b: string) returns (i: nat)
    requires Inv(reqs, s) && b in s.collected.adapterBids
    ensures i < |reqs| && reqs[i].name == b && HasBids(reqs[i].outcome) && !s.phases[i].Running?
    ensures reqs[i].outcome.bids == Some(s.collected.adapterBids[b])
  {
    CollectedBids(s.received);
    var k :| 0 <= k < |s.received| && s.received[k].bidder == b &&
      s.received[k].bids == Some(s.collected.adapterBids[b]);
    assert Traffic(s)[k] == s.received[k];
    assert HasSent(reqs, s, Traffic(s)[k]);
    i := s.received[k].origin;
  }

  /** Once the results of all bidders with bids are received, the collected bids are the expected ones. */
  lemma CollectedIsExpected(reqs: seq<Request>, s: State)
    requires Inv(reqs, s) && DistinctNames(reqs)
    requires forall i :: 0 <= i < |reqs| && HasBids(reqs[i].outcome) ==> Result(reqs, i) in s.received
    ensures s.collected.adapterBids == ExpectedBids(reqs)
  {
    var bids, expected := s.collected.adapterBids, ExpectedBids(reqs);
    forall b | b in bids ensures b in expected && bids[b] == expected[b] {
      var i := CollectedWasReturned(reqs, s, b);
    }
    forall b | b in expected ensures b in bids {
      var i :| 0 <= i < |reqs| && HasBids(reqs[i].outcome) && reqs[i].name == b;
      ReceivedIsCollected(reqs, s, i);
    }
  }

  lemma ReceivedIsCollected(reqs: seq<Request>, s: State, i: nat)
    requires s.collected == AbsorbAll(s.received)
    requires i < |reqs| && HasBids(reqs[i].outcome) && Result(reqs, i) in s.received
    ensures reqs[i].name in s.collected.adapterBids
  {
    CollectedBids(s.received);
    var k :| 0 <= k < |s.received| && s.received[k] == Result(reqs, i);
    assert Carries(s.received[k]);
  }

  /** A goroutine's own result comes before the message of its later recovery. */
  ghost predicate InOrder(traffic: seq<Msg>) {
    forall a, b :: 0 <= a < |traffic| && 0 <= b < |traffic| ==>
      traffic[a].genuine && !traffic[b].genuine && traffic[a].origin == traffic[b].origin ==> a < b
  }

  lemma InOrderStep(reqs: seq<Request>, s: State, step: Step)
    requires Inv(reqs, s) && Enabled(reqs, s, step) && InOrder(Traffic(s))
    ensures InOrder(Traffic(Take(reqs, s, step)))
  {
    var traffic := Traffic(Take(reqs, s, step));
    match step
    case Send(i) =>
      assert traffic == Traffic(s) + [Result(reqs, i)];
      assert forall b :: 0 <= b < |Traffic(s)| && !Traffic(s)[b].genuine ==> HasSent(reqs, s, Traffic(s)[b]);
    case Panic(i) => assert traffic == Traffic(s);
    case Recover(i) => assert traffic == Traffic(s) + [Empty(i)];
    case Receive => assert traffic == Traffic(s);
  }

  lemma {:induction false} InOrderReachable(reqs: seq<Request>, steps: seq<Step>, s: State)
    requires Follows(reqs, steps, s)
    ensures InOrder(Traffic(s))
  {
    hide InOrder, Inv;
    if steps == [] {
      EmptyInOrder(reqs);
    } else {
      var front, last := steps[..|steps| - 1], steps[|steps| - 1];
      var before :| Follows(reqs, front, before) && Leads(reqs, before, last, s);
      InOrderReachable(reqs, front, before);
      InvReachable(reqs, front, before);
      InOrderStep(reqs, before, last);
    }
  }

  lemma EmptyInOrder(reqs: seq<Request>)
    ensures InOrder(Traffic(Init(reqs)))
  {
  }

  lemma {:induction false} DistinctFits(xs: seq<int>, bag: set<int>)
    requires Distinct(xs) && forall k :: 0 <= k < |xs| ==> xs[k] in bag
    ensures |xs| <= |bag|
  {
    if xs != [] {
      var n := |xs| - 1;
      DistinctFits(xs[..n], bag - {xs[n]});
    }
  }

  ghost function Range(n: nat): (r: set<int>)
    ensures forall k :: k in r <==> 0 <= k < n
    ensures |r| == n
  {
    if n == 0 then {} else Range(n - 1) + {n - 1}
  }

  predicate IsLate(o: Outcome) {
    o.Returns? && o.thenPanics
  }

  /** A bidder that panics after sending takes the place of nobody that has bids. */
  ghost predicate Harmless(reqs: seq<Request>) {
    forall j, k :: 0 <= j < |reqs| && 0 <= k < |reqs| && j != k && IsLate(reqs[j].outcome) ==> !HasBids(reqs[k].outcome)
  }

  ghost predicate OthersOnTime(reqs: seq<Request>, i: nat) {
    forall j :: 0 <= j < |reqs| && j != i ==> !IsLate(reqs[j].outcome)
  }

  /** When the collector has its messages, a bidder's result is among them unless another bidder panicked late. */
  lemma NobodyLeftOut(reqs: seq<Request>, steps: seq<Step>, s: State, i: nat)
    requires Follows(reqs, steps, s) && |s.received| == |reqs|
    requires i < |reqs| && reqs[i].outcome.Returns? && OthersOnTime(reqs, i)
    ensures Result(reqs, i) in s.received
  {
    InvReachable(reqs, steps, s);
    InOrderReachable(reqs, steps, s);
    if Result(reqs, i) !in s.received {
      var origins := seq(|s.received|, k requires 0 <= k < |s.received| => s.received[k].origin);
      OriginsDiffer(reqs, s, i);
      DistinctFits(origins, Range(|reqs|) - {i});
    }
  }

  /** Without its result in it, the received messages have different origins and none is `i`. */
  lemma OriginsDiffer(reqs: seq<Request>, s: State, i: nat)
    requires Inv(reqs, s) && InOrder(Traffic(s))
    requires i < |reqs| && reqs[i].outcome.Returns? && OthersOnTime(reqs, i) && Result(reqs, i) !in s.received
    ensures forall k :: 0 <= k < |s.received| ==> s.received[k].origin < |reqs| && s.received[k].origin != i
    ensures forall a, b :: 0 <= a < b < |s.received| ==> s.received[a].origin != s.received[b].origin
  {
    forall k | 0 <= k < |s.received| ensures s.received[k].origin < |reqs| && s.received[k].origin != i {
      assert Traffic(s)[k] == s.received[k];
      assert HasSent(reqs, s, Traffic(s)[k]);
    }
    forall a, b | 0 <= a < b < |s.received| ensures s.received[a].origin != s.received[b].origin {
      assert Traffic(s)[a] == s.received[a] && Traffic(s)[b] == s.received[b];
      assert HasSent(reqs, s, Traffic(s)[a]) && HasSent(reqs, s, Traffic(s)[b]);
    }
  }

  lemma {:induction false} CollectedExtra(msgs: seq<Msg>)
    ensures var extra := AbsorbAll(msgs).adapterExtra;
            && (forall b :: b in extra ==>
              exists k :: 0 <= k < |msgs| && msgs[k].bidder == b && msgs[k].extra == extra[b])
            && (forall k :: 0 <= k < |msgs| ==> msgs[k].bidder in extra)
  {
    if msgs != [] {
      var n := |msgs| - 1;
      CollectedExtra(msgs[..n]);
      var before, extra := AbsorbAll(msgs[..n]).adapterExtra, AbsorbAll(msgs).adapterExtra;
      forall b | b in extra ensures exists k :: 0 <= k < |msgs| && msgs[k].bidder == b && msgs[k].extra == extra[b] {
        if b == msgs[n].bidder {
          assert msgs[n].extra == extra[b];
        } else {
          var k :| 0 <= k < n && msgs[..n][k].bidder == b && msgs[..n][k].extra == before[b];
          assert msgs[k].extra == extra[b];
        }
      }
    }
  }

  /** A bidder's metadata arrives with its result, bids or not; panicking bidders share the nameless entry. */
  lemma ExtraIsKept(reqs: seq<Request>, steps: seq<Step>, s: State, i: nat)
    requires DistinctNames(reqs) && Follows(reqs, steps, s) && |s.received| == |reqs|
    requires i < |reqs| && reqs[i].outcome.Returns? && reqs[i].name != "" && OthersOnTime(reqs, i)
    ensures reqs[i].name in s.collected.adapterExtra
    ensures s.collected.adapterExtra[reqs[i].name] == reqs[i].outcome.extra
  {
    InvReachable(reqs, steps, s);
    NobodyLeftOut(reqs, steps, s, i);
    CollectedExtra(s.received);
    var name := reqs[i].name;
    var a :| 0 <= a < |s.received| && s.received[a] == Result(reqs, i);
    assert s.received[a].bidder == name;
    var k :| 0 <= k < |s.received| && s.received[k].bidder == name &&
      s.received[k].extra == s.collected.adapterExtra[name];
    assert Traffic(s)[k] == s.received[k];
    assert HasSent(reqs, s, Traffic(s)[k]);
  }

  lemma ExactWhenHarmless(reqs: seq<Request>, steps: seq<Step>, s: State)
    requires DistinctNames(reqs) && Harmless(reqs)
    requires Follows(reqs, steps, s) && |s.received| == |reqs|
    ensures s.collected.adapterBids == ExpectedBids(reqs)
    ensures s.collected.bidsFound <==> ExpectedBids(reqs) != map[]
  {
    InvReachable(reqs, steps, s);
    forall i | 0 <= i < |reqs| && HasBids(reqs[i].outcome) ensures Result(reqs, i) in s.received {
      NobodyLeftOut(reqs, steps, s, i);
    }
    CollectedIsExpected(reqs, s);
  }

  /** The bidder returned the bids, and there are some. */
  ghost predicate Returned(reqs: seq<Request>, i: nat, bids: SeatBids)
    requires i < |reqs|
  {
    reqs[i].outcome.Returns? && reqs[i].outcome.bids == Some(bids) && bids != []
  }

  /** A bidder is in the map exactly if it returned bids, with those bids. */
  ghost predicate ExactlyReturned(reqs: seq<Request>, bids: map<string, SeatBids>) {
    && (forall i: nat, x :: i < |reqs| && Returned(reqs, i, x) ==> reqs[i].name in bids && bids[reqs[i].name] == x)
    && (forall name :: name in bids ==>
      exists i: nat :: i < |reqs| && reqs[i].name == name && Returned(reqs, i, bids[name]))
  }

  lemma ExpectedIsReturned(reqs: seq<Request>)
    requires DistinctNames(reqs)
    ensures ExactlyReturned(reqs, ExpectedBids(reqs))
  {
    var expected := ExpectedBids(reqs);
    forall name | name in expected
      ensures exists i: nat :: i < |reqs| && reqs[i].name == name && Returned(reqs, i, expected[name])
    {
      var i :| 0 <= i < |reqs| && HasBids(reqs[i].outcome) && reqs[i].name == name;
      assert Returned(reqs, i, expected[name]);
    }
  }

  /**
   * If nobody panics after sending, every run collects exactly the bids returned, and finds bids
   * exactly if somebody returned some.
   */
  lemma CollectedInPlainTerms(reqs: seq<Request>, steps: seq<Step>, s: State)
    requires Follows(reqs, steps, s) && |s.received| == |reqs| && NoLatePanics(reqs)
    requires forall i, j :: 0 <= i < j < |reqs| ==> reqs[i].name != reqs[j].name
    ensures ExactlyReturned(reqs, s.collected.adapterBids)
    ensures s.collected.bidsFound <==> exists i: nat, x :: i < |reqs| && Returned(reqs, i, x)
  {
    hide Follows, ExpectedBids, Returned;
    ExactWhenHarmless(reqs, steps, s);
    ExpectedIsReturned(reqs);
    if s.collected.bidsFound {
      var name := Pick(s.collected.adapterBids.Keys);
      var i: nat :| i < |reqs| && reqs[i].name == name && Returned(reqs, i, s.collected.adapterBids[name]);
    }
  }

  // ---------- a late panic can cost another bidder its place ----------

  lemma Follow(reqs: seq<Request>, steps: seq<Step>, s: State, step: Step) returns (steps': seq<Step>, s': State)
    requires Follows(reqs, steps, s) && |s.phases| == |reqs| && Enabled(reqs, s, step)
    ensures s' == Take(reqs, s, step) && Follows(reqs, steps', s')
  {
    steps', s' := steps + [step], Take(reqs, s, step);
    assert steps'[..|steps'| - 1] == steps && Leads(reqs, s, step, s');
  }

  /**
   * How many messages are in the channel when `j` has sent twice and, of the first `m` bidders, all
   * but `j` and `k` once.
   */
  function Crowd(j: nat, k: nat, m: nat): int {
    2 + m - (if j < m then 1 else 0) - (if k < m then 1 else 0)
  }

  /** Everybody but `k` sends, `j` twice, while the collector sleeps. */
  lemma {:induction false} AllButOneSend(reqs: seq<Request>, j: nat, k: nat, m: nat)
    returns (steps: seq<Step>, s: State)
    requires j < |reqs| && k < |reqs| && j != k && IsLate(reqs[j].outcome) && m <= |reqs|
    ensures Follows(reqs, steps, s) && |s.phases| == |reqs|
    ensures s.received == [] && |s.channel| == Crowd(j, k, m)
    ensures s.phases[k].Running?
    ensures forall i :: m <= i < |reqs| && i != j ==> s.phases[i].Running?
  {
    if m == 0 {
      steps, s := [], Init(reqs);
      steps, s := Follow(reqs, steps, s, Send(j));
      steps, s := Follow(reqs, steps, s, Recover(j));
    } else {
      steps, s := AllButOneSend(reqs, j, k, m - 1);
      var i := m - 1;
      if i != j && i != k {
        if reqs[i].outcome.Panics? {
          steps, s := Follow(reqs, steps, s, Panic(i));
          steps, s := Follow(reqs, steps, s, Recover(i));
        } else {
          steps, s := Follow(reqs, steps, s, Send(i));
        }
      }
    }
  }

  /** The collector drains the channel up to its quota. */
  lemma {:induction false} Drain(reqs: seq<Request>, steps: seq<Step>, s: State, left: nat)
    returns (steps': seq<Step>, s': State)
    requires Follows(reqs, steps, s) && |s.phases| == |reqs|
    requires left == |s.channel| && |s.received| + left == |reqs|
    ensures Follows(reqs, steps', s') && |s'.received| == |reqs| && s'.phases == s.phases
    decreases left
  {
    steps', s' := steps, s;
    if left > 0 {
      steps', s' := Follow(reqs, steps, s, Receive);
      steps', s' := Drain(reqs, steps', s', left - 1);
    }
  }

  ghost predicate ExactInEveryRun(reqs: seq<Request>)
    requires DistinctNames(reqs)
  {
    forall steps, s :: Follows(reqs, steps, s) && |s.received| == |reqs| ==>
      s.collected.adapterBids == ExpectedBids(reqs)
  }

  /**
   * Exactly when the collected bids never depend on the interleaving: no bidder panics after
   * sending, unless every other bidder has no bids to lose.
   */
  lemma ExactIffHarmless(reqs: seq<Request>)
    requires DistinctNames(reqs)
    ensures ExactInEveryRun(reqs) <==> Harmless(reqs)
  {
    if Harmless(reqs) {
      forall steps, s | Follows(reqs, steps, s) && |s.received| == |reqs|
        ensures s.collected.adapterBids == ExpectedBids(reqs)
      {
        ExactWhenHarmless(reqs, steps, s);
      }
    } else {
      var j: nat, k: nat :| j < |reqs| && k < |reqs| && j != k && IsLate(reqs[j].outcome) && HasBids(reqs[k].outcome);
      var steps, s := AllButOneSend(reqs, j, k, |reqs|);
      steps, s := Drain(reqs, steps, s, |s.channel|);
      InvReachable(reqs, steps, s);
      assert reqs[k].name in ExpectedBids(reqs);
      if reqs[k].name in s.collected.adapterBids {
        var i := CollectedWasReturned(reqs, s, reqs[k].name);
        assert false;
      }
    }
  }
}
