// minimize.go: minimizeChainCandidate. Dropping steps of a request chain that still crashes without them.
module ChainMinimizer {

  datatype Step = Step(verb: string, path: string, headers: map<string, string>, body: string)

  datatype Reply = Failed | Answered(status: int)

  // The target may remember everything: its answer depends on all requests sent so far, this one last.
  type Target = seq<Step> -> Reply

  type Chain = seq<Step>

  // ---- one replay ----

  // What sending the steps in order does, starting after `sent`: the requests now sent, and whether the last one
  // crashed. `budget` is how many more requests may be sent.
  datatype Replay = Replay(sent: Chain, crashed: bool)

  function Send(target: Target, sent: Chain, budget: int, steps: Chain, last: int): (r: Replay)
    ensures sent <= r.sent && (budget >= 0 ==> |r.sent| <= |sent| + budget)
    decreases |steps|
  {
    if steps == [] then Replay(sent, last >= 500)
    else if budget <= 0 then Replay(sent, false)
    else
      var now := sent + [steps[0]];
      match target(now)
      case Failed => Replay(now, false)
      case Answered(status) => Send(target, now, budget - 1, steps[1..], status)
  }

  // ---- dropping steps, last to first ----

  datatype State = State(history: Chain, sent: Chain, changed: bool)

  function Without(c: Chain, i: nat): Chain
    requires i < |c|
  {
    c[..i] + c[i + 1..]
  }

  // After trying the chain without step i.
  function Tried(st: State, i: nat, r: Replay): State
    requires i < |st.history|
  {
    if r.crashed then State(Without(st.history, i), r.sent, true) else st.(sent := r.sent)
  }

  // Steps i, i - 1, ..., 0.
  function Drop(target: Target, max: nat, st: State, i: int): (r: State)
    requires i < |st.history| - 1
    ensures |r.history| > 0 || st.history == []
    ensures st.sent <= r.sent
    decreases i
  {
    if i < 0 || |st.sent| >= max then st
    else
      Drop(target, max, Tried(st, i, Send(target, st.sent, max - |st.sent|, Without(st.history, i), 0)), i - 1)
  }

  // `sent` is every request the minimization made, in order.
  datatype Outcome = NoChain | Chained(history: Chain, changed: bool, probes: nat, sent: Chain)

  function Minimize(target: Target, max: int, history: Chain): Outcome {
    if |history| <= 1 then NoChain
    else if max <= 0 then Chained(history, false, 0, [])
    else
      var r := Drop(target, max, State(history, [], false), |history| - 2);
      Chained(r.history, r.changed, |r.sent|, r.sent)
  }

  // ---- the loops, against these functions ----

  class Fuzzer {
    const target: Target
    var sent: Chain       // every request this minimization sent
    var probes: nat

    constructor (target: Target)
      ensures this.target == target && sent == [] && probes == 0
    {
      this.target, sent, probes := target, [], 0;
    }

    method SendOne(step: Step) returns (res: Reply)
      modifies this`sent
      ensures sent == old(sent) + [step] && res == target(sent)
    {
      sent := sent + [step];
      res := target(sent);
    }

    method StillCrashes(steps: Chain, max: nat) returns (crashed: bool)
      requires probes == |sent|
      modifies this`sent, this`probes
      ensures probes == |sent|
      ensures Replay(sent, crashed) == Send(target, old(sent), max - old(probes), steps, 0)
    {
      var lastStatus, i := 0, 0;
      while i < |steps|
        invariant i <= |steps| && probes == |sent|
        invariant Send(target, sent, max - probes, steps[i..], lastStatus)
               == Send(target, old(sent), max - old(probes), steps, 0)
      {
        assert steps[i..][0] == steps[i] && steps[i..][1..] == steps[i + 1..];
        if probes >= max {
          return false;
        }
        probes := probes + 1;
        var res := SendOne(steps[i]);
        if res.Failed? {
          return false;
        }
        lastStatus := res.status;
        i := i + 1;
      }
      return lastStatus >= 500;
    }

    method MinimizeChainCandidate(original: Chain, max: int) returns (r: Outcome)
      requires sent == [] && probes == 0
      modifies this`sent, this`probes
      ensures r == Minimize(target, max, original)
      ensures r.Chained? ==> r.probes == probes == |sent| && r.sent == sent
    {
      if |original| <= 1 {
        return NoChain;
      }
      if max <= 0 {
        return Chained(original, false, 0, []);
      }
      var history, changed := original, false;
      var i := |history| - 2;
      ghost var result := Drop(target, max, State(history, [], false), i);
      while i >= 0
        invariant -1 <= i < |history| - 1 && probes == |sent|
        invariant result == Drop(target, max, State(history, sent, changed), i)
        decreases i
      {
        if probes >= max {
          break;
        }
        var candidate := history[..i] + history[i + 1..];
        if |candidate| == 0 {
          i := i - 1;
          continue;
        }
        var crashed := StillCrashes(candidate, max);
        if crashed {
          history, changed := candidate, true;
        }
        i := i - 1;
      }
      return Chained(history, changed, probes, sent);
    }
  }

  // ---- the result, for any target ----

  ghost predicate Picks(pick: seq<nat>, c: Chain, original: Chain) {
    && |pick| == |c|
    && (forall k | 0 <= k < |pick| :: pick[k] < |original| && c[k] == original[pick[k]])
    && (forall a, b | 0 <= a < b < |pick| :: pick[a] < pick[b])
  }

  // c is what is left of the original after dropping some steps other than the last.
  ghost predicate Shortened(c: Chain, original: Chain) {
    c != [] && original != [] && exists pick :: Picks(pick, c, original) && pick[|pick| - 1] == |original| - 1
  }

  lemma ShortenedSelf(c: Chain)
    requires c != []
    ensures Shortened(c, c)
  {
    var pick: seq<nat> := seq(|c|, i => i);
    assert Picks(pick, c, c);
  }

  lemma PicksWithout(pick: seq<nat>, c: Chain, original: Chain, i: nat)
    requires Picks(pick, c, original) && i < |c|
    ensures Picks(pick[..i] + pick[i + 1..], Without(c, i), original)
  {
    var fewer, d := pick[..i] + pick[i + 1..], Without(c, i);
    forall k | 0 <= k < |fewer|
      ensures fewer[k] < |original| && d[k] == original[fewer[k]]
    {
      assert fewer[k] == pick[if k < i then k else k + 1];
    }
  }

  lemma WithoutShortened(c: Chain, i: nat, original: Chain)
    requires Shortened(c, original) && i < |c| - 1
    ensures Shortened(Without(c, i), original)
  {
    var pick :| Picks(pick, c, original) && pick[|pick| - 1] == |original| - 1;
    PicksWithout(pick, c, original, i);
    assert |pick| == |c|;
    hide Picks;
    var fewer := pick[..i] + pick[i + 1..];
    assert fewer[|fewer| - 1] == pick[|pick| - 1];
  }

  // A full replay within the budget, without transport errors, ending in a crash.
  ghost predicate FullCrash(target: Target, before: Chain, c: Chain) {
    && c != []
    && (forall k | 0 < k <= |c| :: target(before + c[..k]).Answered?)
    && target(before + c).Answered? && target(before + c).status >= 500
  }

  lemma {:induction false} CrashMeansFullReplay(target: Target, sent: Chain, budget: int, steps: Chain, last: int)
    requires steps != [] && Send(target, sent, budget, steps, last).crashed
    ensures FullCrash(target, sent, steps) && |steps| <= budget
    ensures Send(target, sent, budget, steps, last).sent == sent + steps
    decreases |steps|
  {
    var now, more := sent + [steps[0]], steps[1..];
    assert now + more == sent + steps;
    if more == [] {
      assert steps == [steps[0]];
      assert forall k | 0 < k <= |steps| :: steps[..k] == steps;
    } else {
      var status := target(now).status;
      CrashMeansFullReplay(target, now, budget - 1, more, status);
      forall k | 0 < k <= |steps|
        ensures target(sent + steps[..k]).Answered?
      {
        if k == 1 {
          assert sent + steps[..k] == now;
        } else {
          assert sent + steps[..k] == now + more[..k - 1];
        }
      }
    }
  }

  // When a step was dropped, what is left was replayed completely at some point, and crashed.
  ghost predicate Proven(target: Target, st: State) {
    st.changed ==> exists before :: FullCrash(target, before, st.history) && before + st.history <= st.sent
  }

  lemma {:induction false} DropIsSafe(target: Target, max: nat, st: State, i: int, original: Chain)
    requires i < |st.history| - 1 && Shortened(st.history, original) && Proven(target, st) && |st.sent| <= max
    requires !st.changed ==> st.history == original
    ensures
      var r := Drop(target, max, st, i);
      && Shortened(r.history, original) && |r.sent| <= max && Proven(target, r)
      && (!r.changed ==> r.history == original)
    decreases i
  {
    hide Shortened, FullCrash;
    if i >= 0 && |st.sent| < max {
      var candidate := Without(st.history, i);
      var r := Send(target, st.sent, max - |st.sent|, candidate, 0);
      var next := Tried(st, i, r);
      if r.crashed {
        CrashMeansFullReplay(target, st.sent, max - |st.sent|, candidate, 0);
        WithoutShortened(st.history, i, original);
        assert FullCrash(target, st.sent, candidate) && st.sent + candidate <= r.sent;
      } else if st.changed {
        var before :| FullCrash(target, before, st.history) && before + st.history <= st.sent;
        assert before + st.history <= r.sent;
      }
      assert Proven(target, next);
      DropIsSafe(target, max, next, i - 1, original);
    }
  }

  // For any target: the result is the original chain without some of its non-final steps, within the budget; and if it
  // was changed, it is a candidate whose complete replay is among the requests sent, and ended in a crash.
  lemma MinimizerIsSafe(target: Target, max: int, original: Chain)
    requires Minimize(target, max, original).Chained?
    ensures
      var r := Minimize(target, max, original);
      && Shortened(r.history, original)
      && r.history[|r.history| - 1] == original[|original| - 1]
      && r.probes == |r.sent| && (max > 0 ==> r.probes <= max) && (max <= 0 ==> r.probes == 0)
      && (!r.changed ==> r.history == original)
      && (r.changed ==> exists before :: FullCrash(target, before, r.history) && before + r.history <= r.sent)
  {
    hide Shortened, FullCrash;
    ShortenedSelf(original);
    if max > 0 {
      DropIsSafe(target, max, State(original, [], false), |original| - 2, original);
    }
    ShortenedKeepsLast(Minimize(target, max, original).history, original);
  }

  lemma ShortenedKeepsLast(c: Chain, original: Chain)
    requires Shortened(c, original)
    ensures c != [] && original != [] && c[|c| - 1] == original[|original| - 1]
  {
    var pick :| Picks(pick, c, original) && pick[|pick| - 1] == |original| - 1;
  }

  // ---- local minimality, for a pass whose replays tell what the chains do ----

  // Every replay the pass makes from here on, if the budget lets it finish, comes out as `crashes` says of its chain.
  ghost predicate Agrees(target: Target, crashes: Chain -> bool, max: nat, st: State, i: int)
    requires i < |st.history| - 1
    decreases i
  {
    i >= 0 && |st.sent| < max ==>
      var candidate := Without(st.history, i);
      var r := Send(target, st.sent, max - |st.sent|, candidate, 0);
      && (max - |st.sent| >= |candidate| ==> r.crashed == crashes(candidate))
      && Agrees(target, crashes, max, Tried(st, i, r), i - 1)
  }

  // Among the chains left of the original, adding a step never makes a crash go away.
  ghost predicate Monotone(crashes: Chain -> bool, original: Chain) {
    forall c, i: nat {:trigger Without(c, i)} |
      Shortened(c, original) && i < |c| - 1 && crashes(Without(c, i)) :: crashes(c)
  }

  // No step from i on, the last one apart, can be dropped.
  ghost predicate MinimalFrom(crashes: Chain -> bool, c: Chain, i: int) {
    forall j: nat {:trigger Without(c, j)} | i <= j < |c| - 1 :: !crashes(Without(c, j))
  }

  lemma WithoutTwice(c: Chain, i: nat, j: nat)
    requires i <= j < |c| - 1
    ensures Without(Without(c, i), j) == Without(Without(c, j + 1), i)
  {
  }

  // A successful drop keeps later steps undroppable.
  lemma DropKeepsMinimal(crashes: Chain -> bool, c: Chain, i: nat, original: Chain)
    requires Monotone(crashes, original) && Shortened(c, original)
    requires i < |c| - 1 && MinimalFrom(crashes, c, i + 1)
    ensures MinimalFrom(crashes, Without(c, i), i)
  {
    hide Shortened;
    var d := Without(c, i);
    forall j: nat | i <= j < |d| - 1
      ensures !crashes(Without(d, j))
    {
      WithoutTwice(c, i, j);
      WithoutShortened(c, j + 1, original);
      var e := Without(c, j + 1);
      assert crashes(Without(e, i)) ==> crashes(e);
    }
  }

  lemma {:induction false} SendCost(target: Target, sent: Chain, budget: int, steps: Chain, last: int)
    ensures |Send(target, sent, budget, steps, last).sent| <= |sent| + |steps|
    decreases |steps|
  {
    if steps != [] && budget > 0 && target(sent + [steps[0]]).Answered? {
      SendCost(target, sent + [steps[0]], budget - 1, steps[1..], target(sent + [steps[0]]).status);
    }
  }

  lemma {:induction false} DropIsMinimal(target: Target, crashes: Chain -> bool, max: nat, st: State, i: int, w: nat,
                                         original: Chain)
    requires Monotone(crashes, original) && Shortened(st.history, original)
    requires -1 <= i < |st.history| - 1 <= w && MinimalFrom(crashes, st.history, i + 1)
    requires Agrees(target, crashes, max, st, i) && (i + 1) * w <= max - |st.sent|
    ensures MinimalFrom(crashes, Drop(target, max, st, i).history, 0)
    ensures crashes(st.history) ==> crashes(Drop(target, max, st, i).history)
    decreases i
  {
    hide Shortened, Monotone;
    if i >= 0 {
      var candidate := Without(st.history, i);
      var budget := max - |st.sent|;
      assert (i + 1) * w == i * w + w;
      assert i * w >= 0;
      assert budget >= w >= |candidate| > 0;
      var r := Send(target, st.sent, budget, candidate, 0);
      SendCost(target, st.sent, budget, candidate, 0);
      if r.crashed {
        DropKeepsMinimal(crashes, st.history, i, original);
        WithoutShortened(st.history, i, original);
      }
      DropIsMinimal(target, crashes, max, Tried(st, i, r), i - 1, w, original);
    }
  }

  // With budget for one replay per step, no remaining non-final step can be dropped any more, and what crashed before
  // crashes still.
  lemma MinimizerIsLocallyMinimal(target: Target, crashes: Chain -> bool, max: nat, original: Chain)
    requires |original| > 1 && Monotone(crashes, original)
    requires Agrees(target, crashes, max, State(original, [], false), |original| - 2)
    requires max >= (|original| - 1) * (|original| - 1) && max > 0
    ensures
      var r := Minimize(target, max, original);
      && r.Chained? && (crashes(original) ==> crashes(r.history))
      && forall j: nat {:trigger Without(r.history, j)} | j < |r.history| - 1 :: !crashes(Without(r.history, j))
  {
    hide Shortened, Monotone, Agrees, Drop;
    ShortenedSelf(original);
    var i, w := |original| - 2, |original| - 1;
    assert i + 1 == w;
    DropIsMinimal(target, crashes, max, State(original, [], false), i, w, original);
  }

  // Without any condition on budget or on added steps: what crashed stays a chain that does.
  lemma {:induction false} DropKeepsCrash(target: Target, crashes: Chain -> bool, max: nat, st: State, i: int)
    requires i < |st.history| - 1 && Agrees(target, crashes, max, st, i) && crashes(st.history)
    ensures crashes(Drop(target, max, st, i).history)
    decreases i
  {
    if i >= 0 && |st.sent| < max {
      var candidate := Without(st.history, i);
      var r := Send(target, st.sent, max - |st.sent|, candidate, 0);
      if r.crashed {
        CrashMeansFullReplay(target, st.sent, max - |st.sent|, candidate, 0);
      }
      DropKeepsCrash(target, crashes, max, Tried(st, i, r), i - 1);
    }
  }

  // A chain by itself, on a target that was sent nothing before.
  function Alone(target: Target): Chain -> bool {
    (c: Chain) => Send(target, [], |c|, c, 0).crashed
  }

  // When the pass's replays come out as they would alone, the result reproduces the crash by itself.
  lemma ResultReproduces(target: Target, max: nat, original: Chain)
    requires |original| > 1 && Agrees(target, Alone(target), max, State(original, [], false), |original| - 2)
    requires Alone(target)(original)
    ensures Alone(target)(Minimize(target, max, original).history)
  {
    hide Agrees, Alone, Send;
    if max > 0 {
      DropKeepsCrash(target, Alone(target), max, State(original, [], false), |original| - 2);
    }
  }

  // ---- targets that start over after the final step ----

  predicate Rested(sent: Chain, last: Step) {
    sent == [] || sent[|sent| - 1] == last
  }

  ghost predicate AlwaysAnswers(target: Target) {
    forall sent {:trigger target(sent)} :: target(sent).Answered?
  }

  // After nothing, or after the final step of an earlier replay, the outcome is a matter of the chain alone.
  ghost predicate StartsOver(target: Target, crashes: Chain -> bool, original: Chain)
    requires original != []
  {
    forall before, c {:trigger target(before + c)} |
      Rested(before, original[|original| - 1]) && Shortened(c, original) ::
        target(before + c).Answered? ==> (target(before + c).status >= 500) == crashes(c)
  }

  // With an answer to everything, a replay sends all its steps, or as many as the budget has left.
  lemma {:induction false} SendAll(target: Target, sent: Chain, budget: nat, steps: Chain, last: int)
    requires AlwaysAnswers(target)
    ensures
      var r := Send(target, sent, budget, steps, last);
      if budget < |steps| then |r.sent| == |sent| + budget && !r.crashed
      else
        && r.sent == sent + steps
        && r.crashed == if steps == [] then last >= 500 else target(sent + steps).status >= 500
    decreases |steps|
  {
    if steps == [] {
      assert sent + steps == sent;
    } else if budget > 0 {
      var now := sent + [steps[0]];
      assert now + steps[1..] == sent + steps;
      SendAll(target, now, budget - 1, steps[1..], target(now).status);
    }
  }

  lemma {:induction false} StartingOverAgrees(target: Target, crashes: Chain -> bool, max: nat, st: State, i: int,
                                              original: Chain)
    requires original != [] && AlwaysAnswers(target) && StartsOver(target, crashes, original)
    requires -1 <= i < |st.history| - 1 && Shortened(st.history, original)
    requires Rested(st.sent, original[|original| - 1]) || |st.sent| >= max
    ensures Agrees(target, crashes, max, st, i)
    decreases i
  {
    hide Shortened, AlwaysAnswers;
    if i >= 0 && |st.sent| < max {
      var candidate, budget := Without(st.history, i), max - |st.sent|;
      WithoutShortened(st.history, i, original);
      ShortenedKeepsLast(candidate, original);
      SendAll(target, st.sent, budget, candidate, 0);
      var r := Send(target, st.sent, budget, candidate, 0);
      if budget >= |candidate| {
        assert target(st.sent + candidate).Answered? by {
          Answers(target, st.sent + candidate);
        }
        assert r.sent[|r.sent| - 1] == candidate[|candidate| - 1];
      }
      StartingOverAgrees(target, crashes, max, Tried(st, i, r), i - 1, original);
    }
  }

  lemma Answers(target: Target, sent: Chain)
    requires AlwaysAnswers(target)
    ensures target(sent).Answered?
  {
  }

  // On such a target the result is minimal, for every chain and every outcome that adding steps does not undo.
  lemma StartingOverIsMinimal(target: Target, crashes: Chain -> bool, max: nat, original: Chain)
    requires |original| > 1 && AlwaysAnswers(target)
    requires StartsOver(target, crashes, original) && Monotone(crashes, original)
    requires max >= (|original| - 1) * (|original| - 1) && max > 0
    ensures
      var r := Minimize(target, max, original);
      && r.Chained? && (crashes(original) ==> crashes(r.history))
      && forall j: nat {:trigger Without(r.history, j)} | j < |r.history| - 1 :: !crashes(Without(r.history, j))
  {
    ShortenedSelf(original);
    StartingOverAgrees(target, crashes, max, State(original, [], false), |original| - 2, original);
    MinimizerIsLocallyMinimal(target, crashes, max, original);
  }

  // ---- one where an earlier step matters ----

  // The requests since the last `x`.
  function Since(sent: Chain, x: Step): Chain {
    if sent == [] || sent[|sent| - 1] == x then [] else Since(sent[..|sent| - 1], x) + [sent[|sent| - 1]]
  }

  // Crashes on x when a came before it, since the previous x.
  function NeedsSetup(a: Step, x: Step): Target {
    (sent: Chain) =>
      if sent != [] && sent[|sent| - 1] == x && a in Since(sent[..|sent| - 1], x) then Answered(500) else Answered(200)
  }

  lemma {:induction false} SinceRest(before: Chain, c: Chain, x: Step)
    requires Rested(before, x) && x !in c
    ensures Since(before + c, x) == c
    decreases |c|
  {
    if c == [] {
      assert before + c == before;
    } else {
      assert (before + c)[..|before + c| - 1] == before + c[..|c| - 1];
      SinceRest(before, c[..|c| - 1], x);
    }
  }

  lemma InnerStep(c: Chain, original: Chain, k: nat)
    requires Shortened(c, original) && k < |c| - 1
    ensures c[k] in original[..|original| - 1]
  {
    var pick :| Picks(pick, c, original) && pick[|pick| - 1] == |original| - 1;
    assert pick[k] < |original| - 1 && c[k] == original[..|original| - 1][pick[k]];
  }

  lemma SetupStartsOver(a: Step, x: Step, original: Chain)
    requires original != [] && original[|original| - 1] == x && x !in original[..|original| - 1] && a != x
    ensures StartsOver(NeedsSetup(a, x), c => a in c, original) && AlwaysAnswers(NeedsSetup(a, x))
    ensures Monotone(c => a in c, original)
  {
    var target := NeedsSetup(a, x);
    forall before: Chain, c: Chain | Rested(before, x) && Shortened(c, original)
      ensures (target(before + c).status >= 500) == (a in c)
    {
      SetupDecides(a, x, original, before, c);
    }
    forall c: Chain, i: nat | i < |c| - 1 && a in Without(c, i)
      ensures a in c
    {
    }
  }

  lemma SetupDecides(a: Step, x: Step, original: Chain, before: Chain, c: Chain)
    requires original != [] && original[|original| - 1] == x && x !in original[..|original| - 1] && a != x
    requires Rested(before, x) && Shortened(c, original)
    ensures (NeedsSetup(a, x)(before + c).status >= 500) == (a in c)
  {
    hide Shortened, Since;
    ShortenedKeepsLast(c, original);
    var d, all := c[..|c| - 1], before + c;
    if x in d {
      var k :| 0 <= k < |d| && d[k] == x;
      InnerStep(c, original, k);
      assert false;
    }
    SinceRest(before, d, x);
    assert all[..|all| - 1] == before + d && all[|all| - 1] == x;
    assert a in c <==> a in d by {
      assert c == d + [x];
    }
  }

  // Whatever else the chain holds, exactly the one step that the crash needs is kept.
  lemma SetupIsKept(a: Step, x: Step, max: nat, original: Chain)
    requires |original| > 1 && original[|original| - 1] == x && x !in original[..|original| - 1]
    requires a in original[..|original| - 1]
    requires max >= (|original| - 1) * (|original| - 1)
    ensures
      var r := Minimize(NeedsSetup(a, x), max, original);
      r.Chained? && r.history == [a, x]
  {
    hide Shortened, Monotone, StartsOver, Since, Minimize, NeedsSetup, AlwaysAnswers;
    var target, crashes := NeedsSetup(a, x), (c: Chain) => a in c;
    assert a != x;
    SetupStartsOver(a, x, original);
    Squared(|original| - 1);
    StartingOverIsMinimal(target, crashes, max, original);
    MinimizerIsSafe(target, max, original);
    var h := Minimize(target, max, original).history;
    assert crashes(original) && crashes(h);
    forall j: nat | j < |h| - 1
      ensures a !in Without(h, j)
    {
      assert !crashes(Without(h, j));
    }
    OnlyNeeded(a, x, h);
  }

  lemma Squared(n: nat)
    requires n > 0
    ensures n * n > 0
  {
  }

  lemma OnlyNeeded(a: Step, x: Step, h: Chain)
    requires a in h && h[|h| - 1] == x && a != x
    requires forall j: nat {:trigger Without(h, j)} | j < |h| - 1 :: a !in Without(h, j)
    ensures h == [a, x]
  {
    var k :| 0 <= k < |h| && h[k] == a;
    if |h| > 2 {
      OthersStay(h, k, if k == 0 then 1 else 0);
    }
  }

  lemma OthersStay(h: Chain, k: nat, j: nat)
    requires k < |h| && j < |h| && k != j
    ensures h[k] in Without(h, j)
  {
    assert Without(h, j)[if k < j then k else k - 1] == h[k];
  }

  // ---- and one that never starts over ----

  // Crashes on x once a was ever sent.
  function Remembers(a: Step, x: Step): Target {
    (sent: Chain) => if sent != [] && sent[|sent| - 1] == x && a in sent then Answered(500) else Answered(200)
  }

  lemma RememberedReplays(a: Step, x: Step, max: nat)
    requires a != x && max >= 3
    ensures Send(Remembers(a, x), [], max, [a, x], 0) == Replay([a, x], true)
    ensures Send(Remembers(a, x), [a, x], max - 2, [x], 0) == Replay([a, x, x], true)
  {
    hide Send;
    SendAll(Remembers(a, x), [], max, [a, x], 0);
    SendAll(Remembers(a, x), [a, x], max - 2, [x], 0);
    assert [] + [a, x] == [a, x] && [a, x] + [x] == [a, x, x];
  }

  lemma OneRound(target: Target, max: nat, st: State, i: nat, candidate: Chain, r: Replay, next: State)
    requires i < |st.history| - 1 && |st.sent| < max && candidate == Without(st.history, i)
    requires r == Send(target, st.sent, max - |st.sent|, candidate, 0)
    requires next == if r.crashed then State(candidate, r.sent, true) else st.(sent := r.sent)
    ensures Drop(target, max, st, i) == Drop(target, max, next, i - 1)
  {
  }

  lemma MinimizeIs(target: Target, max: nat, original: Chain, r: State)
    requires |original| > 1 && max > 0 && r == Drop(target, max, State(original, [], false), |original| - 2)
    ensures Minimize(target, max, original) == Chained(r.history, r.changed, |r.sent|, r.sent)
  {
  }

  lemma InnerDrops(a: Step, b: Step, x: Step)
    ensures Without([a, b, x], 1) == [a, x] && Without([a, x], 0) == [x]
  {
  }

  lemma DropOver(target: Target, max: nat, st: State)
    requires st.history != []
    ensures Drop(target, max, st, -1) == st
  {
  }

  lemma AloneIs(target: Target, c: Chain)
    requires AlwaysAnswers(target) && c != []
    ensures Alone(target)(c) == (target(c).status >= 500)
  {
    hide Send;
    SendAll(target, [], |c|, c, 0);
    assert [] + c == c;
  }

  lemma RememberedAlone(a: Step, b: Step, x: Step)
    requires a != x
    ensures Alone(Remembers(a, x))([a, b, x]) && !Alone(Remembers(a, x))([x])
  {
    var target, c := Remembers(a, x), [a, b, x];
    assert c[0] == a && c[|c| - 1] == x;
    assert target(c) == Answered(500) && target([x]) == Answered(200);
    hide Alone, Remembers;
    AloneIs(target, c);
    AloneIs(target, [x]);
  }

  // Both steps of three are dropped.
  lemma TwoRounds(target: Target, max: nat, c0: Chain, c1: Chain, c2: Chain, s1: Chain, s2: Chain)
    requires |c0| == 3 && c1 == Without(c0, 1) && c2 == Without(c1, 0) && |s1| == 2 && |s2| == 3 && max >= 3
    requires Send(target, [], max, c1, 0) == Replay(s1, true) && Send(target, s1, max - 2, c2, 0) == Replay(s2, true)
    ensures Minimize(target, max, c0) == Chained(c2, true, 3, s2)
  {
    hide Send, Drop, Minimize;
    var st0, st1, st2 := State(c0, [], false), State(c1, s1, true), State(c2, s2, true);
    OneRound(target, max, st0, 1, c1, Replay(s1, true), st1);
    OneRound(target, max, st1, 0, c2, Replay(s2, true), st2);
    DropOver(target, max, st2);
    MinimizeIs(target, max, c0, st2);
  }

  // What an earlier replay left behind makes the pass drop the step that the crash needs: what it returns does not
  // reproduce the crash by itself.
  lemma StaleStateMisleads(a: Step, b: Step, x: Step, max: nat)
    requires a != x && max >= 3
    ensures Minimize(Remembers(a, x), max, [a, b, x]) == Chained([x], true, 3, [a, x, x])
    ensures Alone(Remembers(a, x))([a, b, x]) && !Alone(Remembers(a, x))([x])
  {
    RememberedAlone(a, b, x);
    RememberedReplays(a, x, max);
    InnerDrops(a, b, x);
    hide *;
    TwoRounds(Remembers(a, x), max, [a, b, x], [a, x], [x], [a, x], [a, x, x]);
  }
}
