// race.go: counting the outcomes of concurrent request bursts, with bounded maps and arbitrary eviction.
module RaceTracker {
  import opened SetSizes

  const MAX_TRACKED := 2048

  // One member of a burst has come back.
  datatype SendResult = SendResult(burstId: string, status: int, burstSize: int)

  predicate Is2xx(status: int) {
    200 <= status < 300
  }

  // A burst evaluated with this many successes.
  datatype Verdict = Verdict(id: string, successes: nat, size: int)

  datatype Tracker = Tracker(success: map<string, nat>, seen: map<string, nat>, evaluated: set<string>)

  function Count(m: map<string, nat>, id: string): nat {
    if id in m then m[id] else 0
  }

  // A result, and the keys map iteration would come up with first should something have to go.
  datatype Event = Event(res: SendResult, seenVictim: string, evaluatedVictim: string)

  // What one call does: the new maps, the verdict if there is one, the burst dropped half-way if there is one.
  datatype Effect = Effect(t: Tracker, verdict: seq<Verdict>, dropped: set<string>)

  // The result is counted,
  function Noted(t: Tracker, res: SendResult): (r: Tracker)
    ensures r.evaluated == t.evaluated && r.seen.Keys == t.seen.Keys + {res.burstId}
  {
    var id := res.burstId;
    Tracker(if Is2xx(res.status) then t.success[id := Count(t.success, id) + 1] else t.success,
            t.seen[id := Count(t.seen, id) + 1], t.evaluated)
  }

  // a burst in progress goes when there are too many,
  function Evicted(t: Tracker, victim: string): Tracker {
    if |t.seen| <= MAX_TRACKED then t else Tracker(t.success - {victim}, t.seen - {victim}, t.evaluated)
  }

  // and a complete one is marked as evaluated, when too many are in place of another.
  function Closed(t: Tracker, id: string, victim: string): Tracker {
    var evaluated := t.evaluated + {id};
    Tracker(t.success - {id}, t.seen - {id}, if |evaluated| <= MAX_TRACKED then evaluated else evaluated - {victim})
  }

  function Record(t: Tracker, e: Event): Effect {
    var id := e.res.burstId;
    if id == "" || id in t.evaluated then Effect(t, [], {})
    else
      var n := Noted(t, e.res);
      if n.seen[id] < e.res.burstSize then
        Effect(Evicted(n, e.seenVictim), [], if |n.seen| <= MAX_TRACKED then {} else {e.seenVictim})
      else
        Effect(Closed(n, id, e.evaluatedVictim), [Verdict(id, Count(n.success, id), e.res.burstSize)], {})
  }

  // A victim is a key of the map it is taken from.
  predicate Possible(t: Tracker, e: Event) {
    var id := e.res.burstId;
    && (e.seenVictim in t.seen || e.seenVictim == id)
    && (e.evaluatedVictim in t.evaluated || e.evaluatedVictim == id)
  }

  class Fuzzer {
    var raceBurstSuccess: map<string, nat>
    var raceBurstSeen: map<string, nat>
    var raceBurstEvaluated: set<string>
    const probeRaceOutcome: bool

    function State(): Tracker
      reads this
    {
      Tracker(raceBurstSuccess, raceBurstSeen, raceBurstEvaluated)
    }

    // Whatever map iteration picks, the call does what Record says for some possible event; a finding is recorded
    // exactly for a verdict with more than one success, when asked for.
    method RecordRaceBurstResult(res: SendResult) returns (finding: seq<Verdict>, ghost e: Event)
      modifies this
      ensures e.res == res && Possible(old(State()), e)
      ensures State() == Record(old(State()), e).t
      ensures
        var verdict := Record(old(State()), e).verdict;
        finding == if probeRaceOutcome && verdict != [] && verdict[0].successes > 1 then verdict else []
    {
      hide Count, Noted, Evicted, Closed;
      var id := res.burstId;
      e := Event(res, id, id);
      finding := [];
      if id == "" || id in raceBurstEvaluated {
        return;
      }
      Note(res);
      if raceBurstSeen[id] < res.burstSize {
        ghost var victim := EvictOldestRaceBurstIfOverCap(id);
        e := Event(res, victim, id);
        return;
      }
      finding, e := Evaluate(res);
    }

    method Note(res: SendResult)
      modifies this`raceBurstSeen, this`raceBurstSuccess
      ensures State() == Noted(old(State()), res)
    {
      hide Count;
      var id := res.burstId;
      if Is2xx(res.status) {
        raceBurstSuccess := raceBurstSuccess[id := Count(raceBurstSuccess, id) + 1];
      }
      raceBurstSeen := raceBurstSeen[id := Count(raceBurstSeen, id) + 1];
    }

    // Any burst in progress may have to go, this one included.
    method EvictOldestRaceBurstIfOverCap(ghost id: string) returns (ghost victim: string)
      requires id in raceBurstSeen
      modifies this`raceBurstSeen, this`raceBurstSuccess
      ensures victim in old(raceBurstSeen) && State() == Evicted(old(State()), victim)
    {
      victim := id;
      if |raceBurstSeen| <= MAX_TRACKED {
        return;
      }
      var first: string :| first in raceBurstSeen;
      raceBurstSeen := raceBurstSeen - {first};
      raceBurstSuccess := raceBurstSuccess - {first};
      victim := first;
    }

    // All members of the burst have reported.
    method Evaluate(res: SendResult) returns (finding: seq<Verdict>, ghost e: Event)
      modifies this
      ensures e.res == res && e.seenVictim == res.burstId
      ensures e.evaluatedVictim in old(raceBurstEvaluated) + {res.burstId}
      ensures State() == Closed(old(State()), res.burstId, e.evaluatedVictim)
      ensures
        var n := Count(old(raceBurstSuccess), res.burstId);
        finding == if probeRaceOutcome && n > 1 then [Verdict(res.burstId, n, res.burstSize)] else []
    {
      var id := res.burstId;
      e := Event(res, id, id);
      finding := [];
      raceBurstEvaluated := raceBurstEvaluated + {id};
      if |raceBurstEvaluated| > MAX_TRACKED {
        var victim :| victim in raceBurstEvaluated;
        raceBurstEvaluated := raceBurstEvaluated - {victim};
        e := Event(res, id, victim);
      }
      var successCount := Count(raceBurstSuccess, id);
      raceBurstSuccess := raceBurstSuccess - {id};
      raceBurstSeen := raceBurstSeen - {id};
      if !probeRaceOutcome || successCount <= 1 {
        return;
      }
      finding := [Verdict(id, successCount, res.burstSize)];
    }
  }

  // ---- whole runs ----

  datatype Run = Run(t: Tracker, verdicts: seq<Verdict>, dropped: set<string>)

  function Play(events: seq<Event>): Run {
    if events == [] then Run(Tracker(map[], map[], {}), [], {})
    else
      var r := Play(events[..|events| - 1]);
      var eff := Record(r.t, events[|events| - 1]);
      Run(eff.t, r.verdicts + eff.verdict, r.dropped + eff.dropped)
  }

  ghost predicate PossibleRun(events: seq<Event>) {
    events == [] ||
    (PossibleRun(events[..|events| - 1]) && Possible(Play(events[..|events| - 1]).t, events[|events| - 1]))
  }

  function Delivered(events: seq<Event>, id: string): nat {
    if events == [] then 0
    else Delivered(events[..|events| - 1], id) + if events[|events| - 1].res.burstId == id then 1 else 0
  }

  function Successes(events: seq<Event>, id: string): nat {
    if events == [] then 0
    else
      var res := events[|events| - 1].res;
      Successes(events[..|events| - 1], id) + if res.burstId == id && 200 <= res.status <= 299 then 1 else 0
  }

  function VerdictsOn(verdicts: seq<Verdict>, id: string): nat {
    if verdicts == [] then 0
    else VerdictsOn(verdicts[..|verdicts| - 1], id) + if verdicts[|verdicts| - 1].id == id then 1 else 0
  }

  // Bursts have one size each, carried by every result, and deliver no more results than that. Results without a burst
  // may be anything.
  ghost predicate WellBehaved(events: seq<Event>, size: string -> int) {
    && (forall i | 0 <= i < |events| && events[i].res.burstId != "" ::
          events[i].res.burstSize == size(events[i].res.burstId))
    && (forall id {:trigger Delivered(events, id)} | id != "" && Delivered(events, id) > 0 ::
          Delivered(events, id) <= size(id))
  }

  // For one burst of this size: what a run knows of it, against n results and `good` successes that came in.
  ghost predicate Burst(r: Run, id: string, size: int, n: nat, good: nat) {
    && BurstMaps(r.t, id, size, n, good)
    && BurstJudged(r, id, size, n, good)
  }

  ghost predicate BurstMaps(t: Tracker, id: string, size: int, n: nat, good: nat) {
    var seen, success := Count(t.seen, id), Count(t.success, id);
    && success <= seen <= n && success <= good <= n
    && (seen == n ==> success == good)
    && (id in t.seen ==> 0 < seen < size)
    && (id in t.success ==> id in t.seen)
  }

  ghost predicate BurstJudged(r: Run, id: string, size: int, n: nat, good: nat) {
    var verdicts := VerdictsOn(r.verdicts, id);
    && verdicts <= 1
    && (verdicts == 1 ==> n == size && id !in r.t.seen && id != "")
    && (id != "" && id !in r.dropped && verdicts == 0 ==> Count(r.t.seen, id) == n)
    && (id in r.t.evaluated ==> verdicts == 1)
    && (forall k | 0 <= k < |r.verdicts| && r.verdicts[k].id == id ::
          r.verdicts[k].successes == good && r.verdicts[k].size == size)
  }

  ghost predicate BurstOk(events: seq<Event>, size: string -> int, id: string) {
    Burst(Play(events), id, size(id), Delivered(events, id), Successes(events, id))
  }

  lemma DeliveredBefore(events: seq<Event>, size: string -> int)
    requires events != [] && WellBehaved(events, size)
    ensures WellBehaved(events[..|events| - 1], size)
  {
    var before := events[..|events| - 1];
    forall id | id != "" && Delivered(before, id) > 0
      ensures Delivered(before, id) <= size(id)
    {
      assert Delivered(events, id) >= Delivered(before, id);
    }
  }

  lemma {:induction false} BurstAlwaysOk(events: seq<Event>, size: string -> int, id: string)
    requires WellBehaved(events, size) && id != ""
    ensures BurstOk(events, size, id)
    decreases |events|
  {
    if events != [] {
      var before, e := events[..|events| - 1], events[|events| - 1];
      DeliveredBefore(events, size);
      BurstAlwaysOk(before, size, id);
      assert Delivered(events, id) > 0 ==> Delivered(events, id) <= size(id);
      BurstStep(events, size, id);
    }
  }

  lemma BurstStep(events: seq<Event>, size: string -> int, id: string)
    requires events != [] && BurstOk(events[..|events| - 1], size, id)
    requires events[|events| - 1].res.burstId == id ==> events[|events| - 1].res.burstSize == size(id)
    requires Delivered(events, id) > 0 ==> Delivered(events, id) <= size(id)
    ensures BurstOk(events, size, id)
  {
    var before, e := events[..|events| - 1], events[|events| - 1];
    var r := Play(before);
    assert Play(events) == Next(r, e);
    if e.res.burstId == id {
      OwnResult(r, e, size(id), Delivered(before, id), Successes(before, id));
    } else {
      OtherResult(r, e, id, size(id), Delivered(before, id), Successes(before, id));
    }
  }

  function Next(r: Run, e: Event): Run {
    var eff := Record(r.t, e);
    Run(eff.t, r.verdicts + eff.verdict, r.dropped + eff.dropped)
  }

  lemma VerdictsSnoc(verdicts: seq<Verdict>, v: seq<Verdict>, id: string)
    requires |v| <= 1
    ensures VerdictsOn(verdicts + v, id) == VerdictsOn(verdicts, id) + if |v| == 1 && v[0].id == id then 1 else 0
  {
    if |v| == 1 {
      assert (verdicts + v)[..|verdicts + v| - 1] == verdicts;
    } else {
      assert verdicts + v == verdicts;
    }
  }

  // A result of another burst can only drop this one.
  lemma OtherResult(r: Run, e: Event, id: string, size: int, n: nat, good: nat)
    requires Burst(r, id, size, n, good) && e.res.burstId != id
    ensures Burst(Next(r, e), id, size, n, good)
  {
    hide Record, VerdictsOn;
    var eff := Record(r.t, e);
    OtherMaps(r.t, e, id);
    VerdictsSnoc(r.verdicts, eff.verdict, id);
    assert BurstMaps(eff.t, id, size, n, good);
    assert BurstJudged(Next(r, e), id, size, n, good);
  }

  lemma OtherMaps(t: Tracker, e: Event, id: string)
    requires e.res.burstId != id
    ensures
      var eff := Record(t, e);
      && (id in eff.dropped ==> id !in eff.t.seen && id !in eff.t.success)
      && (id !in eff.dropped ==> Same(t.seen, eff.t.seen, id) && Same(t.success, eff.t.success, id))
      && (id in eff.t.evaluated ==> id in t.evaluated)
      && |eff.verdict| <= 1 && (eff.verdict != [] ==> eff.verdict[0].id != id)
  {
  }

  predicate Same(a: map<string, nat>, b: map<string, nat>, id: string) {
    (id in a <==> id in b) && (id in a && id in b ==> a[id] == b[id])
  }

  // A result of this burst: ignored, counted, or the last one.
  lemma OwnResult(r: Run, e: Event, size: int, n: nat, good: nat)
    requires Burst(r, e.res.burstId, size, n, good) && e.res.burstSize == size && n + 1 <= size
    ensures Burst(Next(r, e), e.res.burstId, size, n + 1, good + if 200 <= e.res.status <= 299 then 1 else 0)
  {
    hide Record, VerdictsOn;
    var id, eff := e.res.burstId, Record(r.t, e);
    OwnMaps(r.t, e);
    VerdictsSnoc(r.verdicts, eff.verdict, id);
    if VerdictsOn(r.verdicts, id) == 0 {
      NotMentioned(r.verdicts, id);
    }
  }

  // What Record does to the burst the result is of.
  lemma OwnMaps(t: Tracker, e: Event)
    ensures
      var id, eff, one := e.res.burstId, Record(t, e), if 200 <= e.res.status <= 299 then 1 else 0;
      && |eff.verdict| <= 1
      && if id == "" || id in t.evaluated then eff == Effect(t, [], {})
         else if Count(t.seen, id) + 1 < e.res.burstSize then
           && eff.verdict == [] && eff.t.evaluated == t.evaluated
           && if id in eff.dropped then id !in eff.t.seen && id !in eff.t.success
              else
                && id in eff.t.seen && eff.t.seen[id] == Count(t.seen, id) + 1
                && Count(eff.t.success, id) == Count(t.success, id) + one
         else
           && eff.verdict == [Verdict(id, Count(t.success, id) + one, e.res.burstSize)] && eff.dropped == {}
           && id !in eff.t.seen && id !in eff.t.success && eff.t.evaluated <= t.evaluated + {id}
  {
    hide Noted, Evicted, Closed, Count;
    var n := Noted(t, e.res);
    NotedOwn(t, e.res);
    EvictedOwn(n, e.seenVictim, e.res.burstId);
    ClosedOwn(n, e.res.burstId, e.evaluatedVictim);
  }

  lemma NotedOwn(t: Tracker, res: SendResult)
    ensures
      var n, id := Noted(t, res), res.burstId;
      && id in n.seen && n.seen[id] == Count(t.seen, id) + 1
      && Count(n.success, id) == Count(t.success, id) + if 200 <= res.status <= 299 then 1 else 0
  {
  }

  lemma EvictedOwn(n: Tracker, victim: string, id: string)
    requires id in n.seen
    ensures
      var r, gone := Evicted(n, victim), |n.seen| > MAX_TRACKED && victim == id;
      && r.evaluated == n.evaluated
      && (gone ==> id !in r.seen && id !in r.success)
      && (!gone ==> id in r.seen && r.seen[id] == n.seen[id] && Count(r.success, id) == Count(n.success, id))
  {
  }

  lemma ClosedOwn(n: Tracker, id: string, victim: string)
    ensures
      var r := Closed(n, id, victim);
      id !in r.seen && id !in r.success && r.evaluated <= n.evaluated + {id}
  {
  }

  lemma {:induction false} NotMentioned(verdicts: seq<Verdict>, id: string)
    requires VerdictsOn(verdicts, id) == 0
    ensures forall k | 0 <= k < |verdicts| :: verdicts[k].id != id
    decreases |verdicts|
  {
    if verdicts != [] {
      NotMentioned(verdicts[..|verdicts| - 1], id);
    }
  }

  // Results without a burst leave no trace.
  lemma {:induction false} NoBurstNoTrace(events: seq<Event>)
    ensures "" !in Play(events).t.seen
    ensures forall k | 0 <= k < |Play(events).verdicts| :: Play(events).verdicts[k].id != ""
    decreases |events|
  {
    if events != [] {
      NoBurstNoTrace(events[..|events| - 1]);
      hide Count;
    }
  }

  // ---- what callers may rely on ----

  // A burst is judged at most once whatever is evicted; a verdict counts exactly its 2xx results, all of which came in.
  lemma VerdictsAreSound(events: seq<Event>, size: string -> int, k: nat)
    requires WellBehaved(events, size) && k < |Play(events).verdicts|
    ensures
      var v := Play(events).verdicts[k];
      && VerdictsOn(Play(events).verdicts, v.id) == 1
      && v.size == size(v.id) == Delivered(events, v.id)
      && v.successes == Successes(events, v.id) <= v.size
  {
    var v := Play(events).verdicts[k];
    NoBurstNoTrace(events);
    BurstAlwaysOk(events, size, v.id);
    Mentioned(Play(events).verdicts, k);
  }

  lemma {:induction false} Mentioned(verdicts: seq<Verdict>, k: nat)
    requires k < |verdicts|
    ensures VerdictsOn(verdicts, verdicts[k].id) >= 1
    decreases |verdicts|
  {
    if k < |verdicts| - 1 {
      Mentioned(verdicts[..|verdicts| - 1], k);
    }
  }

  // A burst in progress: successes <= results seen < its size.
  lemma InProgress(events: seq<Event>, size: string -> int, id: string)
    requires WellBehaved(events, size) && id in Play(events).t.seen
    ensures Count(Play(events).t.success, id) <= Play(events).t.seen[id] < size(id)
  {
    NoBurstNoTrace(events);
    BurstAlwaysOk(events, size, id);
  }

  // A burst that is complete and was never dropped has been judged.
  lemma CompleteIsJudged(events: seq<Event>, size: string -> int, id: string)
    requires WellBehaved(events, size) && id != "" && Delivered(events, id) == size(id) > 0
    requires id !in Play(events).dropped
    ensures VerdictsOn(Play(events).verdicts, id) == 1
  {
    BurstAlwaysOk(events, size, id);
  }

  // The maps stay within their cap after every call.
  ghost predicate WithinCap(t: Tracker) {
    |t.seen| <= 2048 && |t.evaluated| <= 2048 && t.success.Keys <= t.seen.Keys
  }

  lemma {:induction false} MapsStayWithinCap(events: seq<Event>)
    requires PossibleRun(events)
    ensures WithinCap(Play(events).t)
    decreases |events|
  {
    if events != [] {
      var before := events[..|events| - 1];
      MapsStayWithinCap(before);
      CapKept(Play(before).t, events[|events| - 1]);
    }
  }

  lemma CapKept(t: Tracker, e: Event)
    requires WithinCap(t) && Possible(t, e)
    ensures WithinCap(Record(t, e).t)
  {
    hide Noted, Evicted, Closed;
    if e.res.burstId != "" && e.res.burstId !in t.evaluated {
      var n := Noted(t, e.res);
      NotedCap(t, e.res);
      EvictedCap(n, e.seenVictim);
      ClosedCap(n, t.seen.Keys, e.res.burstId, e.evaluatedVictim);
    }
  }

  lemma NotedCap(t: Tracker, res: SendResult)
    requires WithinCap(t)
    ensures |Noted(t, res).seen| <= MAX_TRACKED + 1 && Noted(t, res).success.Keys <= Noted(t, res).seen.Keys
  {
    hide Count;
    OneMore(t.seen.Keys, res.burstId, res.burstId);
    assert |Noted(t, res).seen| == |t.seen.Keys + {res.burstId}|;
  }

  lemma EvictedCap(n: Tracker, victim: string)
    requires |n.seen| <= MAX_TRACKED + 1 && |n.evaluated| <= MAX_TRACKED && n.success.Keys <= n.seen.Keys
    requires victim in n.seen
    ensures WithinCap(Evicted(n, victim))
  {
    var rest := n.seen - {victim};
    assert rest.Keys == n.seen.Keys - {victim};
    assert |rest| == |rest.Keys| && |n.seen| == |n.seen.Keys|;
  }

  lemma ClosedCap(n: Tracker, others: set<string>, id: string, victim: string)
    requires n.seen.Keys == others + {id} && |others| <= MAX_TRACKED && |n.evaluated| <= MAX_TRACKED
    requires n.success.Keys <= n.seen.Keys && (victim in n.evaluated || victim == id)
    ensures WithinCap(Closed(n, id, victim))
  {
    OneMore(others, id, id);
    OneMore(n.evaluated, id, victim);
    var rest := n.seen - {id};
    assert rest.Keys == n.seen.Keys - {id} == (others + {id}) - {id};
    assert |rest| == |rest.Keys|;
  }

  lemma OneMore(s: set<string>, id: string, victim: string)
    requires victim in s || victim == id
    ensures |s + {id}| <= |s| + 1 && |s + {id} - {victim}| == |s + {id}| - 1
  {
    if id in s {
      assert s + {id} == s;
    }
  }

  // ---- below the cap nothing is lost ----

  // The bursts that results have come in of.
  function Bursts(events: seq<Event>): set<string> {
    set i | 0 <= i < |events| && events[i].res.burstId != "" :: events[i].res.burstId
  }

  lemma BurstsBefore(events: seq<Event>)
    requires events != []
    ensures
      var e := events[|events| - 1];
      Bursts(events) == Bursts(events[..|events| - 1]) + if e.res.burstId != "" then {e.res.burstId} else {}
  {
    var before, e := events[..|events| - 1], events[|events| - 1];
    var r := Bursts(before) + if e.res.burstId != "" then {e.res.burstId} else {};
    forall id | id in Bursts(events)
      ensures id in r
    {
      var i :| 0 <= i < |events| && events[i].res.burstId != "" && events[i].res.burstId == id;
      assert i < |before| ==> before[i] == events[i];
    }
    forall id | id in r
      ensures id in Bursts(events)
    {
      if i :| 0 <= i < |before| && before[i].res.burstId != "" && before[i].res.burstId == id {
        assert events[i] == before[i];
      }
    }
  }

  // With no more than 2048 bursts in all, none is dropped, and those judged stay marked.
  lemma {:induction false} FewBurstsAreKept(events: seq<Event>)
    requires |Bursts(events)| <= 2048
    ensures Play(events).dropped == {}
    ensures Play(events).t.seen.Keys + Play(events).t.evaluated <= Bursts(events)
    ensures forall k | 0 <= k < |Play(events).verdicts| :: Play(events).verdicts[k].id in Play(events).t.evaluated
    decreases |events|
  {
    if events != [] {
      var before, e := events[..|events| - 1], events[|events| - 1];
      BurstsBefore(events);
      SubsetSize(Bursts(before), Bursts(events));
      FewBurstsAreKept(before);
      UnderCap(Play(before).t, e, Bursts(events));
    }
  }

  lemma UnderCap(t: Tracker, e: Event, all: set<string>)
    requires t.seen.Keys + t.evaluated <= all && |all| <= 2048 && (e.res.burstId != "" ==> e.res.burstId in all)
    ensures
      var eff := Record(t, e);
      && eff.dropped == {} && eff.t.seen.Keys + eff.t.evaluated <= all && t.evaluated <= eff.t.evaluated
      && forall k | 0 <= k < |eff.verdict| :: eff.verdict[k].id in eff.t.evaluated
  {
    hide Count, Noted, Evicted, Closed;
    var id := e.res.burstId;
    if id != "" && id !in t.evaluated {
      var n := Noted(t, e.res);
      SubsetSize(n.seen.Keys, all);
      assert |n.seen| == |n.seen.Keys|;
      SubsetSize(t.evaluated + {id}, all);
      NothingEvicted(n, e.seenVictim);
      NoMarkLost(n, id, e.evaluatedVictim);
    }
  }

  lemma NothingEvicted(n: Tracker, victim: string)
    requires |n.seen| <= 2048
    ensures Evicted(n, victim) == n
  {
  }

  lemma NoMarkLost(n: Tracker, id: string, victim: string)
    requires |n.evaluated + {id}| <= 2048
    ensures Closed(n, id, victim).evaluated == n.evaluated + {id}
    ensures Closed(n, id, victim).seen.Keys <= n.seen.Keys
  {
  }

  // So then every complete burst has been judged, once.
  lemma {:induction false} FewBurstsAreJudged(events: seq<Event>, size: string -> int, id: string)
    requires WellBehaved(events, size) && |Bursts(events)| <= 2048 && id != ""
    ensures VerdictsOn(Play(events).verdicts, id) == if Delivered(events, id) == size(id) > 0 then 1 else 0
  {
    hide Play, VerdictsOn, Successes, Bursts;
    var r := Play(events);
    FewBurstsAreKept(events);
    BurstAlwaysOk(events, size, id);
    assert BurstJudged(r, id, size(id), Delivered(events, id), Successes(events, id));
    assert BurstMaps(r.t, id, size(id), Delivered(events, id), Successes(events, id));
    if VerdictsOn(r.verdicts, id) > 0 {
      var k := JudgedAt(r.verdicts, id);
      HasDelivered(events, id);
    }
  }

  lemma {:induction false} JudgedAt(verdicts: seq<Verdict>, id: string) returns (k: nat)
    requires VerdictsOn(verdicts, id) > 0
    ensures k < |verdicts| && verdicts[k].id == id
    decreases |verdicts|
  {
    k := |verdicts| - 1;
    if verdicts[k].id != id {
      k := JudgedAt(verdicts[..k], id);
    }
  }

  lemma {:induction false} HasDelivered(events: seq<Event>, id: string)
    requires id in Bursts(events)
    ensures Delivered(events, id) > 0
    decreases |events|
  {
    BurstsBefore(events);
    if events[|events| - 1].res.burstId != id {
      HasDelivered(events[..|events| - 1], id);
    }
  }
}
