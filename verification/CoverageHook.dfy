// The in-process coverage hook: merging under a lock, resetting, and the request pipeline that reports each merge's
// share.
module CoverageHook {
  import opened Wrappers
  import opened CoverageBuckets
  import opened ShmCoverageReader

  // ---- the merge and the reset, as they run under covLock ----

  class CoverageRuntime {
    var bound: bool                 // shared memory and virgin map are there
    const seenBuckets: array<bv8>
    var totalClasses: nat
    const countClass: array<bv8>

    ghost predicate Valid()
      reads this, seenBuckets, countClass
    {
      && countClass != seenBuckets && countClass.Length == 256 && (forall c: byte :: countClass[c] == Bucket(c))
      && Counts(Map(seenBuckets[..], totalClasses))
    }

    // The bitmap's bytes, whenever each was read, are the argument.
    method MergeAndCountNovel(bitmap: seq<byte>) returns (novel: nat)
      requires Valid() && |bitmap| == seenBuckets.Length
      modifies this`totalClasses, seenBuckets
      ensures Valid()
      ensures Map(seenBuckets[..], novel) == Merged(bound, old(seenBuckets[..]), bitmap)
      ensures totalClasses == old(totalClasses) + novel == |Pairs(seenBuckets[..])|
      ensures Pairs(seenBuckets[..]) == old(Pairs(seenBuckets[..])) + if bound then Observed(bitmap) else {}
    {
      if !bound {
        return 0;
      }
      EdgesAfter(Map(seenBuckets[..], totalClasses), bitmap);
      novel := ScanInto(seenBuckets, bitmap, countClass);
      totalClasses := totalClasses + novel;
    }

    // The shared bitmap is zeroed where it is mapped, the virgin map and the total always.
    method Reset(bitmap: seq<byte>, mapped: bool) returns (left: seq<byte>)
      requires Valid()
      modifies this`totalClasses, seenBuckets
      ensures Valid() && totalClasses == 0 && seenBuckets[..] == Blank(seenBuckets.Length)
      ensures |left| == |bitmap| && if mapped then Observed(left) == {} else left == bitmap
    {
      left := if mapped then Zeroed(bitmap, |bitmap|) else bitmap;
      if mapped {
        NothingShown(left);
      }
      for i := 0 to seenBuckets.Length
        invariant forall j | 0 <= j < i :: seenBuckets[j] == 0
        invariant forall c: byte :: countClass[c] == Bucket(c)
      {
        seenBuckets[i] := 0;
      }
      totalClasses := 0;
      NothingSeen(seenBuckets[..]);
    }
  }

  function Merged(bound: bool, seen: seq<bv8>, bitmap: seq<byte>): (r: Map)
    requires |seen| == |bitmap|
    ensures |r.seen| == |seen|
  {
    if bound then Scan(Map(seen, 0), bitmap, |bitmap|) else Map(seen, 0)
  }

  function Blank(n: nat): seq<bv8> {
    seq(n, _ => 0)
  }

  // ---- concurrent requests ----

  // Where a request stands in RunWithCoverage. delta is its coverageDelta, -1 until it merged; epoch is the reset count
  // at its merge.
  datatype Stage =
    | Handling      // await next(context)
    | Caught        // in the handler of a fuzz request whose response has not started
    | Answering     // merged there, writing the 500
    | Finally       // about to run the finally block
    | Finished

  datatype Request = Request(stage: Stage, delta: int, epoch: nat, merges: nat)

  datatype System = System(bound: bool, seen: seq<bv8>, total: nat, epoch: nat, requests: seq<Request>)

  // What may happen next: a request takes a step, in which a call fails or not and a merge sees some bitmap; or a
  // reset.
  datatype Event =
    | RequestStep(i: nat, throws: bool, reportable: bool, fails: bool, bitmap: seq<byte>)
    | ResetAll

  function DoMerge(s: System, i: nat, bitmap: seq<byte>, next: Stage): System
    requires i < |s.requests| && |bitmap| == |s.seen|
  {
    var m := Merged(s.bound, s.seen, bitmap);
    System(s.bound, m.seen, s.total + m.edges, s.epoch,
           s.requests[i := Request(next, m.edges, s.epoch, s.requests[i].merges + 1)])
  }

  function Become(s: System, i: nat, next: Stage): System
    requires i < |s.requests|
  {
    s.(requests := s.requests[i := s.requests[i].(stage := next)])
  }

  function Step(s: System, e: Event): System {
    match e
    case ResetAll => System(s.bound, Blank(|s.seen|), 0, s.epoch + 1, s.requests)
    case RequestStep(i, throws, reportable, fails, bitmap) =>
      if i >= |s.requests| || |bitmap| != |s.seen| then s
      else
        match s.requests[i].stage
        // The handler returns, throws something that is not ours to report (rethrown), or throws something reportable.
        case Handling => Become(s, i, if throws && reportable then Caught else Finally)
        // Response.Clear() may fail; then nothing was merged yet.
        case Caught => if fails then Become(s, i, Finally) else DoMerge(s, i, bitmap, Answering)
        // Writing the answer may fail or not; the delta is set either way.
        case Answering => Become(s, i, Finally)
        case Finally => if s.requests[i].delta < 0 then DoMerge(s, i, bitmap, Finished) else Become(s, i, Finished)
        case Finished => s
  }

  function Run(s: System, events: seq<Event>): System {
    if events == [] then s else Step(Run(s, events[..|events| - 1]), events[|events| - 1])
  }

  function Start(bound: bool, size: nat, n: nat): System {
    System(bound, Blank(size), 0, 0, seq(n, _ => Request(Handling, -1, 0, 0)))
  }

  // ---- conservation ----

  // The deltas of the requests that merged since the last reset.
  function Reported(requests: seq<Request>, epoch: nat): nat {
    if requests == [] then 0
    else (if requests[0].delta >= 0 && requests[0].epoch == epoch then requests[0].delta else 0)
         + Reported(requests[1..], epoch)
  }

  // A request has merged exactly when it has a delta, once at most; it has one in the stages after a merge.
  ghost predicate RequestOk(r: Request, epoch: nat) {
    && r.epoch <= epoch
    && r.merges == (if r.delta >= 0 then 1 else 0)
    && (r.stage.Handling? || r.stage.Caught? ==> r.delta < 0)
    && (r.stage.Answering? || r.stage.Finished? ==> r.delta >= 0)
  }

  ghost predicate Inv(s: System) {
    && Counts(Map(s.seen, s.total))
    && s.total == Reported(s.requests, s.epoch)
    && forall i | 0 <= i < |s.requests| :: RequestOk(s.requests[i], s.epoch)
  }

  function Share(r: Request, epoch: nat): nat {
    if r.delta >= 0 && r.epoch == epoch then r.delta else 0
  }

  lemma {:induction false} ReportedUpdate(requests: seq<Request>, i: nat, r: Request, epoch: nat)
    requires i < |requests|
    ensures Reported(requests[i := r], epoch) + Share(requests[i], epoch) == Reported(requests, epoch) + Share(r, epoch)
  {
    if i == 0 {
      assert requests[0 := r][1..] == requests[1..];
    } else {
      ReportedUpdate(requests[1..], i - 1, r, epoch);
      assert requests[i := r][1..] == requests[1..][i - 1 := r];
    }
  }

  lemma {:induction false} NothingReported(requests: seq<Request>, epoch: nat)
    requires forall i | 0 <= i < |requests| :: requests[i].delta < 0 || requests[i].epoch != epoch
    ensures Reported(requests, epoch) == 0
  {
    if requests != [] {
      NothingReported(requests[1..], epoch);
    }
  }

  // A request with this share replaces one with that share.
  lemma RequestChanged(s: System, r: System, i: nat, share: int)
    requires Inv(s) && i < |s.requests| == |r.requests| && r.requests == s.requests[i := r.requests[i]]
    requires RequestOk(r.requests[i], s.epoch) && r.epoch == s.epoch
    requires Share(r.requests[i], s.epoch) == Share(s.requests[i], s.epoch) + share
    requires r.total == s.total + share && Counts(Map(r.seen, r.total))
    ensures Inv(r)
  {
    ReportedUpdate(s.requests, i, r.requests[i], s.epoch);
  }

  lemma MergeKeepsInv(s: System, i: nat, bitmap: seq<byte>, next: Stage)
    requires Inv(s) && i < |s.requests| && |bitmap| == |s.seen| && s.requests[i].delta < 0
    requires next.Answering? || next.Finished?
    ensures Inv(DoMerge(s, i, bitmap, next))
  {
    hide Scan, Pairs, Observed;
    var r := DoMerge(s, i, bitmap, next);
    EdgesAfter(Map(s.seen, s.total), bitmap);
    RequestChanged(s, r, i, Merged(s.bound, s.seen, bitmap).edges);
  }

  lemma BecomeKeepsInv(s: System, i: nat, next: Stage)
    requires Inv(s) && i < |s.requests| && RequestOk(s.requests[i].(stage := next), s.epoch)
    ensures Inv(Become(s, i, next))
  {
    RequestChanged(s, Become(s, i, next), i, 0);
  }

  lemma ResetKeepsInv(s: System)
    requires Inv(s)
    ensures Inv(Step(s, ResetAll))
  {
    NothingSeen(Blank(|s.seen|));
    NothingReported(s.requests, s.epoch + 1);
  }

  lemma StepKeepsInv(s: System, e: Event)
    requires Inv(s)
    ensures Inv(Step(s, e))
  {
    match e
    case ResetAll => ResetKeepsInv(s);
    case RequestStep(i, throws, reportable, fails, bitmap) =>
      if i < |s.requests| && |bitmap| == |s.seen| {
        assert RequestOk(s.requests[i], s.epoch);
        hide Counts, Reported, DoMerge, Become;
        match s.requests[i].stage
        case Handling => BecomeKeepsInv(s, i, if throws && reportable then Caught else Finally);
        case Caught =>
          if fails {
            BecomeKeepsInv(s, i, Finally);
          } else {
            MergeKeepsInv(s, i, bitmap, Answering);
          }
        case Answering => BecomeKeepsInv(s, i, Finally);
        case Finally =>
          if s.requests[i].delta < 0 {
            MergeKeepsInv(s, i, bitmap, Finished);
          } else {
            BecomeKeepsInv(s, i, Finished);
          }
        case Finished =>
      }
  }

  // Over any interleaving of requests, bitmap writes and resets: the deltas reported since the last reset add up to the
  // total, which is the number of pairs in the virgin map, and no request has merged more than once.
  lemma {:induction false} DeltasAddUp(bound: bool, size: nat, n: nat, events: seq<Event>)
    ensures
      var s := Run(Start(bound, size, n), events);
      && Inv(s)
      && Reported(s.requests, s.epoch) == s.total == |Pairs(s.seen)|
    decreases |events|
  {
    if events == [] {
      var s := Start(bound, size, n);
      NothingSeen(Blank(size));
      NothingReported(s.requests, 0);
    } else {
      DeltasAddUp(bound, size, n, events[..|events| - 1]);
      StepKeepsInv(Run(Start(bound, size, n), events[..|events| - 1]), events[|events| - 1]);
    }
  }

  // A finished request, whichever way it went, merged exactly once.
  lemma MergedOnce(bound: bool, size: nat, n: nat, events: seq<Event>, i: nat)
    requires i < |Run(Start(bound, size, n), events).requests|
    requires Run(Start(bound, size, n), events).requests[i].stage.Finished?
    ensures Run(Start(bound, size, n), events).requests[i].merges == 1
  {
    DeltasAddUp(bound, size, n, events);
  }

  // ---- what the virgin map holds ----

  // This event is a merge: the handler's after a failure, or that of the finally block if there was none before.
  predicate Merges(s: System, e: Event) {
    e.RequestStep? && e.i < |s.requests| && |e.bitmap| == |s.seen| &&
    ((s.requests[e.i].stage.Caught? && !e.fails) || (s.requests[e.i].stage.Finally? && s.requests[e.i].delta < 0))
  }

  // The bitmaps merged since the last reset, in order.
  function Taken(s: System, events: seq<Event>): seq<seq<byte>> {
    if events == [] then []
    else
      var before, e := events[..|events| - 1], events[|events| - 1];
      if e.ResetAll? then []
      else if Merges(Run(s, before), e) then Taken(s, before) + [e.bitmap]
      else Taken(s, before)
  }

  // The virgin map holds exactly the pairs those bitmaps show, and the total counts them.
  lemma {:induction false} SeenIsTaken(size: nat, n: nat, events: seq<Event>)
    ensures
      var s0 := Start(true, size, n);
      var s := Run(s0, events);
      s.bound && Pairs(s.seen) == ObservedAll(Taken(s0, events)) && s.total == |ObservedAll(Taken(s0, events))|
    decreases |events|
  {
    hide Pairs, Observed, Counts, Step, Merges;
    var s0 := Start(true, size, n);
    DeltasAddUp(true, size, n, events);
    if events == [] {
      NothingSeen(Blank(size));
    } else {
      var before, e := events[..|events| - 1], events[|events| - 1];
      SeenIsTaken(size, n, before);
      DeltasAddUp(true, size, n, before);
      StepTakes(Run(s0, before), e);
      ObservedMore(Taken(s0, before), if e.ResetAll? then [] else e.bitmap);
    }
  }

  lemma StepTakes(s: System, e: Event)
    requires Inv(s) && s.bound
    ensures
      var r := Step(s, e);
      && r.bound
      && Pairs(r.seen) == if e.ResetAll? then {}
                          else if Merges(s, e) then Pairs(s.seen) + Observed(e.bitmap) else Pairs(s.seen)
  {
    hide Pairs, Observed, Counts, Scan;
    if e.ResetAll? {
      NothingSeen(Blank(|s.seen|));
    } else if Merges(s, e) {
      EdgesAfter(Map(s.seen, s.total), e.bitmap);
    }
  }

  // A request whose handler returns merges once, at the end; one that fails in a way to report merges before the
  // answer, or at the end after all if the response cannot be cleared.
  lemma Paths(s: System, i: nat, a: seq<byte>, b: seq<byte>, c: seq<byte>, fails: bool)
    requires i < |s.requests| && s.requests[i] == Request(Handling, -1, 0, 0)
    requires |a| == |b| == |c| == |s.seen|
    ensures
      var ends := Step(s, RequestStep(i, false, false, false, a));
      !Merges(s, RequestStep(i, false, false, false, a)) && Merges(ends, RequestStep(i, false, false, fails, b))
    ensures
      var caught := Step(s, RequestStep(i, true, true, false, a));
      var answered := Step(caught, RequestStep(i, false, false, fails, b));
      var ends := if fails then answered else Step(answered, RequestStep(i, false, false, false, c));
      && Merges(caught, RequestStep(i, false, false, fails, b)) == !fails
      && !Merges(answered, RequestStep(i, false, false, false, c)) == !fails
      && Merges(ends, RequestStep(i, false, false, false, c)) == fails
      && Step(ends, RequestStep(i, false, false, false, c)).requests[i].stage.Finished?
  {
    hide Merged;
  }
}
