// CmpLogProbe's bounded, deduplicating queue under concurrent recorders, one atomic collection call per step.
module OperandQueue {

  // MAX_STRINGS or MAX_INTS, and which values are recorded at all.
  datatype Limits<!V> = Limits(cap: nat, accepts: V -> bool)

  const MAX_STRINGS := 512
  const MAX_INTS := 256
  const MAX_STRING_LEN := 256

  // string.Length counts UTF-16 code units.
  function Utf16Length(s: string): (n: nat)
    ensures n >= |s|
  {
    if s == [] then 0 else (if s[0] as int < 0x1_0000 then 1 else 2) + Utf16Length(s[1..])
  }

  function StringLimits(): Limits<string> {
    Limits(MAX_STRINGS, v => v != "" && Utf16Length(v) <= MAX_STRING_LEN)
  }

  function IntLimits(): Limits<int> {
    Limits(MAX_INTS, _ => true)
  }

  // What a thread inside RecordOne does next.
  datatype Phase<V> =
    | Idle
    | TryAdd(v: V)      // stringSeen.TryAdd(v)
    | Enqueue(v: V)     // added, not in the queue yet
    | Check             // stringQueue.Count > MAX
    | Dequeue           // TryDequeue
    | Remove(old': V)   // dequeued, not out of the seen set yet

  datatype State<V> = State(queue: seq<V>, seen: set<V>, threads: seq<Phase<V>>)

  // One step of thread t; `input` is the value a thread that starts a call was given.
  datatype Move<V> = Move(t: nat, input: V)

  function Step<V(==)>(l: Limits<V>, s: State<V>, move: Move<V>): State<V> {
    if move.t >= |s.threads| then s
    else
      var t := move.t;
      match s.threads[t]
      case Idle =>
        if l.accepts(move.input) then s.(threads := s.threads[t := TryAdd(move.input)]) else s
      case TryAdd(v) =>
        if v in s.seen then s.(threads := s.threads[t := Idle])
        else State(s.queue, s.seen + {v}, s.threads[t := Enqueue(v)])
      case Enqueue(v) => State(s.queue + [v], s.seen, s.threads[t := Check])
      case Check => s.(threads := s.threads[t := if |s.queue| > l.cap then Dequeue else Idle])
      case Dequeue =>
        if s.queue == [] then s.(threads := s.threads[t := Idle])
        else State(s.queue[1..], s.seen, s.threads[t := Remove(s.queue[0])])
      case Remove(v) => State(s.queue, s.seen - {v}, s.threads[t := Check])
  }

  function Run<V(==)>(l: Limits<V>, s: State<V>, moves: seq<Move<V>>): State<V> {
    if moves == [] then s else Step(l, Run(l, s, moves[..|moves| - 1]), moves[|moves| - 1])
  }

  function Start<V(==)>(n: nat): State<V> {
    State([], {}, seq(n, _ => Idle))
  }

  // ---- who holds which value ----

  // The value a thread has taken out of, or not yet put into, the queue.
  function HeldBy<V(==)>(p: Phase<V>): multiset<V> {
    match p
    case Enqueue(v) => multiset{v}
    case Remove(v) => multiset{v}
    case _ => multiset{}
  }

  function Held<V(==)>(threads: seq<Phase<V>>): multiset<V> {
    if threads == [] then multiset{} else HeldBy(threads[0]) + Held(threads[1..])
  }

  predicate Trims<V>(p: Phase<V>) {
    p.Check? || p.Dequeue? || p.Remove?
  }

  // Threads between enqueuing and leaving the trim loop.
  function Trimming<V>(threads: seq<Phase<V>>): nat {
    if threads == [] then 0 else Trimmer(threads[0]) + Trimming(threads[1..])
  }

  function Trimmer<V>(p: Phase<V>): nat {
    if Trims(p) then 1 else 0
  }

  lemma {:induction false} HeldUpdate<V>(threads: seq<Phase<V>>, t: nat, p: Phase<V>)
    requires t < |threads|
    ensures Held(threads[t := p]) + HeldBy(threads[t]) == Held(threads) + HeldBy(p)
  {
    hide HeldBy;
    if t == 0 {
      assert threads[0 := p][1..] == threads[1..];
    } else {
      HeldUpdate(threads[1..], t - 1, p);
      assert threads[t := p][1..] == threads[1..][t - 1 := p];
      Regroup(HeldBy(threads[0]), Held(threads[1..][t - 1 := p]), HeldBy(threads[t]), Held(threads[1..]), HeldBy(p));
    }
  }

  lemma Regroup<V>(a: multiset<V>, b: multiset<V>, c: multiset<V>, d: multiset<V>, e: multiset<V>)
    requires b + c == d + e
    ensures (a + b) + c == (a + d) + e
  {
    assert (a + b) + c == a + (b + c);
    assert (a + d) + e == a + (d + e);
  }

  lemma {:induction false} TrimmingUpdate<V>(threads: seq<Phase<V>>, t: nat, p: Phase<V>)
    requires t < |threads|
    ensures Trimming(threads[t := p]) + Trimmer(threads[t]) == Trimming(threads) + Trimmer(p)
  {
    if t == 0 {
      assert threads[0 := p][1..] == threads[1..];
    } else {
      TrimmingUpdate(threads[1..], t - 1, p);
      assert threads[t := p][1..] == threads[1..][t - 1 := p];
    }
  }

  // ---- the invariant ----

  // The seen set is split, without overlap, between the queue and the values in the hands of threads; the queue exceeds
  // its cap by at most the threads still trimming.
  ghost predicate Inv<V>(l: Limits<V>, s: State<V>) {
    && multiset(s.seen) == multiset(s.queue) + Held(s.threads)
    && |s.queue| <= l.cap + Trimming(s.threads)
  }

  lemma {:induction false} InvStart<V>(l: Limits<V>, n: nat)
    ensures Inv(l, Start<V>(n))
  {
    NothingHeld<V>(n);
  }

  lemma {:induction false} NothingHeld<V>(n: nat)
    ensures Held(Start<V>(n).threads) == multiset{} && Trimming(Start<V>(n).threads) == 0
  {
    if n > 0 {
      NothingHeld<V>(n - 1);
      assert Start<V>(n).threads[1..] == Start<V>(n - 1).threads;
    }
  }

  lemma StepKeepsInv<V>(l: Limits<V>, s: State<V>, move: Move<V>)
    requires Inv(l, s)
    ensures Inv(l, Step(l, s, move))
  {
    if move.t < |s.threads| {
      StepSplits(l, s, move);
      StepTrims(l, s, move);
    }
  }

  lemma StepSplits<V>(l: Limits<V>, s: State<V>, move: Move<V>)
    requires move.t < |s.threads| && multiset(s.seen) == multiset(s.queue) + Held(s.threads)
    ensures
      var r := Step(l, s, move);
      multiset(r.seen) == multiset(r.queue) + Held(r.threads)
  {
    var t, r := move.t, Step(l, s, move);
    StepHolds(l, s, move);
    StepMoves(l, s, move);
    hide *;
    SplitKept(l.cap, s, r, Held(s.threads), Held(r.threads), s.threads[t], r.threads[t]);
  }

  // A step changes one thread.
  lemma StepHolds<V>(l: Limits<V>, s: State<V>, move: Move<V>)
    requires move.t < |s.threads|
    ensures
      var t, r := move.t, Step(l, s, move);
      && |r.threads| == |s.threads|
      && Held(r.threads) + HeldBy(s.threads[t]) == Held(s.threads) + HeldBy(r.threads[t])
      && Trimming(r.threads) + Trimmer(s.threads[t]) == Trimming(s.threads) + Trimmer(r.threads[t])
      && (s.threads[t].Remove? ==> s.threads[t].old' in Held(s.threads))
  {
    var t, r := move.t, Step(l, s, move);
    assert r.threads == s.threads[t := r.threads[t]];
    if s.threads[t].Remove? {
      HeldHas(s.threads, t, s.threads[t].old');
    }
    hide *;
    HeldUpdate(s.threads, t, r.threads[t]);
    TrimmingUpdate(s.threads, t, r.threads[t]);
  }

  // How one thread moves on, and what happens to the queue and the set.
  ghost predicate Moves<V>(cap: nat, s: State<V>, r: State<V>, p: Phase<V>, q: Phase<V>) {
    match p
    case Idle => (q == Idle || q.TryAdd?) && r.queue == s.queue && r.seen == s.seen
    case TryAdd(v) =>
      if v in s.seen then q == Idle && r.queue == s.queue && r.seen == s.seen
      else q == Enqueue(v) && r.queue == s.queue && r.seen == s.seen + {v}
    case Enqueue(v) => q == Check && r.queue == s.queue + [v] && r.seen == s.seen
    case Dequeue =>
      r.seen == s.seen &&
      if s.queue == [] then q == Idle && r.queue == s.queue else q == Remove(s.queue[0]) && r.queue == s.queue[1..]
    case Remove(v) => q == Check && r.queue == s.queue && r.seen == s.seen - {v}
    case Check => q == (if |s.queue| > cap then Dequeue else Idle) && r.queue == s.queue && r.seen == s.seen
  }

  lemma StepMoves<V>(l: Limits<V>, s: State<V>, move: Move<V>)
    requires move.t < |s.threads|
    ensures
      var t, r := move.t, Step(l, s, move);
      |r.threads| == |s.threads| && Moves(l.cap, s, r, s.threads[t], r.threads[t])
  {
  }

  lemma StepTrims<V>(l: Limits<V>, s: State<V>, move: Move<V>)
    requires move.t < |s.threads| && |s.queue| <= l.cap + Trimming(s.threads)
    ensures
      var r := Step(l, s, move);
      |r.queue| <= l.cap + Trimming(r.threads)
  {
    var t, r := move.t, Step(l, s, move);
    StepHolds(l, s, move);
    StepMoves(l, s, move);
    hide *;
    TrimKept(l.cap, s, r, Trimming(s.threads), Trimming(r.threads), s.threads[t], r.threads[t]);
  }

  lemma TrimKept<V>(cap: nat, s: State<V>, r: State<V>, T: nat, T': nat, p: Phase<V>, q: Phase<V>)
    requires Moves(cap, s, r, p, q) && T' + Trimmer(p) == T + Trimmer(q) && |s.queue| <= cap + T
    ensures |r.queue| <= cap + T'
  {
  }

  // The equation, step by step, with the threads' values as plain multisets.
  lemma SplitKept<V>(cap: nat, s: State<V>, r: State<V>, H: multiset<V>, H': multiset<V>, p: Phase<V>, q: Phase<V>)
    requires multiset(s.seen) == multiset(s.queue) + H && H' + HeldBy(p) == H + HeldBy(q)
    requires Moves(cap, s, r, p, q) && (p.Remove? ==> p.old' in H)
    ensures multiset(r.seen) == multiset(r.queue) + H'
  {
    NoneHeld(H);
    NoneHeld(H');
    match p
    case TryAdd(v) =>
      if v !in s.seen {
        AddToSet(s.seen, v);
        Associate(multiset(s.queue), H, multiset{v});
      }
    case Enqueue(v) => SplitEnqueued(s.queue, H, H', v);
    case Dequeue =>
      if s.queue != [] {
        SplitDequeued(s.queue, H);
      }
    case Remove(v) => SplitRemoved(s.seen, multiset(s.queue), H, H', v);
    case _ =>
  }

  lemma SplitEnqueued<V>(queue: seq<V>, H: multiset<V>, H': multiset<V>, v: V)
    requires H' + multiset{v} == H
    ensures multiset(queue + [v]) + H' == multiset(queue) + H
  {
    assert multiset(queue + [v]) == multiset(queue) + multiset{v};
    Handover(multiset(queue), multiset{v}, H');
  }

  lemma SplitDequeued<V>(queue: seq<V>, H: multiset<V>)
    requires queue != []
    ensures multiset(queue[1..]) + (H + multiset{queue[0]}) == multiset(queue) + H
  {
    assert queue == [queue[0]] + queue[1..];
    assert multiset(queue) == multiset(queue[1..]) + multiset{queue[0]};
    Handover(multiset(queue[1..]), multiset{queue[0]}, H);
  }

  lemma SplitRemoved<V>(seen: set<V>, Q: multiset<V>, H: multiset<V>, H': multiset<V>, v: V)
    requires multiset(seen) == Q + H && H' + multiset{v} == H
    ensures multiset(seen - {v}) == Q + H'
  {
    assert multiset(seen)[v] >= 1;
    RemoveFromSet(seen, v);
    Associate(Q, H', multiset{v});
    Cancel(multiset(seen - {v}), Q + H', multiset{v});
  }

  lemma NoneHeld<V>(a: multiset<V>)
    ensures a + multiset{} == a
  {
  }

  lemma Associate<V>(a: multiset<V>, b: multiset<V>, c: multiset<V>)
    ensures (a + b) + c == a + (b + c)
  {
  }

  lemma Handover<V>(a: multiset<V>, b: multiset<V>, c: multiset<V>)
    ensures (a + b) + c == a + (c + b)
  {
  }

  lemma Cancel<V>(a: multiset<V>, b: multiset<V>, c: multiset<V>)
    requires a + c == b + c
    ensures a == b
  {
    assert a == (a + c) - c;
    assert b == (b + c) - c;
  }

  lemma AddToSet<V>(s: set<V>, v: V)
    requires v !in s
    ensures multiset(s + {v}) == multiset(s) + multiset{v}
  {
  }

  lemma RemoveFromSet<V>(s: set<V>, v: V)
    requires multiset(s)[v] >= 1
    ensures multiset(s - {v}) + multiset{v} == multiset(s)
  {
  }

  lemma {:induction false} HeldHas<V>(threads: seq<Phase<V>>, t: nat, v: V)
    requires t < |threads| && v in HeldBy(threads[t])
    ensures Held(threads)[v] >= HeldBy(threads[t])[v] >= 1
  {
    if t > 0 {
      HeldHas(threads[1..], t - 1, v);
    }
  }

  // Every interleaving of any number of recorders keeps it.
  lemma {:induction false} RunKeepsInv<V>(l: Limits<V>, n: nat, moves: seq<Move<V>>)
    ensures Inv(l, Run(l, Start<V>(n), moves))
    decreases |moves|
  {
    if moves == [] {
      InvStart<V>(l, n);
    } else {
      RunKeepsInv(l, n, moves[..|moves| - 1]);
      StepKeepsInv(l, Run(l, Start<V>(n), moves[..|moves| - 1]), moves[|moves| - 1]);
    }
  }

  // ---- what it means ----

  lemma Twice<V>(q: seq<V>, i: nat, j: nat)
    requires i < j < |q| && q[i] == q[j]
    ensures multiset(q)[q[i]] >= 2
  {
    assert q == q[..i] + [q[i]] + q[i + 1..j] + [q[j]] + q[j + 1..];
  }

  lemma NoDuplicates<V>(l: Limits<V>, s: State<V>)
    requires Inv(l, s)
    ensures forall i, j | 0 <= i < j < |s.queue| :: s.queue[i] != s.queue[j]
  {
    forall i, j | 0 <= i < j < |s.queue| && s.queue[i] == s.queue[j]
      ensures multiset(s.seen)[s.queue[i]] >= 2
    {
      Twice(s.queue, i, j);
    }
  }

  // A value is refused exactly when it is queued, or in the hands of a thread that has yet to enqueue it or to forget
  // it.
  lemma RefusedIff<V>(l: Limits<V>, s: State<V>, v: V)
    requires Inv(l, s)
    ensures v in s.seen <==> v in s.queue || exists t :: 0 <= t < |s.threads| && v in HeldBy(s.threads[t])
  {
    assert v in s.seen <==> v in multiset(s.seen);
    if v in Held(s.threads) {
      var t := HolderOf(s.threads, v);
    }
    if t :| 0 <= t < |s.threads| && v in HeldBy(s.threads[t]) {
      HeldHas(s.threads, t, v);
    }
  }

  lemma {:induction false} HolderOf<V>(threads: seq<Phase<V>>, v: V) returns (t: nat)
    requires v in Held(threads)
    ensures t < |threads| && v in HeldBy(threads[t])
  {
    if v in HeldBy(threads[0]) {
      t := 0;
    } else {
      t := HolderOf(threads[1..], v);
      t := t + 1;
    }
  }

  lemma {:induction false} HeldByTwo<V>(threads: seq<Phase<V>>, t: nat, t2: nat, v: V)
    requires t < t2 < |threads| && v in HeldBy(threads[t]) && v in HeldBy(threads[t2])
    ensures Held(threads)[v] >= 2
  {
    if t == 0 {
      HeldHas(threads[1..], t2 - 1, v);
    } else {
      HeldByTwo(threads[1..], t - 1, t2 - 1, v);
    }
  }

  predicate Enqueuing<V(==)>(s: State<V>, v: V) {
    exists t :: 0 <= t < |s.threads| && s.threads[t] == Enqueue(v)
  }

  predicate Removing<V(==)>(s: State<V>, v: V) {
    exists t :: 0 <= t < |s.threads| && s.threads[t] == Remove(v)
  }

  // A refused value is in one place only.
  lemma OnePlace<V>(l: Limits<V>, s: State<V>, v: V)
    requires Inv(l, s) && v in s.seen
    ensures multiset(s.queue)[v] + Held(s.threads)[v] == 1
  {
    hide Held;
    assert multiset(s.seen)[v] == 1;
    assert (multiset(s.queue) + Held(s.threads))[v] == 1;
  }

  lemma RemovingIsAlone<V>(l: Limits<V>, s: State<V>, v: V, t: nat, t2: nat)
    requires Inv(l, s) && v in s.seen && t < |s.threads| && s.threads[t] == Remove(v)
    ensures v !in s.queue && (t2 < |s.threads| ==> s.threads[t2] != Enqueue(v))
  {
    hide Held, Inv;
    OnePlace(l, s, v);
    HeldHas(s.threads, t, v);
    assert v !in multiset(s.queue);
    if t2 < |s.threads| && s.threads[t2] == Enqueue(v) {
      if t < t2 {
        HeldByTwo(s.threads, t, t2, v);
      } else {
        HeldByTwo(s.threads, t2, t, v);
      }
      assert false;
    }
  }

  // Such a value is queued, about to be queued or - and only then is the refused record lost - taken out of the queue
  // by a thread that has yet to forget it.
  lemma LostIff<V>(l: Limits<V>, s: State<V>, v: V)
    requires Inv(l, s) && v in s.seen
    ensures v !in s.queue && !Enqueuing(s, v) <==> Removing(s, v)
  {
    hide Held, Inv;
    if t :| 0 <= t < |s.threads| && s.threads[t] == Remove(v) {
      forall t2: nat
        ensures v !in s.queue && (t2 < |s.threads| ==> s.threads[t2] != Enqueue(v))
      {
        RemovingIsAlone(l, s, v, t, t2);
      }
    } else if v !in s.queue {
      RefusedIff(l, s, v);
      var t :| 0 <= t < |s.threads| && v in HeldBy(s.threads[t]);
      assert s.threads[t] == Enqueue(v);
    }
  }

  ghost predicate AtRest<V>(s: State<V>) {
    forall t | 0 <= t < |s.threads| :: s.threads[t].Idle? || s.threads[t].TryAdd?
  }

  lemma {:induction false} RestHoldsNothing<V>(threads: seq<Phase<V>>)
    requires forall t | 0 <= t < |threads| :: threads[t].Idle? || threads[t].TryAdd?
    ensures Held(threads) == multiset{} && Trimming(threads) == 0
  {
    if threads != [] {
      RestHoldsNothing(threads[1..]);
    }
  }

  // Whatever happened before, with no thread inside the critical steps queue and set agree, within the cap.
  lemma AtRestAgree<V>(l: Limits<V>, n: nat, moves: seq<Move<V>>)
    requires AtRest(Run(l, Start<V>(n), moves))
    ensures
      var s := Run(l, Start<V>(n), moves);
      && |s.queue| <= l.cap
      && (forall v :: v in s.seen <==> v in s.queue)
      && (forall i, j | 0 <= i < j < |s.queue| :: s.queue[i] != s.queue[j])
  {
    var s := Run(l, Start<V>(n), moves);
    RunKeepsInv(l, n, moves);
    RestHoldsNothing(s.threads);
    NoDuplicates(l, s);
    forall v
      ensures v in s.seen <==> v in s.queue
    {
      assert v in s.seen <==> v in multiset(s.seen);
    }
  }

  // ---- only what is accepted is ever recorded ----

  ghost predicate OnlyAccepted<V>(l: Limits<V>, s: State<V>) {
    && (forall v | v in s.seen :: l.accepts(v))
    && (forall t | 0 <= t < |s.threads| && s.threads[t].TryAdd? :: l.accepts(s.threads[t].v))
  }

  lemma {:induction false} RunOnlyAccepted<V>(l: Limits<V>, n: nat, moves: seq<Move<V>>)
    ensures OnlyAccepted(l, Run(l, Start<V>(n), moves))
    decreases |moves|
  {
    if moves != [] {
      RunOnlyAccepted(l, n, moves[..|moves| - 1]);
      StepOnlyAccepted(l, Run(l, Start<V>(n), moves[..|moves| - 1]), moves[|moves| - 1]);
    }
  }

  lemma StepOnlyAccepted<V>(l: Limits<V>, s: State<V>, move: Move<V>)
    requires OnlyAccepted(l, s)
    ensures OnlyAccepted(l, Step(l, s, move))
  {
    var r := Step(l, s, move);
    if move.t < |s.threads| {
      assert r.threads == s.threads[move.t := r.threads[move.t]];
    }
  }

  // The two queues of the probe, once no recorder is at work.
  lemma StringsAtRest(n: nat, moves: seq<Move<string>>)
    requires AtRest(Run(StringLimits(), Start<string>(n), moves))
    ensures
      var s := Run(StringLimits(), Start<string>(n), moves);
      && |s.queue| <= 512 && (forall v :: v in s.seen <==> v in s.queue)
      && (forall i | 0 <= i < |s.queue| :: s.queue[i] != "" && Utf16Length(s.queue[i]) <= 256)
  {
    AtRestAgree(StringLimits(), n, moves);
    RunOnlyAccepted(StringLimits(), n, moves);
    var s := Run(StringLimits(), Start<string>(n), moves);
    forall i | 0 <= i < |s.queue|
      ensures s.queue[i] != "" && Utf16Length(s.queue[i]) <= 256
    {
      assert s.queue[i] in s.queue;
      assert StringLimits().accepts(s.queue[i]);
    }
  }

  lemma IntsAtRest(n: nat, moves: seq<Move<int>>)
    requires AtRest(Run(IntLimits(), Start<int>(n), moves))
    ensures
      var s := Run(IntLimits(), Start<int>(n), moves);
      |s.queue| <= 256 && forall v :: v in s.seen <==> v in s.queue
  {
    AtRestAgree(IntLimits(), n, moves);
  }

  // ---- a record that is lost ----

  // Thread 0 records these values one after the other.
  function Fill<V>(values: seq<V>): seq<Move<V>> {
    if values == [] then []
    else
      var v := values[|values| - 1];
      Fill(values[..|values| - 1]) + [Move(0, v), Move(0, v), Move(0, v), Move(0, v)]
  }

  function Elements<V(==)>(values: seq<V>): set<V> {
    set x | x in values
  }

  lemma {:induction false} Filled<V>(l: Limits<V>, values: seq<V>)
    requires |values| <= l.cap && (forall v | v in values :: l.accepts(v))
    requires forall i, j | 0 <= i < j < |values| :: values[i] != values[j]
    ensures Run(l, Start<V>(2), Fill(values)) == State(values, Elements(values), [Idle, Idle])
    decreases |values|
  {
    hide Step;
    if values == [] {
      assert Start<V>(2).threads == [Idle, Idle];
    } else {
      hide Run;
      var init, v := values[..|values| - 1], values[|values| - 1];
      Filled(l, init);
      var m := [Move(0, v), Move(0, v), Move(0, v), Move(0, v)];
      assert init + [v] == values && Elements(init) + {v} == Elements(values) && v !in init;
      RunJoin(l, Start<V>(2), Fill(init), m);
      Recorded(l, State(init, Elements(init), [Idle, Idle]), v, m);
    }
  }

  lemma Recorded<V>(l: Limits<V>, s: State<V>, v: V, m: seq<Move<V>>)
    requires s.threads == [Idle, Idle] && l.accepts(v) && v !in s.seen
    requires m == [Move(0, v), Move(0, v), Move(0, v), Move(0, v)]
    ensures Run(l, s, m)
         == State(s.queue + [v], s.seen + {v}, [if |s.queue| + 1 > l.cap then Dequeue else Idle, Idle])
  {
    Four(l, s, m, State(s.queue + [v], s.seen + {v}, [if |s.queue| + 1 > l.cap then Dequeue else Idle, Idle]));
  }

  // Within the caps nothing recorded is missing: 512 different strings of 1 to 256 units, 256 different integers.
  lemma StringsAreKept(values: seq<string>)
    requires |values| <= 512 && forall v | v in values :: 0 < Utf16Length(v) <= 256
    requires forall i, j | 0 <= i < j < |values| :: values[i] != values[j]
    ensures Run(StringLimits(), Start<string>(2), Fill(values)) == State(values, Elements(values), [Idle, Idle])
  {
    Filled(StringLimits(), values);
  }

  lemma IntsAreKept(values: seq<int>)
    requires |values| <= 256 && forall i, j | 0 <= i < j < |values| :: values[i] != values[j]
    ensures Run(IntLimits(), Start<int>(2), Fill(values)) == State(values, Elements(values), [Idle, Idle])
  {
    Filled(IntLimits(), values);
  }

  // One more, undisturbed, and the oldest leaves both the queue and the set.
  lemma OldestLeaves<V>(l: Limits<V>, values: seq<V>)
    requires |values| == l.cap + 1 > 1 && (forall v | v in values :: l.accepts(v))
    requires forall i, j | 0 <= i < j < |values| :: values[i] != values[j]
    ensures
      var w := values[l.cap];
      var record := [Move(0, w), Move(0, w), Move(0, w), Move(0, w), Move(0, w), Move(0, w), Move(0, w)];
      Run(l, Start<V>(2), Fill(values[..l.cap]) + record) == State(values[1..], Elements(values[1..]), [Idle, Idle])
  {
    hide Run, Step, Fill;
    var w, init, s0 := values[l.cap], values[..l.cap], Start<V>(2);
    var push, trim := [Move(0, w), Move(0, w), Move(0, w), Move(0, w)], [Move(0, w), Move(0, w), Move(0, w)];
    Filled(l, init);
    assert init + [w] == values && Elements(init) + {w} == Elements(values) && w !in init;
    RunJoin(l, s0, Fill(init), push);
    Recorded(l, State(init, Elements(init), [Idle, Idle]), w, push);
    RunJoin(l, s0, Fill(init) + push, trim);
    Trimmed(l, values, trim);
    assert Fill(init) + push + trim == Fill(init) + (push + trim);
    assert push + trim == [Move(0, w), Move(0, w), Move(0, w), Move(0, w), Move(0, w), Move(0, w), Move(0, w)];
  }

  lemma Trimmed<V>(l: Limits<V>, values: seq<V>, trim: seq<Move<V>>)
    requires |values| == l.cap + 1 && forall i, j | 0 <= i < j < |values| :: values[i] != values[j]
    requires |trim| == 3 && forall i | 0 <= i < 3 :: trim[i].t == 0
    ensures Run(l, State(values, Elements(values), [Dequeue, Idle]), trim)
         == State(values[1..], Elements(values[1..]), [Idle, Idle])
  {
    assert Elements(values) - {values[0]} == Elements(values[1..]) by {
      assert forall v | v in values[1..] :: v in values;
      assert values == [values[0]] + values[1..];
    }
    Three(l, State(values, Elements(values), [Dequeue, Idle]), trim,
          State(values[1..], Elements(values[1..]), [Idle, Idle]));
  }

  // Whatever the cap: once one value more than fits is recorded, the oldest is pushed out; until it is forgotten too,
  // another thread's record of it is refused although the queue no longer has it.
  lemma EvictedValueLost<V>(l: Limits<V>, values: seq<V>)
    requires |values| == l.cap + 1 > 1 && (forall v | v in values :: l.accepts(v))
    requires forall i, j | 0 <= i < j < |values| :: values[i] != values[j]
    ensures
      var v, w := values[0], values[l.cap];
      var push := [Move(0, w), Move(0, w), Move(0, w), Move(0, w)];
      Run(l, Start<V>(2), Fill(values[..l.cap]) + push + [Move(0, w), Move(1, v), Move(1, v)])
        == State(values[1..], Elements(values), [Remove(v), Idle])
  {
    hide Run, Step, Fill;
    var v, w, init := values[0], values[l.cap], values[..l.cap];
    var s0 := Start<V>(2);
    var push := [Move(0, w), Move(0, w), Move(0, w), Move(0, w)];
    var late := [Move(0, w), Move(1, v), Move(1, v)];
    Filled(l, init);
    assert init + [w] == values && Elements(init) + {w} == Elements(values) && w !in init;
    RunJoin(l, s0, Fill(init), push);
    Recorded(l, State(init, Elements(init), [Idle, Idle]), w, push);
    RunJoin(l, s0, Fill(init) + push, late);
    LateRecord(l, values, late);
  }

  lemma LateRecord<V>(l: Limits<V>, values: seq<V>, late: seq<Move<V>>)
    requires values != [] && l.accepts(values[0])
    requires |late| == 3 && late[0].t == 0 && late[1] == late[2] == Move(1, values[0])
    ensures Run(l, State(values, Elements(values), [Dequeue, Idle]), late)
         == State(values[1..], Elements(values), [Remove(values[0]), Idle])
  {
    assert values[0] in values;
    Three(l, State(values, Elements(values), [Dequeue, Idle]), late,
          State(values[1..], Elements(values), [Remove(values[0]), Idle]));
  }

  // The integer queue at its real size: 0 is lost when 0 to 256 have been recorded.
  lemma ZeroIsLost()
    ensures exists moves ::
              var s := Run(IntLimits(), Start<int>(2), moves);
              0 in s.seen && 0 !in s.queue && s.threads == [Remove(0), Idle]
  {
    var values := seq(257, i => i);
    EvictedValueLost(IntLimits(), values);
    var w := values[256];
    var push := [Move(0, w), Move(0, w), Move(0, w), Move(0, w)];
    var moves := Fill(values[..256]) + push + [Move(0, w), Move(1, 0), Move(1, 0)];
    assert Run(IntLimits(), Start<int>(2), moves) == State(values[1..], Elements(values), [Remove(0), Idle]);
    assert values[0] == 0 && forall i | 0 <= i < |values[1..]| :: values[1..][i] == i + 1;
  }

  lemma Three<V>(l: Limits<V>, s: State<V>, m: seq<Move<V>>, r: State<V>)
    requires |m| == 3 && r == Step(l, Step(l, Step(l, s, m[0]), m[1]), m[2])
    ensures Run(l, s, m) == r
  {
    assert m[..2][..1] == m[..1] && m[..1][..0] == [];
    assert Run(l, s, m[..1]) == Step(l, s, m[0]);
    assert Run(l, s, m[..2]) == Step(l, Run(l, s, m[..1]), m[1]);
  }

  lemma Four<V>(l: Limits<V>, s: State<V>, m: seq<Move<V>>, r: State<V>)
    requires |m| == 4 && r == Step(l, Step(l, Step(l, Step(l, s, m[0]), m[1]), m[2]), m[3])
    ensures Run(l, s, m) == r
  {
    assert m[..3][..2] == m[..2] && m[..2][..1] == m[..1] && m[..1][..0] == [];
    assert Run(l, s, m[..1]) == Step(l, s, m[0]);
    assert Run(l, s, m[..2]) == Step(l, Run(l, s, m[..1]), m[1]);
    assert Run(l, s, m[..3]) == Step(l, Run(l, s, m[..2]), m[2]);
  }

  lemma {:induction false} RunJoin<V>(l: Limits<V>, s: State<V>, a: seq<Move<V>>, b: seq<Move<V>>)
    ensures Run(l, s, a + b) == Run(l, Run(l, s, a), b)
    decreases |b|
  {
    if b == [] {
      assert a + b == a;
    } else {
      assert (a + b)[..|a + b| - 1] == a + b[..|b| - 1];
      RunJoin(l, s, a, b[..|b| - 1]);
    }
  }
}
