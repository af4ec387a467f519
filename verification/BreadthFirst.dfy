/** The parallel breadth-first traversal: workers, a descent count, and a main loop that decides when the work is done. */
module BreadthFirst {
  /** A segment is named by its position in the tree of paths: the branch taken at each level. */
  type Segment = seq<nat>

  /** The plan: how many descending segments the driver returns for a segment. `all` is the finite tree this spans. */
  datatype Plan = Plan(fan: Segment -> nat, all: set<Segment>) {
    ghost predicate Valid() {
      && [] in all
      && (forall p :: p in all && p != [] ==> p[..|p| - 1] in all && p[|p| - 1] < fan(p[..|p| - 1]))
      && (forall p, k: nat :: p in all && k < fan(p) ==> p + [k] in all)
    }
  }

  /**
   * A worker waits for a segment, holds one, hands out its descending segments (`next` is the one at hand, `counted` says
   * whether the descent count already includes it), or has left the count and owes the main loop a completion.
   */
  datatype Worker =
    | Waiting
    | Holding(segment: Segment)
    | Descending(segment: Segment, next: nat, counted: bool)
    | Completing

  datatype Loop = Counting | Submitting | Receiving | Checking | Finished

  datatype State = State(
    loop: Loop,
    workers: seq<Worker>,
    queue: seq<Segment>,
    completions: nat,
    count: int,
    driven: seq<Segment>)

  function Init(numWorkers: nat): State {
    State(Counting, seq(numWorkers, _ => Waiting), [], 0, 0, [])
  }

  // ----- Steps of the main loop -----

  predicate LoopEnabled(s: State) {
    s.loop.Counting? || s.loop.Submitting? || (s.loop.Receiving? && s.completions > 0) || s.loop.Checking?
  }

  function LoopStep(s: State): State
    requires LoopEnabled(s)
  {
    match s.loop
    case Counting => s.(loop := Submitting, count := s.count + 1)
    case Submitting => s.(loop := Receiving, queue := s.queue + [[]])
    case Receiving => s.(loop := Checking, completions := s.completions - 1)
    case Checking => s.(loop := if s.count == 0 then Finished else Receiving)
  }

  // ----- Steps of a worker -----

  predicate WorkerEnabled(plan: Plan, s: State, i: nat) {
    && i < |s.workers|
    && !s.loop.Finished?
    && match s.workers[i]
       case Waiting => s.queue != []
       case Holding(_) => true
       case Descending(_, _, _) => true
       case Completing => s.completions < 2 * |s.workers|
  }

  function WorkerStep(plan: Plan, s: State, i: nat): State
    requires WorkerEnabled(plan, s, i)
  {
    match s.workers[i]
    case Waiting => s.(workers := s.workers[i := Holding(s.queue[0])], queue := s.queue[1..])
    case Holding(p) => s.(workers := s.workers[i := Descending(p, 0, false)], driven := s.driven + [p])
    case Descending(p, k, counted) =>
      if k < plan.fan(p) then
        if counted then s.(workers := s.workers[i := Descending(p, k + 1, false)], queue := s.queue + [p + [k]])
        else s.(workers := s.workers[i := Descending(p, k, true)], count := s.count + 1)
      else s.(workers := s.workers[i := Completing], count := s.count - 1)
    case Completing => s.(workers := s.workers[i := Waiting], completions := s.completions + 1)
  }

  /** One step of anyone. */
  ghost predicate Next(plan: Plan, s: State, s': State) {
    || (LoopEnabled(s) && s' == LoopStep(s))
    || (exists i: nat :: WorkerEnabled(plan, s, i) && s' == WorkerStep(plan, s, i))
  }

  ghost predicate Run(plan: Plan, numWorkers: nat, states: seq<State>) {
    && states != [] && states[0] == Init(numWorkers)
    && (forall i, j :: 0 <= i < |states| - 1 && j == i + 1 ==> Next(plan, states[i], states[j]))
  }

  // ----- Sums over workers -----

  function Sum(workers: seq<Worker>, weight: Worker -> nat): nat {
    if workers == [] then 0 else Sum(workers[..|workers| - 1], weight) + weight(workers[|workers| - 1])
  }

  lemma {:induction false} SumUpdate(workers: seq<Worker>, i: nat, w: Worker, weight: Worker -> nat)
    requires i < |workers|
    ensures Sum(workers[i := w], weight) == Sum(workers, weight) - weight(workers[i]) + weight(w)
  {
    var n := |workers| - 1;
    if i < n {
      SumUpdate(workers[..n], i, w, weight);
      assert workers[i := w][..n] == workers[..n][i := w];
    } else {
      assert workers[i := w][..n] == workers[..n];
    }
  }

  lemma {:induction false} SumAtLeast(workers: seq<Worker>, i: nat, weight: Worker -> nat)
    requires i < |workers|
    ensures Sum(workers, weight) >= weight(workers[i])
  {
    if i < |workers| - 1 {
      SumAtLeast(workers[..|workers| - 1], i, weight);
    }
  }

  lemma {:induction false} SumZero(workers: seq<Worker>, weight: Worker -> nat)
    requires forall i :: 0 <= i < |workers| ==> weight(workers[i]) == 0
    ensures Sum(workers, weight) == 0
  {
    if workers != [] {
      SumZero(workers[..|workers| - 1], weight);
    }
  }

  function InHand(w: Worker): nat { if w.Holding? || w.Descending? then 1 else 0 }

  function CountedOnly(w: Worker): nat { if w.Descending? && w.counted then 1 else 0 }

  function HeldBy(w: Worker): multiset<Segment> {
    if w.Holding? then multiset{w.segment} else multiset{}
  }

  function Held(workers: seq<Worker>): multiset<Segment> {
    if workers == [] then multiset{} else Held(workers[..|workers| - 1]) + HeldBy(workers[|workers| - 1])
  }

  lemma {:induction false} HeldUpdate(workers: seq<Worker>, i: nat, w: Worker)
    requires i < |workers|
    ensures Held(workers[i := w]) + HeldBy(workers[i]) == Held(workers) + HeldBy(w)
  {
    hide HeldBy;
    var n := |workers| - 1;
    if i < n {
      HeldUpdate(workers[..n], i, w);
      assert workers[i := w][..n] == workers[..n][i := w];
      var a, b, last := Held(workers[..n][i := w]), Held(workers[..n]), HeldBy(workers[n]);
      assert (a + last) + HeldBy(workers[i]) == (a + HeldBy(workers[i])) + last;
      assert (b + last) + HeldBy(w) == (b + HeldBy(w)) + last;
    } else {
      assert workers[i := w][..n] == workers[..n];
    }
  }

  lemma {:induction false} HeldNone(workers: seq<Worker>)
    requires forall i :: 0 <= i < |workers| ==> !workers[i].Holding?
    ensures Held(workers) == multiset{}
  {
    if workers != [] {
      HeldNone(workers[..|workers| - 1]);
    }
  }

  // ----- The invariant -----

  /** Every segment produced so far, wherever it is. */
  function Produced(s: State): multiset<Segment> {
    multiset(s.driven) + multiset(s.queue) + Held(s.workers)
  }

  /** The descent count is the queued and in-hand segments plus those counted but not yet submitted. */
  predicate CountIs(s: State) {
    s.count == |s.queue| + Sum(s.workers, InHand) + Sum(s.workers, CountedOnly) + if s.loop.Submitting? then 1 else 0
  }

  /** Nothing is produced twice, everything produced belongs to the tree, and only driven segments have offspring. */
  ghost predicate Sound(plan: Plan, s: State) {
    && (forall p :: Produced(s)[p] <= 1)
    && (forall p :: p in Produced(s) ==> p in plan.all)
    && (forall p :: p in Produced(s) && p != [] ==> p[..|p| - 1] in multiset(s.driven))
  }

  ghost predicate Descends(s: State, i: nat, p: Segment, k: nat) {
    i < |s.workers| && s.workers[i].Descending? && s.workers[i].segment == p && s.workers[i].next <= k
  }

  /** A driven segment's offspring is produced, except what a worker still has to hand out. */
  ghost predicate Complete(plan: Plan, s: State) {
    forall p, k: nat :: p in multiset(s.driven) && k < plan.fan(p) ==> p + [k] in Produced(s) || exists i: nat :: Descends(s, i, p, k)
  }

  /** A worker hands out the offspring of a driven segment in order; what it has not handed out is not produced. */
  ghost predicate WorkerFits(plan: Plan, s: State, w: Worker) {
    w.Descending? ==>
      && w.segment in multiset(s.driven) && w.next <= plan.fan(w.segment) && (w.counted ==> w.next < plan.fan(w.segment))
      && (forall k: nat :: k >= w.next ==> w.segment + [k] !in Produced(s))
  }

  ghost predicate WorkersFit(plan: Plan, s: State) {
    && (forall i :: 0 <= i < |s.workers| ==> WorkerFits(plan, s, s.workers[i]))
    && (forall i, j :: 0 <= i < j < |s.workers| && s.workers[i].Descending? && s.workers[j].Descending? ==> s.workers[i].segment != s.workers[j].segment)
  }

  ghost predicate Rooted(s: State) {
    if s.loop.Counting? || s.loop.Submitting?
    then s.driven == [] && s.queue == [] && s.completions == 0 && forall i :: 0 <= i < |s.workers| ==> s.workers[i].Waiting?
    else [] in Produced(s)
  }

  /** Once the count is zero, the main loop is told. */
  ghost predicate Told(s: State) {
    && (s.loop.Receiving? && s.count == 0 ==> s.completions > 0 || exists i :: 0 <= i < |s.workers| && s.workers[i].Completing?)
    && (s.loop.Finished? ==> s.count == 0)
  }

  ghost predicate Inv(plan: Plan, s: State) {
    plan.Valid() && CountIs(s) && Sound(plan, s) && Complete(plan, s) && WorkersFit(plan, s) && Rooted(s) && Told(s)
  }

  // ----- What a step produces -----

  predicate Submits(plan: Plan, w: Worker) {
    w.Descending? && w.next < plan.fan(w.segment) && w.counted
  }

  function Offspring(plan: Plan, w: Worker): multiset<Segment> {
    if Submits(plan, w) then multiset{w.segment + [w.next]} else multiset{}
  }

  lemma WorkerProduces(plan: Plan, s: State, i: nat)
    requires WorkerEnabled(plan, s, i)
    ensures Produced(WorkerStep(plan, s, i)) == Produced(s) + Offspring(plan, s.workers[i])
  {
    hide Held;
    var s' := WorkerStep(plan, s, i);
    var w, w' := s.workers[i], s'.workers[i];
    HeldUpdate(s.workers, i, w');
    assert s'.workers == s.workers[i := w'];
    Moves(plan, s, i);
    var d, q, h := multiset(s.driven), multiset(s.queue), Held(s.workers);
    var d', q', h' := multiset(s'.driven), multiset(s'.queue), Held(s'.workers);
    calc {
      Produced(s') + HeldBy(w);
      d' + q' + (h' + HeldBy(w));
      d' + q' + (h + HeldBy(w'));
      (d' + q' + HeldBy(w')) + h;
      (d + q + Offspring(plan, w) + HeldBy(w)) + h;
      (Produced(s) + Offspring(plan, w)) + HeldBy(w);
    }
    Cancel(Produced(s'), Produced(s) + Offspring(plan, w), HeldBy(w));
  }

  lemma Moves(plan: Plan, s: State, i: nat)
    requires WorkerEnabled(plan, s, i)
    ensures var s' := WorkerStep(plan, s, i);
            multiset(s'.driven) + multiset(s'.queue) + HeldBy(s'.workers[i]) ==
            multiset(s.driven) + multiset(s.queue) + Offspring(plan, s.workers[i]) + HeldBy(s.workers[i])
  {
    if s.workers[i].Waiting? {
      assert s.queue == [s.queue[0]] + s.queue[1..];
    }
  }

  lemma Cancel(x: multiset<Segment>, y: multiset<Segment>, a: multiset<Segment>)
    requires x + a == y + a
    ensures x == y
  {
    assert x == (x + a) - a && y == (y + a) - a;
  }

  lemma CountKept(plan: Plan, s: State, i: nat)
    requires CountIs(s) && WorkersFit(plan, s) && WorkerEnabled(plan, s, i)
    ensures CountIs(WorkerStep(plan, s, i))
  {
    hide Sum, Produced;
    var s' := WorkerStep(plan, s, i);
    SumUpdate(s.workers, i, s'.workers[i], InHand);
    SumUpdate(s.workers, i, s'.workers[i], CountedOnly);
    assert s'.workers == s.workers[i := s'.workers[i]];
  }

  lemma DrivenGrows(plan: Plan, s: State, i: nat)
    requires WorkerEnabled(plan, s, i)
    ensures forall p :: p in multiset(s.driven) ==> p in multiset(WorkerStep(plan, s, i).driven)
    ensures forall p :: p in multiset(WorkerStep(plan, s, i).driven) ==> p in multiset(s.driven) || s.workers[i] == Holding(p)
  {
  }

  lemma SoundKept(plan: Plan, s: State, i: nat)
    requires plan.Valid() && Sound(plan, s) && WorkersFit(plan, s) && WorkerEnabled(plan, s, i)
    ensures Sound(plan, WorkerStep(plan, s, i))
  {
    hide Produced, Plan.Valid;
    var s' := WorkerStep(plan, s, i);
    WorkerProduces(plan, s, i);
    DrivenGrows(plan, s, i);
    if Submits(plan, s.workers[i]) {
      var w := s.workers[i];
      var child := w.segment + [w.next];
      assert child[..|child| - 1] == w.segment;
      assert w.segment in Produced(s) by { DrivenProduced(s, w.segment); }
      assert child in plan.all by { ChildInTree(plan, w.segment, w.next); }
      assert child !in Produced(s);
    }
  }

  lemma ChildInTree(plan: Plan, p: Segment, k: nat)
    requires plan.Valid() && p in plan.all && k < plan.fan(p)
    ensures p + [k] in plan.all
  {
  }

  lemma DrivenProduced(s: State, p: Segment)
    requires p in multiset(s.driven)
    ensures p in Produced(s)
  {
  }

  lemma HeldHas(workers: seq<Worker>, i: nat)
    requires i < |workers| && workers[i].Holding?
    ensures workers[i].segment in Held(workers)
  {
    HeldUpdate(workers, i, Waiting);
  }

  /** A held segment is not driven yet and has no offspring. */
  lemma HeldIsNew(plan: Plan, s: State, i: nat)
    requires Sound(plan, s) && i < |s.workers| && s.workers[i].Holding?
    ensures s.workers[i].segment !in multiset(s.driven)
    ensures forall k: nat :: s.workers[i].segment + [k] !in Produced(s)
  {
    var p := s.workers[i].segment;
    HeldHas(s.workers, i);
    assert Produced(s)[p] <= 1;
    forall k: nat
      ensures p + [k] !in Produced(s)
    {
      assert (p + [k])[..|p + [k]| - 1] == p;
    }
  }

  lemma CompleteKept(plan: Plan, s: State, i: nat)
    requires Complete(plan, s) && WorkerEnabled(plan, s, i)
    ensures Complete(plan, WorkerStep(plan, s, i))
  {
    hide Produced;
    var s' := WorkerStep(plan, s, i);
    WorkerProduces(plan, s, i);
    forall p, k: nat | p in multiset(s'.driven) && k < plan.fan(p)
      ensures p + [k] in Produced(s') || exists j: nat :: Descends(s', j, p, k)
    {
      if p in multiset(s.driven) {
        if p + [k] !in Produced(s) {
          var j: nat :| Descends(s, j, p, k);
          if j != i {
            assert Descends(s', j, p, k);
          } else if !(Submits(plan, s.workers[i]) && s.workers[i].next == k) {
            assert Descends(s', i, p, k);
          }
        }
      } else {
        DrivenGrows(plan, s, i);
        assert Descends(s', i, p, k);
      }
    }
  }

  lemma ChildrenDiffer(p: Segment, k: nat, p': Segment, k': nat)
    requires p + [k] == p' + [k']
    ensures p == p' && k == k'
  {
    assert (p + [k])[..|p|] == p && (p' + [k'])[..|p'|] == p';
    assert (p + [k])[|p|] == k && (p' + [k'])[|p'|] == k';
  }

  lemma OtherFits(plan: Plan, s: State, i: nat, j: nat)
    requires Sound(plan, s) && WorkersFit(plan, s) && WorkerEnabled(plan, s, i) && j < |s.workers| && j != i
    ensures WorkerFits(plan, WorkerStep(plan, s, i), s.workers[j])
  {
    hide Produced, Sound;
    var s', w := WorkerStep(plan, s, i), s.workers[j];
    WorkerProduces(plan, s, i);
    DrivenGrows(plan, s, i);
    if w.Descending? {
      forall k: nat | k >= w.next
        ensures w.segment + [k] !in Produced(s')
      {
        assert w.segment + [k] !in Produced(s);
        if Submits(plan, s.workers[i]) && s.workers[i].segment + [s.workers[i].next] == w.segment + [k] {
          ChildrenDiffer(s.workers[i].segment, s.workers[i].next, w.segment, k);
        }
      }
    }
  }

  lemma SelfFits(plan: Plan, s: State, i: nat)
    requires Sound(plan, s) && WorkersFit(plan, s) && WorkerEnabled(plan, s, i)
    ensures WorkerFits(plan, WorkerStep(plan, s, i), WorkerStep(plan, s, i).workers[i])
    ensures var w' := WorkerStep(plan, s, i).workers[i];
            w'.Descending? ==> (s.workers[i].Descending? && s.workers[i].segment == w'.segment) || w'.segment !in multiset(s.driven)
  {
    hide Produced, Sound;
    var s' := WorkerStep(plan, s, i);
    var w, w' := s.workers[i], s'.workers[i];
    WorkerProduces(plan, s, i);
    DrivenGrows(plan, s, i);
    if w.Holding? {
      HeldIsNew(plan, s, i);
    } else if w'.Descending? {
      forall k: nat | k >= w'.next
        ensures w'.segment + [k] !in Produced(s')
      {
        assert w.segment + [k] !in Produced(s);
        if Submits(plan, w) && w.segment + [w.next] == w.segment + [k] {
          ChildrenDiffer(w.segment, w.next, w.segment, k);
        }
      }
    }
  }

  lemma FitsKept(plan: Plan, s: State, i: nat)
    requires Sound(plan, s) && WorkersFit(plan, s) && WorkerEnabled(plan, s, i)
    ensures WorkersFit(plan, WorkerStep(plan, s, i))
  {
    hide Produced, Sound;
    var s' := WorkerStep(plan, s, i);
    SelfFits(plan, s, i);
    forall j | 0 <= j < |s'.workers|
      ensures WorkerFits(plan, s', s'.workers[j])
    {
      if j != i {
        OtherFits(plan, s, i, j);
      }
    }
  }

  lemma RootedKept(plan: Plan, s: State, i: nat)
    requires Rooted(s) && WorkerEnabled(plan, s, i)
    ensures Rooted(WorkerStep(plan, s, i))
  {
    hide Produced;
    WorkerProduces(plan, s, i);
  }

  lemma ToldKept(plan: Plan, s: State, i: nat)
    requires Told(s) && CountIs(s) && WorkerEnabled(plan, s, i)
    ensures Told(WorkerStep(plan, s, i))
  {
    hide Sum;
    var s', w := WorkerStep(plan, s, i), s.workers[i];
    assert s.count >= 0;
    if s'.loop.Receiving? && s'.count == 0 && s'.completions == 0 {
      if s.count == 0 {
        var j :| 0 <= j < |s.workers| && s.workers[j].Completing?;
        assert s'.workers[j].Completing?;
      } else {
        assert s'.workers[i].Completing?;
      }
    }
  }

  lemma WorkerKeeps(plan: Plan, s: State, i: nat)
    requires Inv(plan, s) && WorkerEnabled(plan, s, i)
    ensures Inv(plan, WorkerStep(plan, s, i))
  {
    hide CountIs, Sound, Complete, WorkersFit, Rooted, Told, Plan.Valid, WorkerStep, WorkerEnabled;
    CountKept(plan, s, i);
    SoundKept(plan, s, i);
    CompleteKept(plan, s, i);
    FitsKept(plan, s, i);
    RootedKept(plan, s, i);
    ToldKept(plan, s, i);
  }

  // ----- The main loop and whole runs -----

  lemma LoopProduces(s: State)
    requires LoopEnabled(s)
    ensures Produced(LoopStep(s)) == Produced(s) + if s.loop.Submitting? then multiset{[]} else multiset{}
  {
    hide Held;
  }

  lemma NothingYet(s: State)
    requires Rooted(s) && (s.loop.Counting? || s.loop.Submitting?)
    ensures Produced(s) == multiset{}
  {
    HeldNone(s.workers);
  }

  /** What stays when only the main loop moves. */
  lemma SameWork(plan: Plan, s: State, s': State)
    requires s'.driven == s.driven && s'.workers == s.workers && Produced(s') == Produced(s)
    requires Sound(plan, s) && Complete(plan, s) && WorkersFit(plan, s)
    ensures Sound(plan, s') && Complete(plan, s') && WorkersFit(plan, s')
  {
    hide Produced, Complete, WorkersFit;
    SameComplete(plan, s, s');
    SameFits(plan, s, s');
  }

  lemma SameComplete(plan: Plan, s: State, s': State)
    requires s'.driven == s.driven && s'.workers == s.workers && Produced(s') == Produced(s) && Complete(plan, s)
    ensures Complete(plan, s')
  {
    hide Produced;
    forall p, k: nat | p in multiset(s'.driven) && k < plan.fan(p)
      ensures p + [k] in Produced(s') || exists i: nat :: Descends(s', i, p, k)
    {
      if p + [k] !in Produced(s) {
        var i: nat :| Descends(s, i, p, k);
        assert Descends(s', i, p, k);
      }
    }
  }

  lemma SameFits(plan: Plan, s: State, s': State)
    requires s'.driven == s.driven && s'.workers == s.workers && Produced(s') == Produced(s) && WorkersFit(plan, s)
    ensures WorkersFit(plan, s')
  {
    hide Produced;
    forall i | 0 <= i < |s'.workers|
      ensures WorkerFits(plan, s', s'.workers[i])
    {
      assert WorkerFits(plan, s, s.workers[i]);
    }
  }

  lemma RootSubmitted(plan: Plan, s: State)
    requires Inv(plan, s) && s.loop.Submitting?
    ensures Inv(plan, LoopStep(s))
  {
    hide Produced, Sum, Told, WorkersFit, Sound, Complete, Plan.Valid;
    LoopProduces(s);
    NothingYet(s);
    var s' := LoopStep(s);
    assert Produced(s') == multiset{[]};
    RootSound(plan, s');
    RootFits(plan, s');
    RootTold(s, s');
  }

  lemma RootSound(plan: Plan, s: State)
    requires plan.Valid() && Produced(s) == multiset{[]}
    ensures Sound(plan, s)
  {
    hide Produced;
    assert [] in plan.all;
    hide Plan.Valid;
  }

  lemma RootFits(plan: Plan, s: State)
    requires s.driven == [] && forall i :: 0 <= i < |s.workers| ==> s.workers[i].Waiting?
    ensures Complete(plan, s) && WorkersFit(plan, s)
  {
    hide Produced, WorkerFits;
    forall i | 0 <= i < |s.workers|
      ensures WorkerFits(plan, s, s.workers[i])
    {
      IdleFits(plan, s, s.workers[i]);
    }
  }

  lemma IdleFits(plan: Plan, s: State, w: Worker)
    requires !w.Descending?
    ensures WorkerFits(plan, s, w)
  {
  }

  lemma RootTold(s: State, s': State)
    requires CountIs(s) && s.loop.Submitting? && s'.count == s.count && s'.loop.Receiving?
    ensures Told(s')
  {
    hide Sum;
  }

  lemma LoopKeeps(plan: Plan, s: State)
    requires Inv(plan, s) && LoopEnabled(s)
    ensures Inv(plan, LoopStep(s))
  {
    hide Produced, Sum, Sound, Complete, WorkersFit, Plan.Valid;
    if s.loop.Submitting? {
      RootSubmitted(plan, s);
    } else {
      LoopProduces(s);
      SameWork(plan, s, LoopStep(s));
    }
  }

  lemma InitInv(plan: Plan, numWorkers: nat)
    requires plan.Valid()
    ensures Inv(plan, Init(numWorkers))
  {
    hide Held, Sum;
    var s := Init(numWorkers);
    HeldNone(s.workers);
    SumZero(s.workers, InHand);
    SumZero(s.workers, CountedOnly);
  }

  lemma NextKeeps(plan: Plan, s: State, s': State)
    requires Inv(plan, s) && Next(plan, s, s')
    ensures Inv(plan, s') && |s'.workers| == |s.workers|
  {
    hide Inv;
    if LoopEnabled(s) && s' == LoopStep(s) {
      LoopKeeps(plan, s);
    } else {
      var i: nat :| WorkerEnabled(plan, s, i) && s' == WorkerStep(plan, s, i);
      WorkerKeeps(plan, s, i);
    }
  }

  /** In every interleaving the descent count is exact, and all of the invariant holds. */
  lemma {:induction false} RunInv(plan: Plan, numWorkers: nat, states: seq<State>, i: nat)
    requires plan.Valid() && Run(plan, numWorkers, states) && i < |states|
    ensures Inv(plan, states[i]) && |states[i].workers| == numWorkers
  {
    hide Inv, Next, Plan.Valid;
    if i == 0 {
      InitInv(plan, numWorkers);
    } else {
      RunInv(plan, numWorkers, states, i - 1);
      NextKeeps(plan, states[i - 1], states[i]);
    }
  }

  // ----- Safety: a finished traversal has driven every segment once -----

  lemma NobodyBusy(s: State, i: nat)
    requires CountIs(s) && s.count == 0 && i < |s.workers|
    ensures !s.workers[i].Holding? && !s.workers[i].Descending? && s.queue == []
  {
    hide Sum;
    SumAtLeast(s.workers, i, InHand);
  }

  lemma NothingPending(s: State)
    requires CountIs(s) && s.count == 0
    ensures Produced(s) == multiset(s.driven)
    ensures forall i: nat, p, k :: !Descends(s, i, p, k)
  {
    hide Sum, Held;
    forall i | 0 <= i < |s.workers|
      ensures !s.workers[i].Holding? && !s.workers[i].Descending?
    {
      NobodyBusy(s, i);
    }
    HeldNone(s.workers);
    assert s.queue == [];
  }

  lemma ParentInTree(plan: Plan, p: Segment)
    requires plan.Valid() && p in plan.all && p != []
    ensures p[..|p| - 1] in plan.all && p[|p| - 1] < plan.fan(p[..|p| - 1])
  {
  }

  lemma {:induction false} AllDriven(plan: Plan, s: State, p: Segment)
    requires Inv(plan, s) && s.loop.Finished? && p in plan.all
    ensures p in multiset(s.driven)
    decreases |p|
  {
    hide Plan.Valid, CountIs, Sound, WorkersFit, Descends, Produced;
    NothingPending(s);
    if p != [] {
      var parent, k := p[..|p| - 1], p[|p| - 1];
      ParentInTree(plan, p);
      AllDriven(plan, s, parent);
      assert p == parent + [k];
    }
  }

  /** When the main loop sees zero, every segment of the tree has been driven exactly once, and nothing else was. */
  lemma DrivenExactlyOnce(plan: Plan, s: State)
    requires Inv(plan, s) && s.loop.Finished?
    ensures multiset(s.driven) == multiset(plan.all)
  {
    hide Plan.Valid, Complete, WorkersFit, CountIs;
    forall p
      ensures multiset(s.driven)[p] == multiset(plan.all)[p]
    {
      assert multiset(s.driven)[p] <= Produced(s)[p] <= 1;
      if p in plan.all {
        AllDriven(plan, s, p);
      } else {
        assert p !in Produced(s);
      }
    }
  }

  // ----- Progress -----

  ghost predicate Stuck(plan: Plan, s: State) {
    !LoopEnabled(s) && forall i: nat :: !WorkerEnabled(plan, s, i)
  }

  /** With a worker, some step is enabled until the main loop has finished. */
  lemma NoDeadlock(plan: Plan, s: State)
    requires Inv(plan, s) && |s.workers| > 0 && Stuck(plan, s)
    ensures s.loop.Finished?
  {
    hide Sound, Complete, WorkersFit, Plan.Valid, Sum;
    if !s.loop.Finished? {
      forall i | 0 <= i < |s.workers|
        ensures s.workers[i].Waiting?
      {
        assert !WorkerEnabled(plan, s, i);
      }
      assert !WorkerEnabled(plan, s, 0);
      SumZero(s.workers, InHand);
      SumZero(s.workers, CountedOnly);
    }
  }

  ghost predicate EndsIn(plan: Plan, numWorkers: nat, states: seq<State>, s: State) {
    Run(plan, numWorkers, states) && states[|states| - 1] == s
  }

  /** Without workers the main loop waits forever for the root. */
  lemma ZeroWorkersHang(plan: Plan) returns (states: seq<State>, s: State)
    ensures EndsIn(plan, 0, states, s) && Stuck(plan, s) && s.loop.Receiving? && s.queue == [[]]
  {
    var s0 := Init(0);
    var s1 := LoopStep(s0);
    s := LoopStep(s1);
    assert Next(plan, s0, s1) && Next(plan, s1, s);
    states := [s0, s1, s];
  }

  // ----- Termination -----

  /** The number of steps left: eight for every segment not yet produced, fewer for the others. */
  function Energy(plan: Plan, s: State): int {
    8 * (|plan.all| - |Produced(s)|) + 6 * |s.queue| + Sum(s.workers, StepsLeft) + 2 * s.completions
    + match s.loop case Submitting => -1 case Checking => 1 case _ => 0
  }

  function StepsLeft(w: Worker): nat {
    match w
    case Waiting => 0
    case Holding(_) => 5
    case Descending(_, _, counted) => if counted then 3 else 4
    case Completing => 3
  }

  lemma WorkerCosts(plan: Plan, s: State, i: nat)
    requires WorkersFit(plan, s) && WorkerEnabled(plan, s, i)
    ensures Energy(plan, WorkerStep(plan, s, i)) == Energy(plan, s) - 1
  {
    hide Sum, Produced;
    var s' := WorkerStep(plan, s, i);
    WorkerProduces(plan, s, i);
    SumUpdate(s.workers, i, s'.workers[i], StepsLeft);
    assert s'.workers == s.workers[i := s'.workers[i]];
    assert |Produced(s')| == |Produced(s)| + |Offspring(plan, s.workers[i])|;
  }

  lemma NextCosts(plan: Plan, s: State, s': State)
    requires Inv(plan, s) && Next(plan, s, s')
    ensures Energy(plan, s') == Energy(plan, s) - 1
  {
    hide Sum, Produced, Sound, Complete, CountIs, Plan.Valid;
    if LoopEnabled(s) && s' == LoopStep(s) {
      LoopProduces(s);
    } else {
      var i: nat :| WorkerEnabled(plan, s, i) && s' == WorkerStep(plan, s, i);
      WorkerCosts(plan, s, i);
    }
  }

  lemma {:induction false} MultisetSize(all: set<Segment>)
    ensures |multiset(all)| == |all|
    decreases |all|
  {
    if all != {} {
      var p :| p in all;
      MultisetSize(all - {p});
      assert multiset(all) == multiset(all - {p}) + multiset{p};
    }
  }

  lemma AtMostTree(plan: Plan, s: State)
    requires Sound(plan, s)
    ensures |Produced(s)| <= |plan.all|
  {
    hide Produced;
    var all := multiset(plan.all);
    MultisetSize(plan.all);
    assert all == Produced(s) + (all - Produced(s));
  }

  lemma EnergyBounds(plan: Plan, s: State)
    requires Inv(plan, s)
    ensures Energy(plan, s) >= 0
  {
    hide Sum, Complete, WorkersFit, CountIs, Produced;
    AtMostTree(plan, s);
    if s.loop.Submitting? {
      NothingYet(s);
      assert |plan.all| > 0;
    }
  }

  /** Every run, whatever the interleaving, takes at most eight steps per segment of the tree. */
  lemma {:induction false} RunLength(plan: Plan, numWorkers: nat, states: seq<State>, i: nat)
    requires plan.Valid() && Run(plan, numWorkers, states) && i < |states|
    ensures i == 8 * |plan.all| - Energy(plan, states[i]) <= 8 * |plan.all|
  {
    hide Inv, Next, Plan.Valid, Energy;
    RunInv(plan, numWorkers, states, i);
    EnergyBounds(plan, states[i]);
    if i == 0 {
      InitEnergy(plan, numWorkers);
    } else {
      RunLength(plan, numWorkers, states, i - 1);
      RunInv(plan, numWorkers, states, i - 1);
      NextCosts(plan, states[i - 1], states[i]);
    }
  }

  lemma InitEnergy(plan: Plan, numWorkers: nat)
    ensures Energy(plan, Init(numWorkers)) == 8 * |plan.all|
  {
    var s := Init(numWorkers);
    HeldNone(s.workers);
    SumZero(s.workers, StepsLeft);
  }

  /** The main loop has finished and every segment of the tree was driven exactly once. */
  ghost predicate Completed(plan: Plan, s: State) {
    s.loop.Finished? && multiset(s.driven) == multiset(plan.all)
  }

  /** Every interleaving that can go no further has completed the traversal, if and only if there is a worker. */
  lemma TraversalCompletesIff(plan: Plan, numWorkers: nat)
    requires plan.Valid()
    ensures numWorkers > 0 <==> forall states, s :: EndsIn(plan, numWorkers, states, s) && Stuck(plan, s) ==> Completed(plan, s)
  {
    hide Plan.Valid, Stuck, Inv, Init, LoopStep, Next;
    if numWorkers > 0 {
      forall states, s | EndsIn(plan, numWorkers, states, s) && Stuck(plan, s)
        ensures Completed(plan, s)
      {
        RunInv(plan, numWorkers, states, |states| - 1);
        NoDeadlock(plan, s);
        DrivenExactlyOnce(plan, s);
      }
    } else {
      var states, s := ZeroWorkersHang(plan);
    }
  }
}
