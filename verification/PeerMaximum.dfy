/** How many peers of a source the registry of module ConnectionRegistry lists
    at most, and when its configured maximum holds. */
module PeerMaximum {
  import opened ConnectionRegistry
  import opened Sets

  // ---- the peer bound ----

  function Negotiators(s: State, source: SourceId): set<TaskId> {
    set t | t in s.negotiating && s.negotiating[t].source == source
  }

  function Inserters(s: State, source: SourceId): set<ConnectionId> {
    set id | id in s.inserting && s.inserting[id].source == source
  }

  /** Admitted offers of a source that are not listed yet. */
  function InFlight(s: State, source: SourceId): nat {
    |Negotiators(s, source)| + |Inserters(s, source)|
  }

  function ListedCount(s: State, source: SourceId): nat {
    |ListOf(s.lists, source)|
  }

  /** Only a successful check adds to what is listed or in flight, and it adds
      one when fewer than `maxPeers` are listed. */
  lemma {:induction false} StepCounts(s: State, step: Step, maxPeers: nat, source: SourceId)
    requires Inv(s) && Enabled(s, step)
    ensures var s' := Apply(s, step, maxPeers);
            || ListedCount(s', source) + InFlight(s', source) <= ListedCount(s, source) + InFlight(s, source)
            || (ListedCount(s', source) == ListedCount(s, source) < maxPeers)
  {
    hide Inv;
    var s' := Apply(s, step, maxPeers);
    match step {
      case Check(t, offer) =>
        CheckCounts(s, t, offer, source);
        hide Negotiators, Inserters;
      case GiveUp(t) =>
        NegotiatorsWithout(s, s', t, source);
        hide Negotiators, Inserters;
      case Insert(t, id) =>
        InsertIsFresh(s, id);
        InsertCounts(s, t, id, maxPeers, source);
        hide InFlight;
      case Push(id) =>
        PushCounts(s, id, maxPeers, source);
        hide InFlight, ListedCount;
      case Retain(src, id) =>
        WithoutDrops(ListOf(s.lists, src), id);
        hide Without, Negotiators, Inserters;
      case Announce(_, _) => hide ListedCount, Negotiators, Inserters;
      case Remove(_) => hide ListOf, Negotiators, Inserters;
      case Delete(_) => hide ListOf, Negotiators, Inserters;
      case Close(_) => hide ListOf, Negotiators, Inserters;
    }
  }

  lemma {:induction false} CheckCounts(s: State, t: TaskId, offer: Offer, source: SourceId)
    requires t !in s.negotiating
    ensures var s' := s.(negotiating := s.negotiating[t := offer]);
            |Negotiators(s', source)| == |Negotiators(s, source)| + if offer.source == source then 1 else 0
  {
    var s' := s.(negotiating := s.negotiating[t := offer]);
    assert Negotiators(s', source) == if offer.source == source then Negotiators(s, source) + {t} else Negotiators(s, source);
  }

  predicate InsertFresh(s: State, id: ConnectionId) { id !in s.inserting }

  lemma {:induction false} InsertIsFresh(s: State, id: ConnectionId)
    requires Inv(s) && id !in s.used
    ensures InsertFresh(s, id)
  {
    hide Listed, ListsDistinct, HasResource;
  }

  lemma {:induction false} InsertCounts(s: State, t: TaskId, id: ConnectionId, maxPeers: nat, source: SourceId)
    requires Enabled(s, Insert(t, id)) && InsertFresh(s, id)
    ensures InFlight(Apply(s, Insert(t, id), maxPeers), source) == InFlight(s, source)
  {
    var s', offer := Apply(s, Insert(t, id), maxPeers), s.negotiating[t];
    NegotiatorsWithout(s, s', t, source);
    InsertersWith(s, s', id, offer, source);
    hide Negotiators, Inserters;
  }

  lemma {:induction false} NegotiatorsWithout(s: State, s': State, t: TaskId, source: SourceId)
    requires t in s.negotiating && s'.negotiating == s.negotiating - {t}
    ensures |Negotiators(s', source)| == |Negotiators(s, source)| - if s.negotiating[t].source == source then 1 else 0
  {
    assert Negotiators(s', source) == Negotiators(s, source) - {t};
  }

  lemma {:induction false} InsertersWith(s: State, s': State, id: ConnectionId, offer: Offer, source: SourceId)
    requires id !in s.inserting && s'.inserting == s.inserting[id := offer]
    ensures |Inserters(s', source)| == |Inserters(s, source)| + if offer.source == source then 1 else 0
  {
    assert Inserters(s', source) == if offer.source == source then Inserters(s, source) + {id} else Inserters(s, source);
  }

  lemma {:induction false} PushCounts(s: State, id: ConnectionId, maxPeers: nat, source: SourceId)
    requires Enabled(s, Push(id))
    ensures var s' := Apply(s, Push(id), maxPeers);
            ListedCount(s', source) + InFlight(s', source) == ListedCount(s, source) + InFlight(s, source)
  {
    var s' := Apply(s, Push(id), maxPeers);
    assert Negotiators(s, source) == Negotiators(s', source);
    if s.inserting[id].source == source {
      assert Inserters(s, source) == Inserters(s', source) + {id};
    } else {
      assert Inserters(s, source) == Inserters(s', source);
    }
  }

  /** At most M admitted offers of the source are ever in flight. */
  ghost predicate WithinFlight(run: seq<State>, source: SourceId, M: nat) {
    forall i :: 0 <= i < |run| ==> InFlight(run[i], source) <= M
  }

  /** If at most M admitted offers of a source are ever in flight, then what is
      listed for it and what is in flight never exceed maxPeers - 1 + M. */
  lemma {:induction false} PeerBound(run: seq<State>, steps: seq<Step>, maxPeers: nat, source: SourceId, M: nat, n: nat)
    requires IsRun(run, steps, maxPeers) && n <= |steps| && M >= 1 && maxPeers >= 1 && WithinFlight(run, source, M)
    ensures ListedCount(run[n], source) + InFlight(run[n], source) <= maxPeers - 1 + M
  {
    hide Inv, Apply, Enabled, InFlight, ListedCount;
    if n == 0 {
      StartIsEmpty(source);
    } else {
      PeerBound(run, steps, maxPeers, source, M, n - 1);
      InvAlongRun(run, steps, maxPeers, n - 1);
      RunStep(run, steps, maxPeers, n);
      hide IsRun;
      StepCounts(run[n - 1], steps[n - 1], maxPeers, source);
      assert InFlight(run[n], source) <= M;
    }
  }

  lemma {:induction false} StartIsEmpty(source: SourceId)
    ensures ListedCount(START, source) == 0 && InFlight(START, source) == 0
  {
    assert Negotiators(START, source) == {} && Inserters(START, source) == {};
  }

  lemma {:induction false} RunStep(run: seq<State>, steps: seq<Step>, maxPeers: nat, n: nat)
    requires IsRun(run, steps, maxPeers) && 0 < n <= |steps|
    ensures Enabled(run[n - 1], steps[n - 1]) && run[n] == Apply(run[n - 1], steps[n - 1], maxPeers)
  {
    hide Apply, Enabled;
    assert Takes(run, steps, maxPeers, n - 1);
  }

  function Elements(ids: seq<ConnectionId>): set<ConnectionId> {
    set id | id in ids
  }

  lemma {:induction false} ElementsCount(ids: seq<ConnectionId>)
    ensures |Elements(ids)| <= |ids|
  {
    if ids == [] {
    } else {
      ElementsCount(ids[1..]);
      assert ids == [ids[0]] + ids[1..];
      assert Elements(ids) == Elements(ids[1..]) + {ids[0]};
    }
  }

  /** So the live connections of a source obey the same bound. */
  lemma {:induction false} LivePeerBound(run: seq<State>, steps: seq<Step>, maxPeers: nat, source: SourceId, M: nat, n: nat)
    requires IsRun(run, steps, maxPeers) && n <= |steps| && M >= 1 && maxPeers >= 1 && WithinFlight(run, source, M)
    ensures var live := set id | id in run[n].connections && run[n].connections[id] == source;
            |live| <= maxPeers - 1 + M
  {
    var s := run[n];
    var live := set id | id in s.connections && s.connections[id] == source;
    var listed, inserters := Elements(ListOf(s.lists, source)), Inserters(s, source);
    PeerBound(run, steps, maxPeers, source, M, n);
    InvAlongRun(run, steps, maxPeers, n);
    ElementsCount(ListOf(s.lists, source));
    assert live <= listed + inserters by {
      hide ListsDistinct, ListedAreLive, WhepPlaced, IsRun;
      forall id | id in live ensures id in listed + inserters {
        assert Live(s.connections, source, id);
        assert id in s.inserting ==> Live(s.connections, s.inserting[id].source, id);
      }
    }
    hide *;
    SubsetCount(live, listed + inserters);
    UnionCount(listed, inserters);
  }

  lemma {:induction false} UnionCount<T>(a: set<T>, b: set<T>)
    ensures |a + b| <= |a| + |b|
  {
    assert a + b == a + (b - a);
    SubsetCount(b - a, b);
  }

  // ---- the bound is reached ----

  ghost predicate WithinMaximum(run: seq<State>, source: SourceId, maxPeers: nat) {
    forall i :: 0 <= i < |run| ==> ListedCount(run[i], source) <= maxPeers
  }

  ghost predicate RunTo(run: seq<State>, steps: seq<Step>, s: State, maxPeers: nat, source: SourceId, M: nat) {
    IsRun(run, steps, maxPeers) && WithinFlight(run, source, M) && run[|steps|] == s
  }

  ghost predicate Reaches(s: State, maxPeers: nat, source: SourceId, M: nat) {
    exists run, steps :: RunTo(run, steps, s, maxPeers, source, M)
  }

  lemma {:induction false} StartIsReached(maxPeers: nat, source: SourceId, M: nat)
    ensures Reaches(START, maxPeers, source, M)
  {
    StartIsEmpty(source);
    hide InFlight;
    assert RunTo([START], [], START, maxPeers, source, M);
  }

  lemma {:induction false} OneMoreStep(s: State, step: Step, maxPeers: nat, source: SourceId, M: nat)
    requires Reaches(s, maxPeers, source, M) && Enabled(s, step) && InFlight(Apply(s, step, maxPeers), source) <= M
    ensures Reaches(Apply(s, step, maxPeers), maxPeers, source, M)
  {
    hide Apply, Enabled, InFlight;
    var run, steps :| RunTo(run, steps, s, maxPeers, source, M);
    var s' := Apply(s, step, maxPeers);
    RunExtends(run, steps, s, step, s', maxPeers);
    hide IsRun;
    assert (run + [s'])[|steps| + 1] == s';
    assert RunTo(run + [s'], steps + [step], s', maxPeers, source, M);
  }

  lemma {:induction false} RunExtends(run: seq<State>, steps: seq<Step>, s: State, step: Step, s': State, maxPeers: nat)
    requires IsRun(run, steps, maxPeers) && run[|steps|] == s && Enabled(s, step) && s' == Apply(s, step, maxPeers)
    ensures IsRun(run + [s'], steps + [step], maxPeers) && |run| == |steps| + 1
  {
    hide Apply, Enabled;
    var run', steps' := run + [s'], steps + [step];
    forall i | 0 <= i < |steps'| ensures Takes(run', steps', maxPeers, i) {
      assert i < |steps| ==> Takes(run, steps, maxPeers, i);
    }
  }

  /** A connection id for each length. */
  function Id(n: nat): (id: ConnectionId)
    ensures |id| == n
  {
    seq(n, _ => 'i')
  }

  /** Tasks 0 to `tasks` have an admitted offer, `listed` peers are listed, and
      only ids shorter than `drawn` have been used. */
  ghost predicate Shaped(s: State, o: Offer, tasks: nat, listed: nat, drawn: nat) {
    && (forall t: TaskId :: t in s.negotiating <==> t < tasks) && (forall t: TaskId :: t in s.negotiating ==> s.negotiating[t] == o)
    && s.inserting == map[] && |Negotiators(s, o.source)| == tasks
    && ListedCount(s, o.source) == listed && forall id :: id in s.used ==> |id| < drawn
  }

  lemma {:induction false} ShapedInFlight(s: State, o: Offer, tasks: nat, listed: nat, drawn: nat)
    requires Shaped(s, o, tasks, listed, drawn)
    ensures InFlight(s, o.source) == tasks
  {
    assert Inserters(s, o.source) == {};
  }

  lemma {:induction false} CheckShapes(s: State, o: Offer, tasks: nat, listed: nat, drawn: nat, maxPeers: nat)
    requires Shaped(s, o, tasks, listed, drawn) && listed < maxPeers
    ensures Enabled(s, Check(tasks, o)) && Shaped(Apply(s, Check(tasks, o), maxPeers), o, tasks + 1, listed, drawn)
  {
    CheckCounts(s, tasks, o, o.source);
    hide Negotiators;
  }

  lemma {:induction false} InsertShapes(s: State, o: Offer, tasks: nat, listed: nat, drawn: nat, maxPeers: nat)
    requires Shaped(s, o, tasks, listed, drawn) && tasks > 0
    ensures var step := Insert(tasks - 1, Id(drawn));
            Enabled(s, step) && Inserted(Apply(s, step, maxPeers), o, tasks, listed, drawn)
  {
    var id := Id(drawn);
    assert id !in s.used;
    var s' := Apply(s, Insert(tasks - 1, id), maxPeers);
    NegotiatorsWithout(s, s', tasks - 1, o.source);
    InsertersWith(s, s', id, o, o.source);
    assert Inserters(s, o.source) == {};
    hide Negotiators, Inserters, Id;
    assert s'.inserting == map[id := o];
  }

  /** The same with the last task's registration between insert and push. */
  ghost predicate Inserted(s: State, o: Offer, tasks: nat, listed: nat, drawn: nat)
    requires tasks > 0
  {
    && (forall t: TaskId :: t in s.negotiating <==> t < tasks - 1) && (forall t: TaskId :: t in s.negotiating ==> s.negotiating[t] == o)
    && s.inserting == map[Id(drawn) := o] && |Negotiators(s, o.source)| == tasks - 1 && |Inserters(s, o.source)| == 1
    && ListedCount(s, o.source) == listed && forall id :: id in s.used ==> |id| < drawn + 1
  }

  lemma {:induction false} PushShapes(s: State, o: Offer, tasks: nat, listed: nat, drawn: nat, maxPeers: nat)
    requires tasks > 0 && Inserted(s, o, tasks, listed, drawn)
    ensures Enabled(s, Push(Id(drawn)))
    ensures Shaped(Apply(s, Push(Id(drawn)), maxPeers), o, tasks - 1, listed + 1, drawn + 1)
  {
    var id := Id(drawn);
    hide Id;
    var s' := Apply(s, Push(id), maxPeers);
    assert Negotiators(s', o.source) == Negotiators(s, o.source);
    assert s'.inserting == map[];
    hide Negotiators, Inserters;
  }

  /** One admitted offer is registered. */
  lemma {:induction false} Register(s: State, o: Offer, tasks: nat, listed: nat, drawn: nat, maxPeers: nat, M: nat) returns (s': State)
    requires Reaches(s, maxPeers, o.source, M) && Shaped(s, o, tasks, listed, drawn) && 0 < tasks <= M
    ensures Reaches(s', maxPeers, o.source, M) && Shaped(s', o, tasks - 1, listed + 1, drawn + 1)
  {
    hide Reaches, Apply, Enabled, Id;
    InsertShapes(s, o, tasks, listed, drawn, maxPeers);
    var mid := Apply(s, Insert(tasks - 1, Id(drawn)), maxPeers);
    assert InFlight(mid, o.source) == tasks;
    OneMoreStep(s, Insert(tasks - 1, Id(drawn)), maxPeers, o.source, M);
    PushShapes(mid, o, tasks, listed, drawn, maxPeers);
    s' := Apply(mid, Push(Id(drawn)), maxPeers);
    hide Inserted, Shaped;
    ShapedInFlight(s', o, tasks - 1, listed + 1, drawn + 1);
    OneMoreStep(mid, Push(Id(drawn)), maxPeers, o.source, M);
  }

  /** One more offer is admitted. */
  lemma {:induction false} Admit(s: State, o: Offer, tasks: nat, listed: nat, drawn: nat, maxPeers: nat, M: nat) returns (s': State)
    requires Reaches(s, maxPeers, o.source, M) && Shaped(s, o, tasks, listed, drawn) && listed < maxPeers && tasks < M
    ensures Reaches(s', maxPeers, o.source, M) && Shaped(s', o, tasks + 1, listed, drawn)
  {
    hide Reaches, Apply, Enabled;
    CheckShapes(s, o, tasks, listed, drawn, maxPeers);
    s' := Apply(s, Check(tasks, o), maxPeers);
    ShapedInFlight(s', o, tasks + 1, listed, drawn);
    hide Shaped;
    OneMoreStep(s, Check(tasks, o), maxPeers, o.source, M);
  }

  lemma {:induction false} StartIsShaped(o: Offer)
    ensures Shaped(START, o, 0, 0, 0)
  {
    assert Negotiators(START, o.source) == {};
    assert START.negotiating == map[] && START.inserting == map[] && START.used == {} && START.lists == map[];
  }

  /** k offers, one after the other. */
  lemma {:induction false} Fill(o: Offer, k: nat, maxPeers: nat, M: nat) returns (s: State)
    requires k <= maxPeers && M >= 1
    ensures Reaches(s, maxPeers, o.source, M) && Shaped(s, o, 0, k, k)
  {
    hide Reaches, Shaped;
    if k == 0 {
      s := START;
      StartIsReached(maxPeers, o.source, M);
      StartIsShaped(o);
    } else {
      s := Fill(o, k - 1, maxPeers, M);
      s := Admit(s, o, 0, k - 1, k - 1, maxPeers, M);
      s := Register(s, o, 1, k - 1, k - 1, maxPeers, M);
    }
  }

  /** With one place left, j offers are admitted before any is registered. */
  lemma {:induction false} Crowd(o: Offer, j: nat, maxPeers: nat, M: nat) returns (s: State)
    requires maxPeers >= 1 && 1 <= M && j <= M
    ensures Reaches(s, maxPeers, o.source, M) && Shaped(s, o, j, maxPeers - 1, maxPeers - 1)
  {
    hide Reaches, Shaped;
    if j == 0 {
      s := Fill(o, maxPeers - 1, maxPeers, M);
    } else {
      s := Crowd(o, j - 1, maxPeers, M);
      s := Admit(s, o, j - 1, maxPeers - 1, maxPeers - 1, maxPeers, M);
    }
  }

  /** Then j of them are registered. */
  lemma {:induction false} Drain(o: Offer, j: nat, maxPeers: nat, M: nat) returns (s: State)
    requires maxPeers >= 1 && 1 <= M && j <= M
    ensures Reaches(s, maxPeers, o.source, M) && Shaped(s, o, M - j, maxPeers - 1 + j, maxPeers - 1 + j)
  {
    hide Reaches, Shaped;
    if j == 0 {
      s := Crowd(o, M, maxPeers, M);
    } else {
      s := Drain(o, j - 1, maxPeers, M);
      s := Register(s, o, M - j + 1, maxPeers - 2 + j, maxPeers - 2 + j, maxPeers, M);
    }
  }

  /** For every maximum and every M a run with at most M offers in flight reaches
      the bound of PeerBound, with all of them in flight and with all listed. */
  lemma {:induction false} BoundIsReached(maxPeers: nat, source: SourceId, M: nat) returns (crowded: State, drained: State)
    requires maxPeers >= 1 && M >= 1
    ensures Reaches(crowded, maxPeers, source, M) && Reaches(drained, maxPeers, source, M)
    ensures ListedCount(crowded, source) == maxPeers - 1 && InFlight(crowded, source) == M
    ensures ListedCount(drained, source) == maxPeers - 1 + M && InFlight(drained, source) == 0
  {
    hide Reaches;
    var o := Offer(source, false);
    crowded := Crowd(o, M, maxPeers, M);
    drained := Drain(o, M, maxPeers, M);
    ShapedInFlight(crowded, o, M, maxPeers - 1, maxPeers - 1);
    ShapedInFlight(drained, o, 0, maxPeers - 1 + M, maxPeers - 1 + M);
    hide InFlight;
  }

  /** Whatever the maximum, two overlapping offers can exceed it. */
  lemma {:induction false} OverlappingOffersExceedTheMaximum(maxPeers: nat, source: SourceId, M: nat)
    requires maxPeers >= 1 && M >= 2
    ensures exists run, steps :: IsRun(run, steps, maxPeers) && WithinFlight(run, source, M) && !WithinMaximum(run, source, maxPeers)
  {
    var _, s := BoundIsReached(maxPeers, source, M);
    var run, steps :| RunTo(run, steps, s, maxPeers, source, M);
    RunLength(run, steps, maxPeers);
    hide IsRun, WithinFlight, ListedCount, InFlight;
    assert ListedCount(run[|steps|], source) > maxPeers;
    assert !WithinMaximum(run, source, maxPeers);
  }

  lemma {:induction false} RunLength(run: seq<State>, steps: seq<Step>, maxPeers: nat)
    requires IsRun(run, steps, maxPeers)
    ensures |run| == |steps| + 1
  {}

  /** Every run with at most M offers in flight keeps to the maximum exactly when
      M is at most 1, that is, when offers for the source do not overlap. */
  lemma {:induction false} MaximumHoldsExactly(maxPeers: nat, source: SourceId, M: nat)
    requires maxPeers >= 1
    ensures (forall run, steps :: IsRun(run, steps, maxPeers) && WithinFlight(run, source, M) ==> WithinMaximum(run, source, maxPeers))
            <==> M <= 1
  {
    if M <= 1 {
      forall run, steps | IsRun(run, steps, maxPeers) && WithinFlight(run, source, M)
        ensures WithinMaximum(run, source, maxPeers)
      {
        RunLength(run, steps, maxPeers);
        hide IsRun, InFlight, ListedCount;
        assert WithinFlight(run, source, 1);
        forall i | 0 <= i < |run| ensures ListedCount(run[i], source) <= maxPeers {
          PeerBound(run, steps, maxPeers, source, 1, i);
        }
      }
    } else {
      OverlappingOffersExceedTheMaximum(maxPeers, source, M);
    }
  }
}
