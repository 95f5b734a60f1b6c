/** What registering and removing a connection achieve in the registry of module
    ConnectionRegistry, whatever other tasks do. */
module ConnectionLifecycle {
  import opened ConnectionRegistry

  // ---- removal undoes registration ----

  lemma {:induction false} WithoutJoins(a: seq<ConnectionId>, b: seq<ConnectionId>, id: ConnectionId)
    ensures Without(a + b, id) == Without(a, id) + Without(b, id)
  {
    if a == [] {
      assert a + b == b;
    } else {
      assert (a + b)[0] == a[0] && (a + b)[1..] == a[1..] + b;
      WithoutJoins(a[1..], b, id);
    }
  }

  /** Exactly the entries for the id go; the others keep their order. */
  lemma {:induction false} WithoutKeepsOthers(ids: seq<ConnectionId>, id: ConnectionId)
    ensures id !in ids ==> Without(ids, id) == ids
    ensures Without([id], id) == []
  {
    if ids == [] {
    } else {
      WithoutKeepsOthers(ids[1..], id);
      assert ids == [ids[0]] + ids[1..];
    }
  }

  ghost predicate SameLists(a: State, b: State) {
    forall source :: ListOf(a.lists, source) == ListOf(b.lists, source)
  }

  lemma {:induction false} PushThenRetain(s: State, s': State, source: SourceId, id: ConnectionId)
    requires id !in ListOf(s.lists, source) && s'.lists == Retained(Pushed(s.lists, source, id), source, id)
    ensures SameLists(s, s')
  {
    var ids := ListOf(s.lists, source);
    WithoutJoins(ids, [id], id);
    WithoutKeepsOthers(ids, id);
    assert ids + [] == ids;
    hide Without;
  }

  lemma {:induction false} FreshIsUnlisted(s: State, source: SourceId, id: ConnectionId)
    requires Inv(s) && id !in s.used
    ensures !Listed(s.lists, source, id) && id !in s.connections && id !in s.inserting && id !in s.handed && id !in s.whep
    ensures id !in s.closing && id !in s.announcing && (source, id) !in s.retaining
  {
    assert Placed(s, id);
    hide ListsDistinct, LiveAreListed, WhepPlaced, ResourcesInjective, HasResource, InTransit;
  }

  /** Insert and push: the connection is live and last on its source's list. */
  function Registered(s: State, t: TaskId, id: ConnectionId): State
    requires Enabled(s, Insert(t, id))
  {
    var o := s.negotiating[t];
    s.(connections := s.connections[id := o.source], lists := Pushed(s.lists, o.source, id), negotiating := s.negotiating - {t},
       used := s.used + {id}, whep := if o.viaWhep then s.whep + {id} else s.whep,
       announcing := if o.viaWhep then s.announcing + multiset{id} else s.announcing,
       handed := if o.viaWhep then s.handed else s.handed + {id})
  }

  lemma {:induction false} Registers(s: State, t: TaskId, id: ConnectionId, maxPeers: nat)
    requires Inv(s) && Enabled(s, Insert(t, id))
    ensures var s1 := Apply(s, Insert(t, id), maxPeers);
            Enabled(s1, Push(id)) && Apply(s1, Push(id), maxPeers) == Registered(s, t, id)
  {
    FreshIsUnlisted(s, s.negotiating[t].source, id);
    hide Inv, Pushed;
    assert s.inserting[id := s.negotiating[t]] - {id} == s.inserting;
  }

  /** Taken out of the map and then off the list. */
  function Unregistered(s: State, source: SourceId, id: ConnectionId): State {
    s.(connections := s.connections - {id}, lists := Retained(s.lists, source, id))
  }

  lemma {:induction false} TakenAndRetained(s: State, source: SourceId, id: ConnectionId, maxPeers: nat)
    requires Live(s.connections, source, id)
    ensures Enabled(Take(s, id), Retain(source, id))
    ensures Apply(Take(s, id), Retain(source, id), maxPeers) == Unregistered(s, source, id)
  {
    hide Retained;
    assert s.retaining + multiset{(source, id)} - multiset{(source, id)} == s.retaining;
  }

  lemma {:induction false} RegisteredIsUndone(s: State, t: TaskId, id: ConnectionId)
    requires Inv(s) && Enabled(s, Insert(t, id))
    ensures var source, s2 := s.negotiating[t].source, Registered(s, t, id);
            && Live(s2.connections, source, id) && ListOf(s2.lists, source) == ListOf(s.lists, source) + [id]
            && Unregistered(s2, source, id).connections == s.connections && SameLists(s, Unregistered(s2, source, id))
  {
    var source, s2 := s.negotiating[t].source, Registered(s, t, id);
    FreshIsUnlisted(s, source, id);
    hide Inv;
    PushThenRetain(s, Unregistered(s2, source, id), source, id);
    hide Retained, SameLists;
    assert s.connections[id := source] - {id} == s.connections;
  }

  /** An admitted offer that goes all the way: registered, listed, removed, taken
      off the list. Nothing remains but that the id is used up. */
  lemma {:induction false} DirectLifecycle(s: State, t: TaskId, id: ConnectionId, maxPeers: nat)
    returns (s2: State, s4: State)
    requires Inv(s) && Enabled(s, Insert(t, id)) && !s.negotiating[t].viaWhep
    ensures var source := s.negotiating[t].source;
            && Enabled(Apply(s, Insert(t, id), maxPeers), Push(id))
            && s2 == Apply(Apply(s, Insert(t, id), maxPeers), Push(id), maxPeers) && Enabled(s2, Remove(id))
            && Enabled(Apply(s2, Remove(id), maxPeers), Retain(source, id))
            && s4 == Apply(Apply(s2, Remove(id), maxPeers), Retain(source, id), maxPeers)
            && Live(s2.connections, source, id) && ListOf(s2.lists, source) == ListOf(s.lists, source) + [id]
            && s4 == s.(negotiating := s.negotiating - {t}, used := s.used + {id}, handed := s.handed + {id}, lists := s4.lists)
            && SameLists(s, s4)
  {
    var source := s.negotiating[t].source;
    s2 := Registered(s, t, id);
    s4 := Unregistered(s2, source, id);
    RegisteredIsUndone(s, t, id);
    Registers(s, t, id, maxPeers);
    TakenAndRetained(s2, source, id, maxPeers);
    hide Inv, SameLists, Take, Retained, Pushed;
  }

  /** Announcing a resource and deleting it again leaves the connection to be closed. */
  lemma {:induction false} AnnouncedAndDeleted(s: State, id: ConnectionId, r: ResourceId, maxPeers: nat)
    requires r !in s.resources
    ensures var s2 := s.(announcing := s.announcing + multiset{id}); var s3 := Apply(s2, Announce(r, id), maxPeers);
            var s4 := Apply(s3, Delete(r), maxPeers);
            && s3 == s.(resources := s.resources[r := id])
            && s4 == s.(closing := s.closing + multiset{id}) && Enabled(s4, Close(id))
            && Apply(s4, Close(id), maxPeers) == Take(s, id)
  {
    assert s.announcing + multiset{id} - multiset{id} == s.announcing;
    assert s.closing + multiset{id} - multiset{id} == s.closing;
    assert s.resources[r := id] - {r} == s.resources;
  }

  /** The same for a WHEP subscriber, whose resource is announced and deleted. */
  lemma {:induction false} WhepLifecycle(s: State, t: TaskId, id: ConnectionId, r: ResourceId, maxPeers: nat)
    returns (s2: State, s3: State, s6: State)
    requires Inv(s) && Enabled(s, Insert(t, id)) && s.negotiating[t].viaWhep && r !in s.resources
    ensures var source, s1 := s.negotiating[t].source, Apply(s, Insert(t, id), maxPeers);
            && Enabled(s1, Push(id)) && s2 == Apply(s1, Push(id), maxPeers) && Enabled(s2, Announce(r, id))
            && s3 == Apply(s2, Announce(r, id), maxPeers)
            && Live(s3.connections, source, id) && ListOf(s3.lists, source) == ListOf(s.lists, source) + [id]
            && s3.resources == s.resources[r := id]
    ensures var s4 := Apply(s3, Delete(r), maxPeers);
            && Enabled(s4, Close(id)) && Enabled(Apply(s4, Close(id), maxPeers), Retain(s.negotiating[t].source, id))
            && s6 == Apply(Apply(s4, Close(id), maxPeers), Retain(s.negotiating[t].source, id), maxPeers)
            && s6 == s.(negotiating := s.negotiating - {t}, used := s.used + {id}, whep := s.whep + {id}, lists := s6.lists)
            && SameLists(s, s6)
  {
    var source := s.negotiating[t].source;
    s2 := Registered(s, t, id);
    RegisteredIsUndone(s, t, id);
    Registers(s, t, id, maxPeers);
    var b := s2.(announcing := s.announcing);
    assert s2 == b.(announcing := b.announcing + multiset{id});
    AnnouncedAndDeleted(b, id, r, maxPeers);
    TakenAndRetained(b, source, id, maxPeers);
    hide Inv, SameLists, Take, Retained, Pushed, Apply, Live, Registered;
    assert Enabled(s2, Announce(r, id));
    s3 := Apply(s2, Announce(r, id), maxPeers);
    s6 := Unregistered(b, source, id);
  }

  /** An offer is admitted exactly below the maximum; giving it up leaves no trace. */
  lemma {:induction false} GivingUpLeavesNoTrace(s: State, t: TaskId, offer: Offer, maxPeers: nat)
    requires Enabled(s, Check(t, offer))
    ensures var s' := Apply(s, Check(t, offer), maxPeers);
            if |ListOf(s.lists, offer.source)| < maxPeers
            then s' == s.(negotiating := s.negotiating[t := offer]) && Enabled(s', GiveUp(t)) && Apply(s', GiveUp(t), maxPeers) == s
            else s' == s
  {
    assert s.negotiating[t := offer] - {t} == s.negotiating;
  }

  // ---- what is removed stays removed ----

  /** The id is used up, and if its connection is still there, it is about to be closed. */
  ghost predicate Doomed(s: State, id: ConnectionId) {
    id in s.used && id !in s.inserting && (id in s.connections ==> id in s.closing)
  }

  lemma {:induction false} StepKeepsDoomed(s: State, step: Step, maxPeers: nat, id: ConnectionId)
    requires Enabled(s, step) && Doomed(s, id)
    ensures Doomed(Apply(s, step, maxPeers), id)
    ensures id !in s.connections ==> id !in Apply(s, step, maxPeers).connections
  {
    hide Retained, Pushed;
  }

  lemma {:induction false} StaysDoomed(run: seq<State>, steps: seq<Step>, maxPeers: nat, n: nat, m: nat, id: ConnectionId)
    requires IsRun(run, steps, maxPeers) && n <= m <= |steps| && Doomed(run[n], id)
    ensures Doomed(run[m], id)
    ensures id !in run[n].connections ==> id !in run[m].connections
    decreases m
  {
    if n == m {
    } else {
      StaysDoomed(run, steps, maxPeers, n, m - 1, id);
      assert Takes(run, steps, maxPeers, m - 1);
      hide Apply, Enabled, Doomed, IsRun;
      StepKeepsDoomed(run[m - 1], steps[m - 1], maxPeers, id);
    }
  }

  lemma {:induction false} RemovalDooms(s: State, step: Step, maxPeers: nat, id: ConnectionId)
    requires Inv(s) && Enabled(s, step)
    requires step == Remove(id) || step == Close(id) || (step.Delete? && step.resource in s.resources && s.resources[step.resource] == id)
    ensures Doomed(Apply(s, step, maxPeers), id)
    ensures !step.Delete? ==> id !in Apply(s, step, maxPeers).connections
  {
    assert Placed(s, id);
    assert step.Delete? ==> HasResource(s.resources, id);
    hide ListsDistinct, LiveAreListed, ListedAreLive, WhepPlaced, ResourcesInjective, HasResource;
  }

  /** A connection once removed or closed is never live again, and neither is one
      whose WHEP resource was deleted, once no task is in flight; then it is on no
      list and at no resource either. */
  lemma {:induction false} RemovedForGood(run: seq<State>, steps: seq<Step>, maxPeers: nat, n: nat, m: nat, id: ConnectionId)
    requires IsRun(run, steps, maxPeers) && n < m <= |steps|
    requires || steps[n] == Remove(id) || steps[n] == Close(id)
             || (steps[n].Delete? && steps[n].resource in run[n].resources && run[n].resources[steps[n].resource] == id)
    ensures !steps[n].Delete? ==> id !in run[m].connections
    ensures Quiet(run[m]) ==>
              id !in run[m].connections && !HasResource(run[m].resources, id) && forall source :: !Listed(run[m].lists, source, id)
  {
    InvAlongRun(run, steps, maxPeers, n);
    assert Takes(run, steps, maxPeers, n);
    RemovalDooms(run[n], steps[n], maxPeers, id);
    hide Apply, Enabled, Inv;
    StaysDoomed(run, steps, maxPeers, n + 1, m, id);
    if Quiet(run[m]) {
      QuietRegistryIsExact(run, steps, maxPeers, m);
      hide IsRun, HasResource, Listed, ListsDistinct, ResourcesInjective;
      forall source ensures !Listed(run[m].lists, source, id) {
        assert !Live(run[m].connections, source, id);
      }
    }
  }

  // ---- and what is taken off a list stays off it ----

  ghost predicate OffList(s: State, source: SourceId, id: ConnectionId) {
    id in s.used && id !in s.inserting && !Listed(s.lists, source, id)
  }

  lemma {:induction false} StepKeepsOffList(s: State, step: Step, maxPeers: nat, source: SourceId, id: ConnectionId)
    requires Enabled(s, step) && OffList(s, source, id)
    ensures OffList(Apply(s, step, maxPeers), source, id)
  {
    match step {
      case Push(x) => PushedLists(s.lists, s.inserting[x].source, x);
      case Retain(src, x) => RetainedLists(s.lists, src, x);
      case _ =>
    }
    hide Listed, Retained, Pushed, ListsDistinct;
  }

  lemma {:induction false} RetainTakesOff(s: State, source: SourceId, id: ConnectionId, maxPeers: nat)
    requires Inv(s) && Enabled(s, Retain(source, id))
    ensures OffList(Apply(s, Retain(source, id), maxPeers), source, id)
  {
    RetainedLists(s.lists, source, id);
    assert id in s.inserting ==> Live(s.connections, s.inserting[id].source, id);
    hide Listed, Retained, ListsDistinct, LiveAreListed, ListedAreLive, WhepPlaced, ResourcesInjective;
  }

  lemma {:induction false} RetainedForGood(
    run: seq<State>, steps: seq<Step>, maxPeers: nat, n: nat, m: nat, source: SourceId, id: ConnectionId)
    requires IsRun(run, steps, maxPeers) && n < m <= |steps| && steps[n] == Retain(source, id)
    ensures OffList(run[m], source, id)
    decreases m
  {
    hide Apply, Enabled, Inv, OffList;
    assert Takes(run, steps, maxPeers, m - 1);
    if m == n + 1 {
      InvAlongRun(run, steps, maxPeers, n);
      RetainTakesOff(run[n], source, id, maxPeers);
    } else {
      RetainedForGood(run, steps, maxPeers, n, m - 1, source, id);
      StepKeepsOffList(run[m - 1], steps[m - 1], maxPeers, source, id);
    }
  }
}
