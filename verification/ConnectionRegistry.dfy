/** The connection registry of `server/src/webrtc/transport.rs` as interleaved
    steps: each region under one lock is one atomic step of some task. Tasks
    are anonymous: the state keeps what the tasks between two of their locked
    regions still have to do. */
module ConnectionRegistry {
  type SourceId = string
  type ConnectionId = string
  type ResourceId = string
  type TaskId = nat

  datatype Offer = Offer(source: SourceId, viaWhep: bool)

  datatype State = State(
    connections: map<ConnectionId, SourceId>,
    lists: map<SourceId, seq<ConnectionId>>,
    resources: map<ResourceId, ConnectionId>,
    negotiating: map<TaskId, Offer>,                    // admitted, not yet in `connections`
    inserting: map<ConnectionId, Offer>,                // in `connections`, not yet listed
    announcing: multiset<ConnectionId>,                 // WHEP: listed, resource not yet stored
    closing: multiset<ConnectionId>,                    // WHEP: resource gone, connection not yet
    retaining: multiset<(SourceId, ConnectionId)>,      // out of `connections`, not yet off the list
    used: set<ConnectionId>,                            // ids ever drawn
    handed: set<ConnectionId>,                          // returned by `handle_offer`: any task may remove them
    whep: set<ConnectionId>)                            // drawn by `create_subscriber`

  datatype Step =
    | Check(t: TaskId, offer: Offer)
    | GiveUp(t: TaskId)
    | Insert(t: TaskId, id: ConnectionId)
    | Push(id: ConnectionId)
    | Announce(resource: ResourceId, id: ConnectionId)
    | Remove(id: ConnectionId)
    | Retain(source: SourceId, id: ConnectionId)
    | Delete(resource: ResourceId)
    | Close(id: ConnectionId)

  const START := State(map[], map[], map[], map[], map[], multiset{}, multiset{}, multiset{}, {}, {}, {})

  function ListOf(lists: map<SourceId, seq<ConnectionId>>, source: SourceId): seq<ConnectionId> {
    if source in lists then lists[source] else []
  }

  /** `conns.retain(|x| x != id)` */
  function Without(ids: seq<ConnectionId>, id: ConnectionId): seq<ConnectionId> {
    if ids == [] then []
    else if ids[0] == id then Without(ids[1..], id)
    else [ids[0]] + Without(ids[1..], id)
  }

  /** `source_connections.entry(source).or_default().push(id)` */
  function Pushed(lists: map<SourceId, seq<ConnectionId>>, source: SourceId, id: ConnectionId)
    : map<SourceId, seq<ConnectionId>>
  {
    lists[source := ListOf(lists, source) + [id]]
  }

  /** `if let Some(conns) = get_mut(source) { conns.retain(|x| x != id) }` */
  function Retained(lists: map<SourceId, seq<ConnectionId>>, source: SourceId, id: ConnectionId)
    : map<SourceId, seq<ConnectionId>>
  {
    if source in lists then lists[source := Without(lists[source], id)] else lists
  }

  predicate Enabled(s: State, step: Step) {
    match step
    case Check(t, _) => t !in s.negotiating
    case GiveUp(t) => t in s.negotiating
    case Insert(t, id) => t in s.negotiating && id !in s.used
    case Push(id) => id in s.inserting
    case Announce(resource, id) => id in s.announcing && resource !in s.resources
    case Remove(id) => id in s.handed
    case Retain(source, id) => (source, id) in s.retaining
    case Delete(resource) => true
    case Close(id) => id in s.closing
  }

  /** The first locked region of `remove_connection`. */
  function Take(s: State, id: ConnectionId): State {
    if id in s.connections then
      s.(connections := s.connections - {id}, retaining := s.retaining + multiset{(s.connections[id], id)})
    else s
  }

  function Apply(s: State, step: Step, maxPeers: nat): State
    requires Enabled(s, step)
  {
    match step
    case Check(t, offer) =>
      if |ListOf(s.lists, offer.source)| >= maxPeers then s
      else s.(negotiating := s.negotiating[t := offer])
    case GiveUp(t) => s.(negotiating := s.negotiating - {t})
    case Insert(t, id) =>
      var offer := s.negotiating[t];
      s.(connections := s.connections[id := offer.source],
         negotiating := s.negotiating - {t}, inserting := s.inserting[id := offer],
         used := s.used + {id}, whep := if offer.viaWhep then s.whep + {id} else s.whep)
    case Push(id) =>
      var offer := s.inserting[id];
      s.(lists := Pushed(s.lists, offer.source, id), inserting := s.inserting - {id},
         announcing := if offer.viaWhep then s.announcing + multiset{id} else s.announcing,
         handed := if offer.viaWhep then s.handed else s.handed + {id})
    case Announce(resource, id) =>
      s.(resources := s.resources[resource := id], announcing := s.announcing - multiset{id})
    case Remove(id) => Take(s, id)
    case Retain(source, id) =>
      s.(lists := Retained(s.lists, source, id), retaining := s.retaining - multiset{(source, id)})
    case Delete(resource) =>
      if resource in s.resources then
        s.(resources := s.resources - {resource}, closing := s.closing + multiset{s.resources[resource]})
      else s
    case Close(id) => Take(s, id).(closing := s.closing - multiset{id})
  }

  // ---- the invariant ----

  predicate Listed(lists: map<SourceId, seq<ConnectionId>>, source: SourceId, id: ConnectionId) {
    id in ListOf(lists, source)
  }

  predicate Distinct(ids: seq<ConnectionId>) {
    forall i, j :: 0 <= i < j < |ids| ==> ids[i] != ids[j]
  }

  predicate HasResource(resources: map<ResourceId, ConnectionId>, id: ConnectionId) {
    exists r :: r in resources && resources[r] == id
  }

  type Connections = map<ConnectionId, SourceId>
  type Lists = map<SourceId, seq<ConnectionId>>

  predicate Live(connections: Connections, source: SourceId, id: ConnectionId) {
    id in connections && connections[id] == source
  }

  /** Lists hold no duplicates. */
  ghost predicate ListsDistinct(lists: Lists) {
    forall source :: Distinct(ListOf(lists, source))
  }

  /** Every connection is listed unless its registration is between insert and push. */
  ghost predicate LiveAreListed(connections: Connections, lists: Lists, inserting: map<ConnectionId, Offer>) {
    forall source, id :: Live(connections, source, id) && id !in inserting ==> Listed(lists, source, id)
  }

  /** Every listed id is live unless its removal is between remove and retain. */
  ghost predicate ListedAreLive(
    connections: Connections, lists: Lists, inserting: map<ConnectionId, Offer>,
    retaining: multiset<(SourceId, ConnectionId)>, used: set<ConnectionId>)
  {
    forall source, id :: Listed(lists, source, id) ==>
      (Live(connections, source, id) || (source, id) in retaining) && id in used && id !in inserting
  }

  ghost predicate InFlightGood(
    connections: Connections, inserting: map<ConnectionId, Offer>,
    retaining: multiset<(SourceId, ConnectionId)>, used: set<ConnectionId>)
  {
    && connections.Keys <= used
    && (forall id :: id in inserting ==> Live(connections, inserting[id].source, id))
    && (forall source, id :: (source, id) in retaining ==> id !in connections && id in used)
  }

  /** The two maps agree except for what tasks have in flight. */
  ghost predicate MapsAgree(s: State) {
    && ListsDistinct(s.lists)
    && LiveAreListed(s.connections, s.lists, s.inserting)
    && ListedAreLive(s.connections, s.lists, s.inserting, s.retaining, s.used)
    && InFlightGood(s.connections, s.inserting, s.retaining, s.used)
  }

  /** How often a WHEP connection is on its way in or out. */
  function InTransit(s: State, id: ConnectionId): nat {
    (if id in s.inserting then 1 else 0) + s.announcing[id] + s.closing[id]
  }

  /** A live WHEP connection is in transit exactly once or at a resource, never
      both; nothing else is in transit or at a resource. */
  ghost predicate Placed(s: State, id: ConnectionId) {
    && (id in s.connections && id in s.whep ==>
          InTransit(s, id) <= 1 && (InTransit(s, id) == 1 <==> !HasResource(s.resources, id)))
    && (id in s.announcing || id in s.closing || HasResource(s.resources, id) ==>
          id in s.connections && id in s.whep)
    && (id in s.inserting ==> (s.inserting[id].viaWhep <==> id in s.whep))
  }

  ghost predicate WhepPlaced(s: State) {
    forall id :: Placed(s, id)
  }

  ghost predicate ResourcesInjective(resources: map<ResourceId, ConnectionId>) {
    forall r, r' :: r in resources && r' in resources && resources[r] == resources[r'] ==> r == r'
  }

  ghost predicate IdsKept(s: State) {
    && s.handed <= s.used && s.whep <= s.used && s.handed !! s.whep
    && (forall id :: id in s.inserting ==> id !in s.handed)
  }

  ghost predicate Inv(s: State) {
    MapsAgree(s) && WhepPlaced(s) && ResourcesInjective(s.resources) && IdsKept(s)
  }

  // ---- every step keeps the invariant ----

  lemma {:induction false} WithoutDrops(ids: seq<ConnectionId>, id: ConnectionId)
    ensures forall x :: x in Without(ids, id) <==> x in ids && x != id
    ensures Distinct(ids) ==> Distinct(Without(ids, id))
    ensures |Without(ids, id)| <= |ids|
  {
    if ids == [] {
    } else {
      WithoutDrops(ids[1..], id);
      assert ids == [ids[0]] + ids[1..];
      assert Distinct(ids) ==> ids[0] !in ids[1..];
    }
  }

  lemma {:induction false} PushedLists(lists: Lists, source: SourceId, id: ConnectionId)
    ensures forall src, x :: Listed(Pushed(lists, source, id), src, x) <==> Listed(lists, src, x) || (src == source && x == id)
    ensures ListsDistinct(lists) && !Listed(lists, source, id) ==> ListsDistinct(Pushed(lists, source, id))
  {
    if ListsDistinct(lists) && !Listed(lists, source, id) {
      forall src ensures Distinct(ListOf(Pushed(lists, source, id), src)) {
        assert Distinct(ListOf(lists, src));
      }
    }
  }

  lemma {:induction false} RetainedLists(lists: Lists, source: SourceId, id: ConnectionId)
    ensures forall src, x :: Listed(Retained(lists, source, id), src, x)
                             <==> Listed(lists, src, x) && !(src == source && x == id)
    ensures ListsDistinct(lists) ==> ListsDistinct(Retained(lists, source, id))
  {
    if source in lists {
      WithoutDrops(lists[source], id);
    }
    if ListsDistinct(lists) {
      forall src ensures Distinct(ListOf(Retained(lists, source, id), src)) {
        assert Distinct(ListOf(lists, src));
      }
    }
  }

  lemma {:induction false} InsertMaps(s: State, t: TaskId, id: ConnectionId, max: nat)
    requires MapsAgree(s) && Enabled(s, Insert(t, id))
    ensures MapsAgree(Apply(s, Insert(t, id), max))
  {
    hide Listed;
  }

  lemma {:induction false} PushMaps(s: State, id: ConnectionId, max: nat)
    requires MapsAgree(s) && Enabled(s, Push(id))
    ensures MapsAgree(Apply(s, Push(id), max))
  {
    PushedLists(s.lists, s.inserting[id].source, id);
    hide Listed, Pushed, ListsDistinct;
  }

  lemma {:induction false} TakeMaps(s: State, id: ConnectionId)
    requires MapsAgree(s) && id !in s.inserting
    ensures MapsAgree(Take(s, id))
  {
    hide Listed, ListsDistinct;
  }

  lemma {:induction false} RetainMaps(s: State, source: SourceId, id: ConnectionId, max: nat)
    requires MapsAgree(s) && Enabled(s, Retain(source, id))
    ensures MapsAgree(Apply(s, Retain(source, id), max))
  {
    RetainedLists(s.lists, source, id);
    hide Listed, Retained, ListsDistinct;
  }

  lemma {:induction false} NewIdIsNowhere(s: State, id: ConnectionId)
    requires Inv(s) && id !in s.used
    ensures id !in s.connections && id !in s.inserting && id !in s.handed && id !in s.whep
    ensures s.announcing[id] == 0 && s.closing[id] == 0 && !HasResource(s.resources, id)
  {
    hide ListsDistinct, LiveAreListed, ListedAreLive, ResourcesInjective, HasResource;
    assert Placed(s, id);
  }

  lemma {:induction false} InsertWhep(s: State, t: TaskId, id: ConnectionId, max: nat)
    requires Inv(s) && Enabled(s, Insert(t, id))
    ensures WhepPlaced(Apply(s, Insert(t, id), max))
  {
    var s' := Apply(s, Insert(t, id), max);
    NewIdIsNowhere(s, id);
    hide MapsAgree, ResourcesInjective, IdsKept, HasResource;
    forall x ensures Placed(s', x) {
      assert Placed(s, x);
    }
  }

  lemma {:induction false} PushWhep(s: State, id: ConnectionId, max: nat)
    requires Inv(s) && Enabled(s, Push(id))
    ensures WhepPlaced(Apply(s, Push(id), max))
  {
    var s' := Apply(s, Push(id), max);
    hide MapsAgree, ResourcesInjective, IdsKept, HasResource;
    forall x ensures Placed(s', x) {
      assert Placed(s, x);
    }
  }

  /** A connection that `handle_offer` returned is no WHEP connection. */
  lemma {:induction false} HandedIsNotWhep(s: State, id: ConnectionId)
    requires Inv(s) && id in s.handed
    ensures id !in s.whep && id !in s.inserting
  {
    hide MapsAgree, ResourcesInjective, WhepPlaced;
  }

  lemma {:induction false} RemoveWhep(s: State, id: ConnectionId)
    requires Inv(s) && id in s.handed
    ensures WhepPlaced(Take(s, id))
  {
    var s' := Take(s, id);
    HandedIsNotWhep(s, id);
    hide MapsAgree, ResourcesInjective, IdsKept, HasResource;
    forall x ensures Placed(s', x) {
      assert Placed(s, x);
    }
  }

  lemma {:induction false} CloseWhep(s: State, id: ConnectionId)
    requires Inv(s) && id in s.closing
    ensures WhepPlaced(Take(s, id).(closing := s.closing - multiset{id}))
  {
    var s' := Take(s, id).(closing := s.closing - multiset{id});
    assert Placed(s, id) && id !in s.inserting && s.closing[id] == 1;
    hide MapsAgree, ResourcesInjective, IdsKept, HasResource;
    forall x ensures Placed(s', x) {
      assert Placed(s, x);
    }
  }

  lemma {:induction false} ClosingIsListed(s: State, id: ConnectionId)
    requires Inv(s) && id in s.closing
    ensures id !in s.inserting
  {
    hide MapsAgree, ResourcesInjective, IdsKept, HasResource;
    assert Placed(s, id);
  }

  lemma {:induction false} AnnounceWhep(s: State, r: ResourceId, id: ConnectionId)
    requires WhepPlaced(s) && ResourcesInjective(s.resources) && id in s.announcing && r !in s.resources
    ensures var s' := s.(resources := s.resources[r := id], announcing := s.announcing - multiset{id});
            WhepPlaced(s') && ResourcesInjective(s'.resources)
  {
    var resources := s.resources[r := id];
    assert ResourcesInjective(resources) by {
      assert Placed(s, id) && !HasResource(s.resources, id);
    }
    forall x ensures HasResource(resources, x) <==> HasResource(s.resources, x) || x == id {
      if HasResource(s.resources, x) {
        var q :| q in s.resources && s.resources[q] == x;
        assert q in resources && resources[q] == x;
      }
      assert r in resources && resources[r] == id;
    }
    hide HasResource, ResourcesInjective;
    var s' := s.(resources := resources, announcing := s.announcing - multiset{id});
    forall x ensures Placed(s', x) {
      assert Placed(s, x);
    }
  }

  lemma {:induction false} DeleteWhep(s: State, r: ResourceId)
    requires WhepPlaced(s) && ResourcesInjective(s.resources) && r in s.resources
    ensures var s' := s.(resources := s.resources - {r}, closing := s.closing + multiset{s.resources[r]});
            WhepPlaced(s') && ResourcesInjective(s'.resources)
  {
    var id, resources := s.resources[r], s.resources - {r};
    assert ResourcesInjective(resources);
    forall x ensures HasResource(resources, x) <==> HasResource(s.resources, x) && x != id {
      if HasResource(s.resources, x) && x != id {
        var q :| q in s.resources && s.resources[q] == x;
        assert q in resources && resources[q] == x;
      }
    }
    assert HasResource(s.resources, id);
    hide HasResource, ResourcesInjective;
    var s' := s.(resources := resources, closing := s.closing + multiset{id});
    forall x ensures Placed(s', x) {
      assert Placed(s, x);
    }
  }

  lemma {:induction false} OffersAreFree(s: State, negotiating: map<TaskId, Offer>)
    requires Inv(s)
    ensures Inv(s.(negotiating := negotiating))
  {
    var s' := s.(negotiating := negotiating);
    hide ListsDistinct, LiveAreListed, ListedAreLive, InFlightGood, HasResource;
    forall x ensures Placed(s', x) {
      assert Placed(s, x);
    }
  }

  lemma {:induction false} InsertKeeps(s: State, t: TaskId, id: ConnectionId, maxPeers: nat)
    requires Inv(s) && Enabled(s, Insert(t, id))
    ensures Inv(Apply(s, Insert(t, id), maxPeers))
  {
    InsertMaps(s, t, id, maxPeers);
    InsertWhep(s, t, id, maxPeers);
    NewIdIsNowhere(s, id);
    hide MapsAgree, WhepPlaced, ResourcesInjective;
  }

  lemma {:induction false} PushKeeps(s: State, id: ConnectionId, maxPeers: nat)
    requires Inv(s) && Enabled(s, Push(id))
    ensures Inv(Apply(s, Push(id), maxPeers))
  {
    PushMaps(s, id, maxPeers);
    PushWhep(s, id, maxPeers);
    assert InFlightGood(s.connections, s.inserting, s.retaining, s.used) && Placed(s, id);
    assert id in s.used && (s.inserting[id].viaWhep <==> id in s.whep);
    hide MapsAgree, WhepPlaced, ResourcesInjective, Pushed;
  }

  lemma {:induction false} AnnounceKeeps(s: State, r: ResourceId, id: ConnectionId, maxPeers: nat)
    requires Inv(s) && Enabled(s, Announce(r, id))
    ensures Inv(Apply(s, Announce(r, id), maxPeers))
  {
    AnnounceWhep(s, r, id);
    hide ListsDistinct, LiveAreListed, ListedAreLive, InFlightGood, WhepPlaced, ResourcesInjective;
  }

  lemma {:induction false} RemoveKeeps(s: State, id: ConnectionId, maxPeers: nat)
    requires Inv(s) && Enabled(s, Remove(id))
    ensures Inv(Apply(s, Remove(id), maxPeers))
  {
    HandedIsNotWhep(s, id);
    TakeMaps(s, id);
    RemoveWhep(s, id);
    hide MapsAgree, WhepPlaced, ResourcesInjective;
  }

  lemma {:induction false} RetainKeeps(s: State, source: SourceId, id: ConnectionId, maxPeers: nat)
    requires Inv(s) && Enabled(s, Retain(source, id))
    ensures Inv(Apply(s, Retain(source, id), maxPeers))
  {
    RetainMaps(s, source, id, maxPeers);
    hide MapsAgree, HasResource, ResourcesInjective, Retained;
    var s' := Apply(s, Retain(source, id), maxPeers);
    forall x ensures Placed(s', x) {
      assert Placed(s, x);
    }
  }

  lemma {:induction false} DeleteKeeps(s: State, r: ResourceId, maxPeers: nat)
    requires Inv(s) && Enabled(s, Delete(r))
    ensures Inv(Apply(s, Delete(r), maxPeers))
  {
    if r in s.resources { DeleteWhep(s, r); }
    hide ListsDistinct, LiveAreListed, ListedAreLive, InFlightGood, WhepPlaced, ResourcesInjective;
  }

  lemma {:induction false} CloseKeeps(s: State, id: ConnectionId, maxPeers: nat)
    requires Inv(s) && Enabled(s, Close(id))
    ensures Inv(Apply(s, Close(id), maxPeers))
  {
    CloseWhep(s, id);
    ClosingIsListed(s, id);
    TakeMaps(s, id);
    hide ListsDistinct, LiveAreListed, ListedAreLive, InFlightGood, WhepPlaced, ResourcesInjective;
  }

  lemma {:induction false} StepKeepsInv(s: State, step: Step, maxPeers: nat)
    requires Inv(s) && Enabled(s, step)
    ensures Inv(Apply(s, step, maxPeers))
  {
    hide Inv;
    match step {
      case Check(t, offer) => OffersAreFree(s, s.negotiating[t := offer]);
      case GiveUp(t) => OffersAreFree(s, s.negotiating - {t});
      case Insert(t, id) => InsertKeeps(s, t, id, maxPeers);
      case Push(id) => PushKeeps(s, id, maxPeers);
      case Announce(r, id) => AnnounceKeeps(s, r, id, maxPeers);
      case Remove(id) => RemoveKeeps(s, id, maxPeers);
      case Retain(source, id) => RetainKeeps(s, source, id, maxPeers);
      case Delete(r) => DeleteKeeps(s, r, maxPeers);
      case Close(id) => CloseKeeps(s, id, maxPeers);
    }
  }

  // ---- runs ----

  /** `run` is a sequence of states, each reached from the one before by an enabled step. */
  ghost predicate IsRun(run: seq<State>, steps: seq<Step>, maxPeers: nat) {
    |run| == |steps| + 1 && run[0] == START && forall i :: 0 <= i < |steps| ==> Takes(run, steps, maxPeers, i)
  }

  /** State i + 1 is reached from state i by step i, which is enabled there. */
  ghost predicate Takes(run: seq<State>, steps: seq<Step>, maxPeers: nat, i: int)
    requires |run| == |steps| + 1 && 0 <= i < |steps|
  {
    Enabled(run[i], steps[i]) && run[i + 1] == Apply(run[i], steps[i], maxPeers)
  }

  lemma {:induction false} InvAlongRun(run: seq<State>, steps: seq<Step>, maxPeers: nat, n: nat)
    requires IsRun(run, steps, maxPeers) && n <= |steps|
    ensures Inv(run[n])
  {
    if n == 0 {
      assert forall source :: ListOf(START.lists, source) == [];
    } else {
      InvAlongRun(run, steps, maxPeers, n - 1);
      assert Takes(run, steps, maxPeers, n - 1);
      StepKeepsInv(run[n - 1], steps[n - 1], maxPeers);
      hide Inv, Apply, Enabled;
    }
  }

  /** No task is between two locked regions that register or remove a connection. */
  predicate Quiet(s: State) {
    s.inserting == map[] && s.announcing == multiset{} && s.closing == multiset{} && s.retaining == multiset{}
  }

  /** With no task in flight the two maps agree exactly, without duplicates, and
      the WHEP resources name exactly the live WHEP connections, one each. */
  lemma {:induction false} QuietRegistryIsExact(run: seq<State>, steps: seq<Step>, maxPeers: nat, n: nat)
    requires IsRun(run, steps, maxPeers) && n <= |steps| && Quiet(run[n])
    ensures var s := run[n];
            && (forall source, id :: Live(s.connections, source, id) <==> Listed(s.lists, source, id))
            && ListsDistinct(s.lists)
            && (forall id :: id in s.connections && id in s.whep <==> HasResource(s.resources, id))
            && ResourcesInjective(s.resources)
  {
    InvAlongRun(run, steps, maxPeers, n);
    hide Listed, ListsDistinct, HasResource, ResourcesInjective, IsRun;
    var s := run[n];
    forall id ensures id in s.connections && id in s.whep <==> HasResource(s.resources, id) {
      assert Placed(s, id) && InTransit(s, id) == 0;
    }
  }

  // ---- the locked regions, as the source runs them ----

  /** `PeerConnectionManager`: the two maps and the methods that update them. */
  class PeerRegistry {
    var connections: Connections
    var sourceConnections: Lists
    const maxPeersPerSource: nat

    /** With no other task in between, the two maps agree exactly. */
    ghost predicate Valid()
      reads this
    {
      && ListsDistinct(sourceConnections)
      && forall source, id :: Live(connections, source, id) <==> Listed(sourceConnections, source, id)
    }

    constructor (maxPeers: nat)
      ensures Valid() && connections == map[] && sourceConnections == map[] && maxPeersPerSource == maxPeers
    {
      connections, sourceConnections, maxPeersPerSource := map[], map[], maxPeers;
    }

    method ConnectionCountForSource(source: SourceId) returns (count: nat)
      ensures count == |ListOf(sourceConnections, source)|
    {
      if source in sourceConnections {
        count := |sourceConnections[source]|;
      } else {
        count := 0;
      }
    }

    /** Second region of `handle_offer` and `create_subscriber`. */
    method PushConnection(source: SourceId, id: ConnectionId)
      modifies this`sourceConnections
      ensures sourceConnections == Pushed(old(sourceConnections), source, id)
    {
      if source !in sourceConnections {
        sourceConnections := sourceConnections[source := []];
      }
      sourceConnections := sourceConnections[source := sourceConnections[source] + [id]];
    }

    /** Second region of `remove_connection`. */
    method RetainOthers(source: SourceId, id: ConnectionId)
      modifies this`sourceConnections
      ensures sourceConnections == Retained(old(sourceConnections), source, id)
    {
      if source in sourceConnections {
        var conns := sourceConnections[source];
        var kept: seq<ConnectionId> := [];
        assert conns[0..] == conns;
        for i := 0 to |conns|
          invariant kept + Without(conns[i..], id) == Without(conns, id)
        {
          assert conns[i..] != [] && conns[i..][1..] == conns[i + 1..];
          if conns[i] != id {
            kept := kept + [conns[i]];
          }
        }
        assert conns[|conns|..] == [] && kept == Without(conns, id);
        sourceConnections := sourceConnections[source := kept];
      }
    }

    /** A whole offer with no other task in between; `id` is freshly drawn and
        `negotiated` says whether the peer connection came up. */
    method HandleOffer(source: SourceId, id: ConnectionId, negotiated: bool) returns (ok: bool)
      requires Valid() && id !in connections
      modifies this
      ensures Valid()
      ensures ok <==> |ListOf(old(sourceConnections), source)| < maxPeersPerSource && negotiated
      ensures ok ==> connections == old(connections)[id := source]
                     && sourceConnections == Pushed(old(sourceConnections), source, id)
      ensures !ok ==> connections == old(connections) && sourceConnections == old(sourceConnections)
      ensures |ListOf(old(sourceConnections), source)| <= maxPeersPerSource ==>
                |ListOf(sourceConnections, source)| <= maxPeersPerSource
    {
      var currentCount := ConnectionCountForSource(source);
      if currentCount >= maxPeersPerSource || !negotiated {
        return false;
      }
      assert !Listed(sourceConnections, source, id) by {
        assert !Live(connections, source, id);
      }
      PushedLists(sourceConnections, source, id);
      connections := connections[id := source];
      PushConnection(source, id);
      hide Listed, ListsDistinct;
      return true;
    }

    /** A whole removal with no other task in between. */
    method RemoveConnection(id: ConnectionId)
      requires Valid()
      modifies this
      ensures Valid()
      ensures connections == old(connections) - {id}
      ensures sourceConnections == if id in old(connections)
                                   then Retained(old(sourceConnections), old(connections)[id], id)
                                   else old(sourceConnections)
    {
      if id in connections {
        var source := connections[id];
        RetainedLists(sourceConnections, source, id);
        connections := connections - {id};
        RetainOthers(source, id);
        hide Listed, ListsDistinct;
      }
    }
  }
}
