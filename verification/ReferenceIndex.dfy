/**
 The generation-guarded source index (apps/desktop/src/main/behavior-reference-index.ts) as
 interleaved steps. A request is the chain of promise callbacks that one `load` creates; the
 steps of different requests interleave freely with loads and invalidations.
 */
module ReferenceIndex {
  import opened Wrappers
  import opened Sorting
  import opened Text

  datatype ReferenceKind = Entity | Asset | Catalog | Behavior

  function KindName(kind: ReferenceKind): string
  {
    match kind
    case Entity => "entity"
    case Asset => "asset"
    case Catalog => "catalog"
    case Behavior => "behavior"
  }

  type Key = string

  function KeyFor(project: string, kind: ReferenceKind): Key
  {
    project + ":" + KindName(kind)
  }

  /** The arguments of `invalidate`. */
  datatype Scope = Everything | Project(project: string) | One(project: string, kind: ReferenceKind)

  predicate Matches(scope: Scope, key: Key)
  {
    match scope
    case Everything => true
    case Project(project) => project + ":" <= key
    case One(project, kind) => project + ":" <= key && key == KeyFor(project, kind)
  }

  datatype Entry = Entry(id: string, name: string)

  /** The label order, then the id order, of the host's collation. */
  type Collation = (Entry, Entry) -> bool

  datatype Phase =
    | Loading
    | Ordered(options: seq<Entry>)
    | Finishing(result: Option<seq<Entry>>)
    | Done(result: Option<seq<Entry>>)

  datatype Request = Request(key: Key, generation: nat, phase: Phase)

  datatype State = State(
    settled: map<Key, seq<Entry>>, inFlight: map<Key, nat>, generations: map<Key, nat>, requests: seq<Request>)

  datatype Answer = Settled(options: seq<Entry>) | Joined(request: nat) | Started(request: nat) | Threw

  datatype Event =
    | Load(key: Key, throws: bool)
    | Resolves(request: nat, options: seq<Entry>)
    | Settles(request: nat)
    | Fails(request: nat)
    | Finalizes(request: nat)
    | Invalidates(scope: Scope)

  function GenerationOf(s: State, key: Key): nat
  {
    if key in s.generations then s.generations[key] else 0
  }

  function LoadAnswer(s: State, key: Key, throws: bool): Answer
  {
    if key in s.settled then Settled(s.settled[key])
    else if key in s.inFlight then Joined(s.inFlight[key])
    else if throws then Threw
    else Started(|s.requests|)
  }

  predicate InPhase(s: State, id: nat, loading: bool, ordered: bool, finishing: bool)
  {
    id < |s.requests| &&
    var phase := s.requests[id].phase;
    (loading && phase.Loading?) || (ordered && phase.Ordered?) || (finishing && phase.Finishing?)
  }

  /** A callback runs only after the one before it in its chain. */
  predicate Enabled(s: State, e: Event)
  {
    match e
    case Load(_, _) => true
    case Resolves(id, _) => InPhase(s, id, true, false, false)
    case Settles(id) => InPhase(s, id, false, true, false)
    case Fails(id) => InPhase(s, id, true, false, false)
    case Finalizes(id) => InPhase(s, id, false, false, true)
    case Invalidates(_) => true
  }

  function Move(s: State, id: nat, phase: Phase): State
    requires id < |s.requests|
  {
    s.(requests := s.requests[id := s.requests[id].(phase := phase)])
  }

  function Begin(s: State, key: Key): State
  {
    s.(requests := s.requests + [Request(key, GenerationOf(s, key), Loading)],
       inFlight := s.inFlight[key := |s.requests|])
  }

  function Settle(s: State, id: nat): State
    requires Enabled(s, Settles(id))
  {
    var r := s.requests[id];
    var moved := Move(s, id, Finishing(Some(r.phase.options)));
    if GenerationOf(s, r.key) == r.generation then moved.(settled := s.settled[r.key := r.phase.options]) else moved
  }

  function Finalize(s: State, id: nat): State
    requires Enabled(s, Finalizes(id))
  {
    var r := s.requests[id];
    var moved := Move(s, id, Done(r.phase.result));
    if r.key in s.inFlight && s.inFlight[r.key] == id then moved.(inFlight := s.inFlight - {r.key}) else moved
  }

  /** The keys an invalidation drops: only those with something settled or in flight. */
  function Dropped(s: State, scope: Scope): set<Key>
  {
    set key | key in s.settled.Keys + s.inFlight.Keys && Matches(scope, key)
  }

  function Bumped(s: State, dropped: set<Key>): map<Key, nat>
  {
    map key | key in s.generations.Keys + dropped ::
      if key in dropped then GenerationOf(s, key) + 1 else s.generations[key]
  }

  function Drop(s: State, dropped: set<Key>): State
  {
    State(s.settled - dropped, s.inFlight - dropped, Bumped(s, dropped), s.requests)
  }

  function WithoutKey(s: State, key: Key): State
  {
    State(s.settled - {key}, s.inFlight - {key}, s.generations[key := GenerationOf(s, key) + 1], s.requests)
  }

  function Next(order: Collation, s: State, e: Event): State
    requires Enabled(s, e)
  {
    match e
    case Load(key, throws) => if LoadAnswer(s, key, throws).Started? then Begin(s, key) else s
    case Resolves(id, options) => Move(s, id, Ordered(SortBy(options, order)))
    case Settles(id) => Settle(s, id)
    case Fails(id) => Move(s, id, Finishing(None))
    case Finalizes(id) => Finalize(s, id)
    case Invalidates(scope) => Drop(s, Dropped(s, scope))
  }

  // ----- the class -----

  class BehaviorReferenceIndex {
    const order: Collation
    var settled: map<Key, seq<Entry>>
    var inFlight: map<Key, nat>
    var generations: map<Key, nat>
    /** The promise chains that `load` has created so far. */
    var requests: seq<Request>

    constructor (order: Collation)
      ensures this.order == order && Current() == State(map[], map[], map[], [])
    {
      this.order := order;
      settled, inFlight, generations, requests := map[], map[], map[], [];
    }

    function Current(): State
      reads this
    {
      State(settled, inFlight, generations, requests)
    }

    method LoadOptions(project: string, kind: ReferenceKind, throws: bool) returns (answer: Answer)
      modifies this
      ensures answer == LoadAnswer(old(Current()), KeyFor(project, kind), throws)
      ensures Current() == Next(order, old(Current()), Load(KeyFor(project, kind), throws))
    {
      var key := KeyFor(project, kind);
      if key in settled {
        return Settled(settled[key]);
      }
      if key in inFlight {
        return Joined(inFlight[key]);
      }
      var generation := if key in generations then generations[key] else 0;
      if throws {
        return Threw;
      }
      var request := |requests|;
      requests := requests + [Request(key, generation, Loading)];
      inFlight := inFlight[key := request];
      return Started(request);
    }

    method OnResolved(id: nat, options: seq<Entry>)
      requires Enabled(Current(), Resolves(id, options))
      modifies this`requests
      ensures Current() == Next(order, old(Current()), Resolves(id, options))
    {
      requests := requests[id := requests[id].(phase := Ordered(SortBy(options, order)))];
    }

    method OnOrdered(id: nat)
      requires Enabled(Current(), Settles(id))
      modifies this`requests, this`settled
      ensures Current() == Next(order, old(Current()), Settles(id))
    {
      var request := requests[id];
      var current := if request.key in generations then generations[request.key] else 0;
      if current == request.generation {
        settled := settled[request.key := request.phase.options];
      }
      requests := requests[id := request.(phase := Finishing(Some(request.phase.options)))];
    }

    method OnFailed(id: nat)
      requires Enabled(Current(), Fails(id))
      modifies this`requests
      ensures Current() == Next(order, old(Current()), Fails(id))
    {
      requests := requests[id := requests[id].(phase := Finishing(None))];
    }

    method OnFinally(id: nat)
      requires Enabled(Current(), Finalizes(id))
      modifies this`requests, this`inFlight
      ensures Current() == Next(order, old(Current()), Finalizes(id))
    {
      var request := requests[id];
      if request.key in inFlight && inFlight[request.key] == id {
        inFlight := inFlight - {request.key};
      }
      requests := requests[id := request.(phase := Done(request.phase.result))];
    }

    method Invalidate(scope: Scope)
      modifies this`settled, this`inFlight, this`generations
      ensures Current() == Next(order, old(Current()), Invalidates(scope))
    {
      var matches := (key: Key) => Matches(scope, key);
      ghost var dropped := DropMatching(matches);
      DroppedAll(old(Current()), scope, matches, dropped);
    }

    method DropMatching(matches: Key -> bool) returns (ghost dropped: set<Key>)
      modifies this`settled, this`inFlight, this`generations
      ensures forall k :: k in dropped <==> (k in old(settled) || k in old(inFlight)) && matches(k)
      ensures Current() == Drop(old(Current()), dropped)
    {
      ghost var before := Current();
      var keys := settled.Keys + inFlight.Keys;
      dropped := {};
      DropNone(before);
      while keys != {}
        invariant forall k :: k in dropped || (k in keys && matches(k)) <==>
                    (k in before.settled || k in before.inFlight) && matches(k)
        invariant keys !! dropped
        invariant Current() == Drop(before, dropped)
        decreases |keys|
      {
        var key :| key in keys;
        keys := keys - {key};
        if matches(key) {
          DropKey(key);
          DropOne(before, dropped, key);
          dropped := dropped + {key};
        }
      }
    }

    method DropKey(key: Key)
      modifies this`settled, this`inFlight, this`generations
      ensures Current() == WithoutKey(old(Current()), key)
    {
      settled := settled - {key};
      inFlight := inFlight - {key};
      generations := generations[key := (if key in generations then generations[key] else 0) + 1];
    }
  }

  lemma DroppedAll(s: State, scope: Scope, matches: Key -> bool, dropped: set<Key>)
    requires forall k :: matches(k) == Matches(scope, k)
    requires forall k :: k in dropped <==> (k in s.settled || k in s.inFlight) && matches(k)
    ensures dropped == Dropped(s, scope)
  {
  }

  lemma DropNone(s: State)
    ensures Drop(s, {}) == s
  {
    assert s.settled - {} == s.settled && s.inFlight - {} == s.inFlight;
    assert Bumped(s, {}) == s.generations;
  }

  lemma DropOne(s: State, dropped: set<Key>, key: Key)
    requires key !in dropped
    ensures Drop(s, dropped + {key}) == WithoutKey(Drop(s, dropped), key)
  {
    var t := Drop(s, dropped);
    assert s.settled - (dropped + {key}) == t.settled - {key};
    assert s.inFlight - (dropped + {key}) == t.inFlight - {key};
    assert Bumped(s, dropped + {key}) == t.generations[key := GenerationOf(t, key) + 1];
  }

  // ----- keys -----

  /**
   An invalidation of one project reaches the keys of that project and, because it tests a
   prefix, the keys of every project whose own id continues with a colon.
   */
  lemma ProjectScopeReaches(project: string, other: string, kind: ReferenceKind)
    ensures Matches(Project(project), KeyFor(other, kind)) <==> project == other || project + ":" <= other
  {
    var prefix, key := project + ":", KeyFor(other, kind);
    assert key == other + (":" + KindName(kind));
    assert |prefix| <= |key| ==> key[..|prefix|][|prefix| - 1] == key[|prefix| - 1];
    assert |prefix| <= |other| ==> key[..|prefix|] == other[..|prefix|];
    if |prefix| == |other| + 1 {
      assert key[..|prefix|] == other + ":";
      assert (other + ":")[..|other|] == other && prefix[..|other|] == project;
    }
    if |other| + 1 < |prefix| <= |key| {
      NoColon(kind, |prefix| - 1 - |other| - 1);
    }
  }

  lemma NoColon(kind: ReferenceKind, i: nat)
    requires i < |KindName(kind)|
    ensures KindName(kind)[i] != ':'
  {
    match kind
    case Entity => assert KindName(kind) == "entity";
    case Asset => assert KindName(kind) == "asset";
    case Catalog => assert KindName(kind) == "catalog";
    case Behavior => assert KindName(kind) == "behavior";
  }

  /** A key names its project and kind, whatever the project id is made of. */
  lemma KeysAreDistinct(project: string, j: ReferenceKind, other: string, kind: ReferenceKind)
    ensures KeyFor(project, j) == KeyFor(other, kind) <==> project == other && j == kind
    ensures Matches(One(project, j), KeyFor(other, kind)) <==> project == other && j == kind
  {
    if KeyFor(project, j) == KeyFor(other, kind) {
      forall i | 0 <= i < |KindName(j)| ensures KindName(j)[i] != ':' {
        NoColon(j, i);
      }
      forall i | 0 <= i < |KindName(kind)| ensures KindName(kind)[i] != ':' {
        NoColon(kind, i);
      }
      SplitUnique(project, KindName(j), other, KindName(kind), ':');
      assert KindName(j)[0] == KindName(kind)[0] && |KindName(j)| == |KindName(kind)|;
    }
    var key := KeyFor(project, j);
    assert key[..|project| + 1] == project + ":";
  }

  /** Project ids are `project:` and a uuid: all of one length. */
  predicate ProjectIdLength(id: string)
  {
    |id| == |"project:"| + 36
  }

  /** Between ids of this form a project scope reaches exactly the keys of its own project. */
  lemma ProjectScopeIsExact(project: string, other: string, kind: ReferenceKind)
    requires ProjectIdLength(project) && ProjectIdLength(other)
    ensures Matches(Project(project), KeyFor(other, kind)) <==> project == other
  {
    ProjectScopeReaches(project, other, kind);
    assert project + ":" <= other ==> |project + ":"| <= |other|;
  }

  // ----- every run -----

  /**
   The loaders begun after the last invalidation that matches their key. The definition looks
   at the events alone, not at generations.
   */
  function FreshAfter(s: State, live: set<nat>, e: Event): set<nat>
  {
    match e
    case Load(key, throws) => if LoadAnswer(s, key, throws).Started? then live + {|s.requests|} else live
    case Invalidates(scope) => set id | id in live && !(id < |s.requests| && Matches(scope, s.requests[id].key))
    case _ => live
  }

  datatype History = History(state: State, live: set<nat>)

  const INITIAL := History(State(map[], map[], map[], []), {})

  /** Every step is enabled when it is taken. */
  predicate Feasible(order: Collation, events: seq<Event>)
    decreases |events|, 1
  {
    events == [] ||
    (var last := |events| - 1;
     Feasible(order, events[..last]) && Enabled(Run(order, events[..last]).state, events[last]))
  }

  function Run(order: Collation, events: seq<Event>): History
    requires Feasible(order, events)
    decreases |events|, 2
  {
    if events == [] then INITIAL
    else
      var last := |events| - 1;
      var before := Run(order, events[..last]);
      History(Next(order, before.state, events[last]), FreshAfter(before.state, before.live, events[last]))
  }

  predicate Unfinished(s: State, id: nat)
  {
    id < |s.requests| && !s.requests[id].phase.Done?
  }

  predicate Produced(s: State, id: nat, options: seq<Entry>)
  {
    id < |s.requests| &&
    var phase := s.requests[id].phase;
    (phase.Finishing? || phase.Done?) && phase.result == Some(options)
  }

  ghost predicate Sound(h: History)
  {
    Loaders(h.state, h.live) && Results(h.state, h.live)
  }

  ghost predicate Loaders(s: State, live: set<nat>)
  {
    && (forall id :: id in live ==> id < |s.requests|)
    && (forall id :: 0 <= id < |s.requests| ==> s.requests[id].generation <= GenerationOf(s, s.requests[id].key))
    && FlightsAreFresh(s, live)
    && GuardIsExact(s, live)
    && SingleFlight(s)
  }

  ghost predicate Results(s: State, live: set<nat>)
  {
    && SettledIsFresh(s, live)
    && FreshIsSettled(s, live)
    && RetriesFollowFailures(s, live)
  }

  ghost predicate FlightsAreFresh(s: State, live: set<nat>)
  {
    forall key :: key in s.inFlight ==>
      s.inFlight[key] in live && Unfinished(s, s.inFlight[key]) && s.requests[s.inFlight[key]].key == key
  }

  /** For a loader still at work, the generation test says exactly whether it is fresh. */
  ghost predicate GuardIsExact(s: State, live: set<nat>)
  {
    forall id: nat :: Unfinished(s, id) ==>
      (id in live <==> s.requests[id].generation == GenerationOf(s, s.requests[id].key))
  }

  /** A loader at work that carries the current generation is the one recorded in flight. */
  ghost predicate SingleFlight(s: State)
  {
    forall id: nat :: Unfinished(s, id) && s.requests[id].generation == GenerationOf(s, s.requests[id].key) ==>
      s.requests[id].key in s.inFlight && s.inFlight[s.requests[id].key] == id
  }

  ghost predicate SettledIsFresh(s: State, live: set<nat>)
  {
    forall key :: key in s.settled ==>
      exists id :: id in live && Produced(s, id, s.settled[key]) && s.requests[id].key == key
  }

  ghost predicate FreshIsSettled(s: State, live: set<nat>)
  {
    forall id, options :: id in live && Produced(s, id, options) ==>
      s.requests[id].key in s.settled && s.settled[s.requests[id].key] == options
  }

  ghost predicate RetriesFollowFailures(s: State, live: set<nat>)
  {
    forall i, j :: i in live && j in live && i < j < |s.requests| && s.requests[i].key == s.requests[j].key ==>
      s.requests[i].phase == Done(None)
  }

  lemma StepKeepsSound(order: Collation, h: History, e: Event)
    requires Sound(h) && Enabled(h.state, e)
    ensures Sound(History(Next(order, h.state, e), FreshAfter(h.state, h.live, e)))
  {
    match e
    case Load(key, throws) => LoadKeepsSound(h, key, throws);
    case Resolves(id, options) => MoveKeepsSound(h, id, Ordered(SortBy(options, order)));
    case Settles(id) => SettleKeepsSound(h, id);
    case Fails(id) => MoveKeepsSound(h, id, Finishing(None));
    case Finalizes(id) => FinalizeKeepsSound(h, id);
    case Invalidates(scope) => InvalidateKeepsSound(h, scope);
  }

  lemma LoadKeepsSound(h: History, key: Key, throws: bool)
    requires Sound(h)
    ensures Sound(History(if LoadAnswer(h.state, key, throws).Started? then Begin(h.state, key) else h.state,
                          FreshAfter(h.state, h.live, Load(key, throws))))
  {
    if LoadAnswer(h.state, key, throws).Started? {
      var s, t, live := h.state, Begin(h.state, key), h.live + {|h.state.requests|};
      assert forall id :: 0 <= id < |s.requests| ==> t.requests[id] == s.requests[id];
      assert forall id: nat :: Unfinished(t, id) <==> id == |s.requests| || Unfinished(s, id);
      assert Loaders(t, live);
      BeginKeepsResults(s, h.live, key);
    }
  }

  lemma BeginKeepsResults(s: State, live: set<nat>, key: Key)
    requires Loaders(s, live) && Results(s, live) && key !in s.settled && key !in s.inFlight
    ensures Results(Begin(s, key), live + {|s.requests|})
  {
    var t := Begin(s, key);
    assert forall id: nat, options :: Produced(t, id, options) <==> Produced(s, id, options);
    assert forall id :: 0 <= id < |s.requests| ==> t.requests[id] == s.requests[id];
    SettledCarries(s, live, t, live + {|s.requests|});
    BeginKeepsRetries(s, live, key);
  }

  lemma BeginKeepsRetries(s: State, live: set<nat>, key: Key)
    requires Loaders(s, live) && Results(s, live) && key !in s.settled && key !in s.inFlight
    ensures RetriesFollowFailures(Begin(s, key), live + {|s.requests|})
  {
    forall i | i in live && s.requests[i].key == key ensures s.requests[i].phase == Done(None) {
      EarlierFailed(s, live, key, i);
    }
  }

  lemma EarlierFailed(s: State, live: set<nat>, key: Key, i: nat)
    requires Loaders(s, live) && Results(s, live) && key !in s.settled && key !in s.inFlight
    requires i in live && s.requests[i].key == key
    ensures s.requests[i].phase == Done(None)
  {
    assert !Unfinished(s, i);
    if s.requests[i].phase.result.Some? {
      assert Produced(s, i, s.requests[i].phase.result.value);
    }
  }

  /** Entries that stay keep the loader that produced them. */
  lemma SettledCarries(s: State, live: set<nat>, t: State, after: set<nat>)
    requires SettledIsFresh(s, live)
    requires forall k :: k in t.settled ==> k in s.settled && t.settled[k] == s.settled[k]
    requires forall id, options :: id in live && Produced(s, id, options) && s.requests[id].key in t.settled ==>
               id in after && Produced(t, id, options) && t.requests[id].key == s.requests[id].key
    ensures SettledIsFresh(t, after)
  {
    forall k | k in t.settled
      ensures exists id :: id in after && Produced(t, id, t.settled[k]) && t.requests[id].key == k
    {
      var id :| id in live && Produced(s, id, s.settled[k]) && s.requests[id].key == k;
      assert Produced(t, id, t.settled[k]);
    }
  }

  /** The chains are the same up to their phases. */
  ghost predicate SameChains(s: State, t: State)
  {
    && |t.requests| == |s.requests|
    && forall i :: 0 <= i < |s.requests| ==>
         t.requests[i].key == s.requests[i].key && t.requests[i].generation == s.requests[i].generation
  }

  lemma MoveKeepsSound(h: History, id: nat, phase: Phase)
    requires Sound(h) && Unfinished(h.state, id) && !h.state.requests[id].phase.Finishing?
    requires phase.Ordered? || phase == Finishing(None)
    ensures Sound(History(Move(h.state, id, phase), h.live))
  {
    var s, t := h.state, Move(h.state, id, phase);
    assert SameChains(s, t);
    assert forall i: nat :: Unfinished(t, i) <==> Unfinished(s, i);
    assert Loaders(t, h.live);
    assert forall i: nat, options :: Produced(t, i, options) <==> Produced(s, i, options);
    SettledCarries(s, h.live, t, h.live);
  }

  lemma SettleKeepsSound(h: History, id: nat)
    requires Sound(h) && Enabled(h.state, Settles(id))
    ensures Sound(History(Settle(h.state, id), h.live))
  {
    var s, t := h.state, Settle(h.state, id);
    assert SameChains(s, t);
    assert forall i: nat :: Unfinished(t, i) <==> Unfinished(s, i);
    assert Loaders(t, h.live);
    SettleKeepsResults(s, h.live, id);
  }

  lemma SettleKeepsResults(s: State, live: set<nat>, id: nat)
    requires Loaders(s, live) && Results(s, live) && Enabled(s, Settles(id))
    ensures Results(Settle(s, id), live)
  {
    var t := Settle(s, id);
    assert SameChains(s, t) && Unfinished(s, id);
    assert forall i: nat, options :: i != id ==> (Produced(t, i, options) <==> Produced(s, i, options));
    assert forall options :: Produced(t, id, options) <==> options == s.requests[id].phase.options;
    if id in live {
      CurrentSettles(s, live, id, t);
    } else {
      SettledCarries(s, live, t, live);
    }
  }

  lemma CurrentSettles(s: State, live: set<nat>, id: nat, t: State)
    requires Loaders(s, live) && Results(s, live) && Enabled(s, Settles(id)) && id in live
    requires SameChains(s, t) && Unfinished(s, id)
    requires t.settled == s.settled[s.requests[id].key := s.requests[id].phase.options]
    requires forall i :: 0 <= i < |s.requests| && i != id ==> t.requests[i] == s.requests[i]
    requires forall i: nat, options :: i != id ==> (Produced(t, i, options) <==> Produced(s, i, options))
    requires forall options :: Produced(t, id, options) <==> options == s.requests[id].phase.options
    ensures Results(t, live)
  {
    forall i | i in live && i != id
        && s.requests[i].key == s.requests[id].key ensures s.requests[i].phase == Done(None) {
      assert i < id || id < i;
    }
    forall k | k in t.settled
      ensures exists i :: i in live && Produced(t, i, t.settled[k]) && t.requests[i].key == k
    {
      EntryHasLoader(s, live, id, t, k);
    }
  }

  lemma EntryHasLoader(s: State, live: set<nat>, id: nat, t: State, key: Key)
    requires SettledIsFresh(s, live) && Enabled(s, Settles(id)) && id in live
    requires SameChains(s, t)
    requires t.settled == s.settled[s.requests[id].key := s.requests[id].phase.options]
    requires forall i: nat, options :: i != id ==> (Produced(t, i, options) <==> Produced(s, i, options))
    requires Produced(t, id, s.requests[id].phase.options) && key in t.settled
    ensures exists i :: i in live && Produced(t, i, t.settled[key]) && t.requests[i].key == key
  {
    if key == s.requests[id].key {
      assert Produced(t, id, t.settled[key]);
    } else {
      var i :| i in live && Produced(s, i, s.settled[key]) && s.requests[i].key == key;
      assert Produced(t, i, t.settled[key]);
    }
  }

  lemma FinalizeKeepsSound(h: History, id: nat)
    requires Sound(h) && Enabled(h.state, Finalizes(id))
    ensures Sound(History(Finalize(h.state, id), h.live))
  {
    var s, t := h.state, Finalize(h.state, id);
    FinalizeKeepsLoaders(s, h.live, id);
    assert SameChains(s, t);
    assert forall i: nat, options :: Produced(t, i, options) <==> Produced(s, i, options);
    SettledCarries(s, h.live, t, h.live);
  }

  lemma FinalizeKeepsLoaders(s: State, live: set<nat>, id: nat)
    requires Loaders(s, live) && Enabled(s, Finalizes(id))
    ensures Loaders(Finalize(s, id), live)
  {
    var t := Finalize(s, id);
    assert SameChains(s, t);
    assert forall i: nat :: Unfinished(t, i) <==> Unfinished(s, i) && i != id;
  }

  lemma InvalidateKeepsSound(h: History, scope: Scope)
    requires Sound(h)
    ensures Sound(History(Drop(h.state, Dropped(h.state, scope)), FreshAfter(h.state, h.live, Invalidates(scope))))
  {
    var s, t := h.state, Drop(h.state, Dropped(h.state, scope));
    InvalidateKeepsLoaders(s, h.live, scope);
    assert forall i: nat, options :: Produced(t, i, options) <==> Produced(s, i, options);
    SettledCarries(s, h.live, t, FreshAfter(s, h.live, Invalidates(scope)));
  }

  lemma InvalidateKeepsLoaders(s: State, before: set<nat>, scope: Scope)
    requires Loaders(s, before)
    ensures Loaders(Drop(s, Dropped(s, scope)), FreshAfter(s, before, Invalidates(scope)))
  {
    var dropped := Dropped(s, scope);
    var t, live := Drop(s, dropped), FreshAfter(s, before, Invalidates(scope));
    assert forall k :: GenerationOf(t, k) == GenerationOf(s, k) + if k in dropped then 1 else 0;
    assert forall i: nat :: Unfinished(t, i) <==> Unfinished(s, i);
    forall i: nat | Unfinished(t, i)
      ensures i in live <==> t.requests[i].generation == GenerationOf(t, t.requests[i].key)
    {
      assert Unfinished(s, i);
      if i in before && Matches(scope, s.requests[i].key) {
        assert s.requests[i].key in s.inFlight;
      }
    }
  }

  lemma {:induction false} RunsAreSound(order: Collation, events: seq<Event>)
    requires Feasible(order, events)
    ensures Sound(Run(order, events))
  {
    if events != [] {
      var last := |events| - 1;
      RunsAreSound(order, events[..last]);
      StepKeepsSound(order, Run(order, events[..last]), events[last]);
    }
  }

  /**
   After any interleaving, a settled entry was produced by a loader begun after the last
   invalidation of its key, and so was whatever an entry in flight will produce.
   */
  lemma ServedIsFresh(order: Collation, events: seq<Event>, key: Key)
    requires Feasible(order, events)
    ensures var h := Run(order, events);
            && (key in h.state.settled ==>
                  exists id :: id in h.live && Produced(h.state, id, h.state.settled[key])
                               && h.state.requests[id].key == key)
            && (key in h.state.inFlight ==>
                  h.state.inFlight[key] in h.live && Unfinished(h.state, h.state.inFlight[key]))
  {
    RunsAreSound(order, events);
  }

  /** After any interleaving, at most one unfinished loader of a key carries its current generation. */
  lemma OneCurrentLoader(order: Collation, events: seq<Event>, i: nat, j: nat)
    requires Feasible(order, events)
    requires var s := Run(order, events).state;
             && Unfinished(s, i) && Unfinished(s, j) && s.requests[i].key == s.requests[j].key
             && s.requests[i].generation == GenerationOf(s, s.requests[i].key)
             && s.requests[j].generation == GenerationOf(s, s.requests[j].key)
    ensures i == j
    ensures var s := Run(order, events).state;
            s.requests[i].key in s.inFlight && s.inFlight[s.requests[i].key] == i
  {
    RunsAreSound(order, events);
  }

  /** The generation test of a completing loader passes exactly when no invalidation has matched since it began. */
  lemma GuardMeansFresh(order: Collation, events: seq<Event>, id: nat)
    requires Feasible(order, events) && Unfinished(Run(order, events).state, id)
    ensures var h := Run(order, events);
            id in h.live <==> h.state.requests[id].generation == GenerationOf(h.state, h.state.requests[id].key)
  {
    RunsAreSound(order, events);
  }

  /** A second loader for a key starts only after a matching invalidation or after the first one failed. */
  lemma SourceWorkIsShared(order: Collation, events: seq<Event>, i: nat, j: nat)
    requires Feasible(order, events)
    requires var h := Run(order, events);
             i in h.live && j in h.live && i < j < |h.state.requests|
                 && h.state.requests[i].key == h.state.requests[j].key
    ensures Run(order, events).state.requests[i].phase == Done(None)
  {
    RunsAreSound(order, events);
  }

  /**
   An invalidation leaves nothing behind: right after it no matching key is settled or in
   flight, so the next load starts its own loader; a key that does not match is untouched.
   */
  lemma InvalidationIsComplete(order: Collation, events: seq<Event>, scope: Scope, key: Key)
    requires Feasible(order, events)
    ensures var before, s := Run(order, events).state, Next(order, Run(order, events).state, Invalidates(scope));
            if Matches(scope, key)
            then LoadAnswer(s, key, false) == Started(|s.requests|)
            else (LoadAnswer(s, key, false) == LoadAnswer(before, key, false)
                  && GenerationOf(s, key) == GenerationOf(before, key))
  {
  }
}
