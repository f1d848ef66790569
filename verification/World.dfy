/**
 The world port the combat systems read and write (packages/simulation/src/world.ts),
 its in-memory reference implementation, and wielder exclusion (`viewExcluding` of
 combat.ts).
 */
module World {
  import opened Wrappers
  import opened Sorting
  import opened Geometry
  import opened Damage
  import opened Broadphase

  /** Everything a resolver may read besides vitality: fixed for the length of a tick. */
  datatype Scene = Scene(
    entities: seq<EntityId>,
    positions: map<EntityId, Vec2>,
    teams: map<EntityId, TeamId>,
    blockers: seq<Blocker>,
    index: Option<Box -> seq<EntityId>>)

  /**
   What the port asks of a spatial index: ascending ids of real entities, and no
   positioned entity inside the queried box missing. Extra entities are allowed.
   */
  ghost predicate Faithful(scene: Scene)
  {
    && Ascending(scene.entities)
    && (scene.index.Some? ==> forall box :: FaithfulAnswer(scene, box, scene.index.value(box)))
  }

  ghost predicate FaithfulAnswer(scene: Scene, box: Box, ids: seq<EntityId>)
  {
    && Ascending(ids)
    && (forall e :: e in ids ==> e in scene.entities)
    && (forall e :: e in scene.entities && e in scene.positions && box.Holds(scene.positions[e]) ==> e in ids)
  }

  /** Narrow a search to a box through the index when there is one, else scan everybody. */
  function Candidates(scene: Scene, box: Box): seq<EntityId>
  {
    if scene.index.None? then scene.entities else scene.index.value(box)
  }

  /** The scene as seen by a weapon that may not strike its own wielder. */
  function Excluding(scene: Scene, excluded: EntityId): Scene
  {
    var index := if scene.index.None? then None
                 else (var query := scene.index.value; Some((box: Box) => ExcludeFrom(query(box), excluded)));
    scene.(entities := ExcludeFrom(scene.entities, excluded), index := index)
  }

  function WithoutIndex(scene: Scene): Scene
  {
    scene.(index := None)
  }

  /** Exclusion commutes with the index. */
  lemma ExcludingIsFaithful(scene: Scene, excluded: EntityId)
    requires Faithful(scene)
    ensures Faithful(Excluding(scene, excluded))
    ensures excluded !in Excluding(scene, excluded).entities
    ensures WithoutIndex(Excluding(scene, excluded)) == Excluding(WithoutIndex(scene), excluded)
  {
    var other := (id: int) => id != excluded;
    FilterAscending(scene.entities, other);
    var narrowed := Excluding(scene, excluded);
    if scene.index.Some? {
      forall box ensures FaithfulAnswer(narrowed, box, narrowed.index.value(box)) {
        var ids := scene.index.value(box);
        assert FaithfulAnswer(scene, box, ids);
        FilterAscending(ids, other);
      }
    }
  }

  /** Exclusion hides one entity and nothing else. */
  lemma ExcludingHidesOne(scene: Scene, excluded: EntityId)
    ensures var view := Excluding(scene, excluded);
            && (forall e :: e in view.entities <==> e in scene.entities && e != excluded)
            && view.(entities := scene.entities, index := scene.index) == scene
            && (view.index.Some? <==> scene.index.Some?)
            && (scene.index.Some? ==> forall box, e ::
                  e in view.index.value(box) <==> e in scene.index.value(box) && e != excluded)
  {
  }

  // ----- the in-memory reference world -----

  /** The entries an index is built from: positioned entities in enumeration order. */
  function PositionedEntries(roster: seq<EntityId>, positions: map<EntityId, Vec2>): seq<Entry>
  {
    if roster == [] then []
    else if roster[0] in positions then
      [Entry(roster[0], positions[roster[0]].x, positions[roster[0]].y)] + PositionedEntries(roster[1..], positions)
    else PositionedEntries(roster[1..], positions)
  }

  ghost predicate Distinct(s: seq<int>)
  {
    forall i, j :: 0 <= i < j < |s| ==> s[i] != s[j]
  }

  lemma {:induction false} PositionedEntriesAre(roster: seq<EntityId>, positions: map<EntityId, Vec2>)
    requires Distinct(roster)
    ensures DistinctIds(PositionedEntries(roster, positions))
    ensures forall e :: e in PositionedEntries(roster, positions) <==>
              e.entity in roster && e.entity in positions && positions[e.entity] == Vec2(e.x, e.y)
  {
    if roster != [] {
      PositionedEntriesAre(roster[1..], positions);
      var rest := PositionedEntries(roster[1..], positions);
      forall i | 0 <= i < |rest| ensures rest[i].entity != roster[0] {
        assert rest[i] in rest;
        var j :| 0 < j < |roster| && roster[j] == rest[i].entity;
      }
    }
  }

  function MakeScene(roster: seq<EntityId>, positions: map<EntityId, Vec2>, teams: map<EntityId, TeamId>,
                     blockers: seq<Blocker>, indexed: bool): Scene
  {
    var entries := PositionedEntries(roster, positions);
    Scene(SortIds(roster), positions, teams, blockers,
          if indexed then Some((box: Box) => Answer(entries, box)) else None)
  }

  /** The grid index is a faithful index of the reference world. */
  lemma MakeSceneIsFaithful(roster: seq<EntityId>, positions: map<EntityId, Vec2>, teams: map<EntityId, TeamId>,
                            blockers: seq<Blocker>, indexed: bool)
    requires Distinct(roster)
    ensures Faithful(MakeScene(roster, positions, teams, blockers, indexed))
  {
    var scene := MakeScene(roster, positions, teams, blockers, indexed);
    SortIdsAscending(roster);
    PositionedEntriesAre(roster, positions);
    var entries := PositionedEntries(roster, positions);
    forall box ensures FaithfulAnswer(scene, box, Answer(entries, box)) {
      AnswerIsExact(entries, box);
      var ids := Answer(entries, box);
      forall e | e in scene.entities && e in positions && box.Holds(positions[e]) ensures e in ids {
        assert Entry(e, positions[e].x, positions[e].y) in entries;
      }
    }
  }

  datatype ActorSeed = ActorSeed(entity: EntityId, health: Health, team: Option<TeamId>, position: Option<Vec2>)

  /** Later seeds of an entity replace the fields they carry. */
  function SeedVitals(seed: seq<ActorSeed>): Vitals
  {
    if seed == [] then map[]
    else
      var last := |seed| - 1;
      SeedVitals(seed[..last])[seed[last].entity := seed[last].health]
  }

  function SeedTeams(seed: seq<ActorSeed>): map<EntityId, TeamId>
  {
    if seed == [] then map[]
    else
      var last := |seed| - 1;
      var before := SeedTeams(seed[..last]);
      if seed[last].team.Some? then before[seed[last].entity := seed[last].team.value] else before
  }

  function SeedPositions(seed: seq<ActorSeed>): map<EntityId, Vec2>
  {
    if seed == [] then map[]
    else
      var last := |seed| - 1;
      var before := SeedPositions(seed[..last]);
      if seed[last].position.Some? then before[seed[last].entity := seed[last].position.value] else before
  }

  /** Seed `i` gives the entity its value and no later seed does. */
  ghost predicate LastSeed(seed: seq<ActorSeed>, gives: ActorSeed -> bool, i: nat, e: EntityId)
  {
    i < |seed| && seed[i].entity == e && gives(seed[i])
    && forall j :: i < j < |seed| && seed[j].entity == e ==> !gives(seed[j])
  }

  /** Of the seeds of an entity the last one counts, for its team and place the last that names one. */
  lemma {:induction false} SeedsAreLast(seed: seq<ActorSeed>, e: EntityId, i: nat)
    ensures LastSeed(seed, (s: ActorSeed) => true, i, e) ==>
              e in SeedVitals(seed) && SeedVitals(seed)[e] == seed[i].health
    ensures LastSeed(seed, (s: ActorSeed) => s.team.Some?, i, e) ==>
              e in SeedTeams(seed) && SeedTeams(seed)[e] == seed[i].team.value
    ensures LastSeed(seed, (s: ActorSeed) => s.position.Some?, i, e) ==>
              e in SeedPositions(seed) && SeedPositions(seed)[e] == seed[i].position.value
  {
    if i < |seed| - 1 {
      SeedsAreLast(seed[..|seed| - 1], e, i);
    }
  }

  class CombatWorld {
    var vitals: Vitals
    /** The keys of `vitals` in insertion order. */
    var roster: seq<EntityId>
    const positions: map<EntityId, Vec2>
    const teams: map<EntityId, TeamId>
    const blockers: seq<Blocker>
    /** Whether the port offers its optional spatial index. */
    const indexed: bool
    var index: UniformGrid?

    ghost predicate Valid()
      reads this
    {
      && Distinct(roster)
      && (forall e :: e in roster <==> e in vitals)
      && positions.Keys <= vitals.Keys
      && (index != null ==> index.Valid() && index.positioned == PositionedEntries(roster, positions))
    }

    ghost function SceneOf(): Scene
      reads this
    {
      MakeScene(roster, positions, teams, blockers, indexed)
    }

    constructor (seed: seq<ActorSeed>, blockers: seq<Blocker>, indexed: bool)
      ensures Valid() && index == null
      ensures this.blockers == blockers && this.indexed == indexed
      ensures vitals == SeedVitals(seed) && teams == SeedTeams(seed) && positions == SeedPositions(seed)
    {
      var pools: Vitals, order: seq<EntityId> := map[], [];
      var placed: map<EntityId, Vec2>, sides: map<EntityId, TeamId> := map[], map[];
      var i := 0;
      while i < |seed|
        invariant 0 <= i <= |seed|
        invariant Distinct(order) && forall e :: e in order <==> e in pools
        invariant pools == SeedVitals(seed[..i]) && sides == SeedTeams(seed[..i]) && placed == SeedPositions(seed[..i])
        invariant placed.Keys <= pools.Keys
      {
        var actor := seed[i];
        assert seed[..i + 1][..i] == seed[..i];
        if actor.entity !in pools {
          order := order + [actor.entity];
        }
        pools := pools[actor.entity := actor.health];
        if actor.team.Some? {
          sides := sides[actor.entity := actor.team.value];
        }
        if actor.position.Some? {
          placed := placed[actor.entity := actor.position.value];
        }
        i := i + 1;
      }
      assert seed[..i] == seed;
      vitals, roster, index := pools, order, null;
      positions, teams, this.blockers, this.indexed := placed, sides, blockers, indexed;
    }

    method Entities() returns (ids: seq<EntityId>)
      requires Valid()
      ensures ids == SceneOf().entities
    {
      ids := SortIds(roster);
    }

    /** Replace a pool; the enumeration only grows when the entity is new. */
    method SetHealth(entity: EntityId, health: Health)
      requires Valid()
      modifies `vitals, `roster
      ensures Valid()
      ensures vitals == old(vitals)[entity := health]
      ensures roster == if entity in old(vitals) then old(roster) else old(roster) + [entity]
    {
      if entity !in vitals {
        roster := roster + [entity];
        UnpositionedNewcomer(old(roster), entity, positions);
      }
      vitals := vitals[entity := health];
    }

    /** Query the spatial index, building it on first use. */
    method QueryIndex(box: Box) returns (ids: seq<EntityId>)
      requires Valid() && indexed
      modifies `index
      ensures Valid()
      ensures SceneOf().index.Some? && ids == SceneOf().index.value(box)
    {
      if index == null {
        var entries: seq<Entry> := [];
        var i := 0;
        while i < |roster|
          invariant 0 <= i <= |roster|
          invariant entries + PositionedEntries(roster[i..], positions) == PositionedEntries(roster, positions)
        {
          assert roster[i..][1..] == roster[i + 1..];
          if roster[i] in positions {
            entries := entries + [Entry(roster[i], positions[roster[i]].x, positions[roster[i]].y)];
          }
          i := i + 1;
        }
        index := new UniformGrid(entries, None);
      }
      ids := index.QueryAabb(box);
    }
  }

  lemma {:induction false} UnpositionedNewcomer(roster: seq<EntityId>, entity: EntityId, positions: map<EntityId, Vec2>)
    requires entity !in positions
    ensures PositionedEntries(roster + [entity], positions) == PositionedEntries(roster, positions)
  {
    if roster != [] {
      UnpositionedNewcomer(roster[1..], entity, positions);
      assert (roster + [entity])[1..] == roster[1..] + [entity];
    }
  }

  // ----- views -----

  /** The port handed to a resolver: a world, possibly hiding one wielder. */
  datatype View = View(world: CombatWorld, excluded: Option<EntityId>)
  {
    ghost function SceneOf(): Scene
      reads world
    {
      if excluded.None? then world.SceneOf() else Excluding(world.SceneOf(), excluded.value)
    }

    /** The scene behind a port of a valid world is always faithful. */
    lemma SceneIsFaithful()
      requires world.Valid()
      ensures Faithful(SceneOf())
    {
      MakeSceneIsFaithful(world.roster, world.positions, world.teams, world.blockers, world.indexed);
      if excluded.Some? {
        ExcludingIsFaithful(world.SceneOf(), excluded.value);
      }
    }

    /** Entities that may be in the box, narrowed by the index when the world has one. */
    method CandidatesIn(box: Box) returns (ids: seq<EntityId>)
      requires world.Valid()
      modifies world`index
      ensures world.Valid()
      ensures ids == Candidates(SceneOf(), box)
    {
      if world.indexed {
        ids := world.QueryIndex(box);
      } else {
        ids := world.Entities();
      }
      if excluded.Some? {
        ids := ExcludeFrom(ids, excluded.value);
      }
    }

    /** Apply one hit through the port. */
    method ApplyDamage(target: EntityId, amount: real, source: DamageSource, policy: Policy)
        returns (outcome: DamageOutcome)
      requires world.Valid()
      modifies world`vitals, world`roster
      ensures world.Valid() && world.roster == old(world.roster)
      ensures (world.vitals, outcome) == HitEntity(old(world.vitals), world.teams, target, amount, source, policy)
    {
      if target !in world.vitals {
        return DamageIgnored(target, NoOp);
      }
      var health := world.vitals[target];
      var resolution := ResolveDamage(target, TeamOf(world.teams, target), health, amount, source, policy);
      if resolution.health != health {
        world.SetHealth(target, resolution.health);
      } else {
        assert world.vitals == world.vitals[target := resolution.health];
      }
      return resolution.outcome;
    }
  }
}
