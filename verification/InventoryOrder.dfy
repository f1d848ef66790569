/**
 What the command log promises about arrival order (packages/simulation/src/inventory-ops.ts):
 when the order of a batch matters, what a replay does, and where a stream may be cut.
 */
module InventoryOrder {
  import opened Wrappers
  import opened Sorting
  import opened Text
  import opened Geometry
  import opened Inventory
  import opened InventoryOps

  // ----- skipped commands -----

  predicate Rivals(c: Command, d: Command)
  {
    c.actor == d.actor && c.sequence == d.sequence
  }

  /** Processing only raises sequences and keeps the known actors. */
  lemma {:induction false} SequencesGrow(actors: Actors, s: seq<Command>, apply: Applier)
    ensures var after := ProcessAll(actors, s, apply).actors;
            && after.Keys == actors.Keys
            && (forall k :: k in actors ==> after[k].lastSequence >= actors[k].lastSequence)
            && (forall c :: c in s && c.actor in actors ==> after[c.actor].lastSequence >= c.sequence)
    decreases s
  {
    if s != [] {
      var first := Process(actors, s[0], apply).actors;
      SequencesGrow(first, s[1..], apply);
      forall c | c in s && c.actor in actors
        ensures ProcessAll(actors, s, apply).actors[c.actor].lastSequence >= c.sequence
      {
        assert c == s[0] || c in s[1..];
      }
    }
  }

  /** What a batch may skip: dead commands and those that come after a rival. */
  ghost predicate Skippable(actors: Actors, s: seq<Command>, keep: Command -> bool)
  {
    forall i :: 0 <= i < |s| && !keep(s[i]) ==>
      !Live(actors, s[i]) || exists j :: 0 <= j < i && Rivals(s[j], s[i])
  }

  lemma {:induction false} SkippingChangesNothing(actors: Actors, s: seq<Command>, keep: Command -> bool,
      apply: Applier)
    requires Skippable(actors, s, keep)
    ensures ProcessAll(actors, s, apply) == ProcessAll(actors, Filter(s, keep), apply)
    decreases s
  {
    if s != [] {
      var n := |s| - 1;
      var before, last := s[..n], s[n];
      SkippingChangesNothing(actors, before, keep, apply);
      assert s == before + [last];
      FilterAppend(before, [last], keep);
      ProcessAppend(actors, before, [last], apply);
      ProcessOne(ProcessAll(actors, before, apply).actors, last, apply);
      if keep(last) {
        assert Filter([last], keep) == [last];
        ProcessAppend(actors, Filter(before, keep), [last], apply);
      } else {
        assert Filter(s, keep) == Filter(before, keep);
        LastIsDead(actors, before, last, apply);
      }
    }
  }

  lemma LastIsDead(actors: Actors, before: seq<Command>, last: Command, apply: Applier)
    requires !Live(actors, last) || exists j :: 0 <= j < |before| && Rivals(before[j], last)
    ensures !Live(ProcessAll(actors, before, apply).actors, last)
  {
    SequencesGrow(actors, before, apply);
    if Live(actors, last) {
      var j :| 0 <= j < |before| && Rivals(before[j], last);
      assert before[j] in before;
    }
  }

  // ----- leading commands -----

  /** A live command that no rival strictly precedes: the only kind a batch ever applies. */
  ghost predicate Leads(le: (Command, Command) -> bool, actors: Actors, batch: seq<Command>, c: Command)
  {
    Live(actors, c) && forall d :: d in batch && Rivals(c, d) ==> le(c, d)
  }

  lemma OthersAreSkippable(le: (Command, Command) -> bool, actors: Actors, batch: seq<Command>, sorted: seq<Command>,
                           leads: Command -> bool)
    requires TotalPreorder(le) && Sorted(sorted, le) && forall c :: c in batch <==> c in sorted
    requires forall c :: leads(c) == Leads(le, actors, batch, c)
    ensures Skippable(actors, sorted, leads)
  {
    forall i | 0 <= i < |sorted| && !leads(sorted[i])
      ensures !Live(actors, sorted[i]) || exists j :: 0 <= j < i && Rivals(sorted[j], sorted[i])
    {
      if Live(actors, sorted[i]) {
        var d :| d in batch && Rivals(sorted[i], d) && !le(sorted[i], d);
        var j :| 0 <= j < |sorted| && sorted[j] == d;
        assert j < i;
      }
    }
  }

  lemma OnlyLeadersMatter(render: Render, actors: Actors, batch: seq<Command>, leads: Command -> bool, apply: Applier)
    requires forall c :: leads(c) == Leads(NotAfter(render), actors, batch, c)
    ensures Resolve(render, actors, batch, apply) ==
            ProcessAll(actors, SortBy(Filter(batch, leads), NotAfter(render)), apply)
  {
    var le := NotAfter(render);
    CommandPreorder(render);
    SortSorted(batch, le);
    SortMultiset(batch, le);
    OthersAreSkippable(le, actors, batch, SortBy(batch, le), leads);
    SkippingChangesNothing(actors, SortBy(batch, le), leads, apply);
    FilterSort(batch, le, leads);
  }

  /** No two different leading commands compete for one sequence. */
  ghost predicate Unambiguous(render: Render, actors: Actors, batch: seq<Command>)
  {
    forall c, d :: c in batch && d in batch && Rivals(c, d) && Leads(NotAfter(render), actors, batch, c)
                   && Leads(NotAfter(render), actors, batch, d)
      ==> c == d
  }

  lemma UnambiguousForgetsOrder(render: Render, actors: Actors, batch: seq<Command>, other: seq<Command>,
                                apply: Applier)
    requires multiset(batch) == multiset(other) && Unambiguous(render, actors, batch)
    ensures Resolve(render, actors, batch, apply) == Resolve(render, actors, other, apply)
  {
    var le := NotAfter(render);
    var leads := c => Leads(NotAfter(render), actors, batch, c);
    SameMembers(batch, other);
    OnlyLeadersMatter(render, actors, batch, leads, apply);
    OnlyLeadersMatter(render, actors, other, leads, apply);
    forall x ensures multiset(Filter(batch, leads))[x] == multiset(Filter(other, leads))[x] {
      FilterCount(batch, leads, x);
      FilterCount(other, leads, x);
    }
    CommandPreorder(render);
    TiesAreRivals(render, actors, batch);
    SortForgetsOrder(Filter(batch, leads), Filter(other, leads), le);
  }

  lemma TiesAreRivals(render: Render, actors: Actors, batch: seq<Command>)
    requires Unambiguous(render, actors, batch)
    ensures TiesAreEqual(Filter(batch, c => Leads(NotAfter(render), actors, batch, c)), NotAfter(render))
  {
  }

  // ----- what a tie means -----

  /** In this batch different coordinates read differently, and without the key's punctuation. */
  ghost predicate RendersApart(render: Render, batch: seq<Command>)
  {
    && (forall v :: v in Coordinates(batch) ==> ',' !in render(v) && '|' !in render(v))
    && (forall v, w :: v in Coordinates(batch) && w in Coordinates(batch) && render(v) == render(w) ==> v == w)
  }

  ghost function Coordinates(batch: seq<Command>): set<real>
  {
    (set c | c in batch && Placed(c) :: c.at.value.x) + (set c | c in batch && Placed(c) :: c.at.value.y)
  }

  predicate Placed(c: Command)
  {
    (c.PickupCommand? || c.DropCommand?) && c.at.Some?
  }

  /** Two equips, or two swaps, of one actor and sequence whose item and slot read the same when joined. */
  predicate Collide(c: Command, d: Command)
  {
    && Rivals(c, d) && c != d
    && ((c.EquipCommand? && d.EquipCommand?) || (c.SwapCommand? && d.SwapCommand?))
    && c.item + "|" + c.slot == d.item + "|" + d.slot
  }

  lemma KeyParts(render: Render, c: Command)
    ensures PayloadKey(render, c) == (c.item + ['|'] + SlotText(c)) + ['|'] + PlaceText(render, c)
  {
  }

  lemma SamePlace(render: Render, batch: seq<Command>, c: Command, d: Command)
    requires RendersApart(render, batch) && c in batch && d in batch
    requires (c.PickupCommand? && d.PickupCommand?) || (c.DropCommand? && d.DropCommand?)
    requires PlaceText(render, c) == PlaceText(render, d)
    ensures c.at == d.at
  {
    if Placed(c) {
      assert PlaceText(render, c)[|render(c.at.value.x)|] == ',';
    }
    if Placed(d) {
      assert PlaceText(render, d)[|render(d.at.value.x)|] == ',';
    }
    if Placed(c) && Placed(d) {
      assert c.at.value.x in Coordinates(batch) && c.at.value.y in Coordinates(batch);
      assert d.at.value.x in Coordinates(batch) && d.at.value.y in Coordinates(batch);
      SplitUnique(render(c.at.value.x), render(c.at.value.y), render(d.at.value.x), render(d.at.value.y), ',');
    }
  }

  lemma PlaceHasNoBar(render: Render, batch: seq<Command>, c: Command)
    requires RendersApart(render, batch) && c in batch
    ensures '|' !in PlaceText(render, c)
  {
    if Placed(c) {
      assert c.at.value.x in Coordinates(batch) && c.at.value.y in Coordinates(batch);
    }
  }

  /** Commands that compare equal are equal, unless they are equips or swaps whose joined ids collide. */
  lemma TieMeansCollision(render: Render, batch: seq<Command>, c: Command, d: Command)
    requires RendersApart(render, batch) && c in batch && d in batch
    ensures NotAfter(render)(c, d) && NotAfter(render)(d, c) <==> c == d || Collide(c, d)
  {
    KeyParts(render, c);
    KeyParts(render, d);
    TextTotal(PayloadKey(render, c), PayloadKey(render, d));
    if NotAfter(render)(c, d) && NotAfter(render)(d, c) {
      PlaceHasNoBar(render, batch, c);
      PlaceHasNoBar(render, batch, d);
      SplitUnique(c.item + ['|'] + SlotText(c), PlaceText(render, c), d.item + ['|'] + SlotText(d),
                  PlaceText(render, d), '|');
      if c.PickupCommand? || c.DropCommand? || c.ConsumeCommand? {
        SplitUnique(c.item, "", d.item, "", '|');
        if !c.ConsumeCommand? {
          SamePlace(render, batch, c, d);
        }
      }
    }
  }

  lemma CollidersDiffer(c: Command, d: Command)
    requires Collide(c, d)
    ensures c.item != d.item && c.slot != d.slot
  {
    if |c.item| == |d.item| {
      SplitUnique(c.item, c.slot, d.item, d.slot, '|');
    }
    assert |c.item + "|" + c.slot| == |d.item + "|" + d.slot|;
  }

  /** Ids without the separator cannot collide. */
  lemma PlainIdsDoNotCollide(c: Command, d: Command)
    requires ('|' !in c.item && '|' !in d.item)
             || ((c.EquipCommand? || c.SwapCommand? ==> '|' !in c.slot)
                 && (d.EquipCommand? || d.SwapCommand? ==> '|' !in d.slot))
    ensures !Collide(c, d)
  {
    if Collide(c, d) {
      SplitUnique(c.item, c.slot, d.item, d.slot, '|');
    }
  }

  // ----- colliding leaders make the order matter -----

  lemma FirstResultsDiffer(actor: ActorInventory, c: Command, d: Command, policy: OverflowPolicy)
    requires Collide(c, d)
    ensures var r, s := ApplyCommand(actor, c, policy).results, ApplyCommand(actor, d, policy).results;
            r != [] && s != [] && r[0] != s[0]
  {
    CollidersDiffer(c, d);
  }

  lemma {:induction false} StaysBelow(actors: Actors, s: seq<Command>, k: int, bound: int, apply: Applier)
    requires k in actors && actors[k].lastSequence < bound
    requires forall c :: c in s && c.actor == k ==> c.sequence < bound
    ensures var after := ProcessAll(actors, s, apply).actors;
            k in after && after[k].lastSequence < bound
    decreases s
  {
    if s != [] {
      StaysBelow(Process(actors, s[0], apply).actors, s[1..], k, bound, apply);
    }
  }

  lemma LeadersDecide(render: Render, actors: Actors, batch: seq<Command>, i: nat, j: nat, policy: OverflowPolicy)
    requires i < |batch| && j < |batch| && Collide(batch[i], batch[j])
    requires Leads(NotAfter(render), actors, batch, batch[i])
    requires RendersApart(render, batch)
    ensures Resolve(render, actors, [batch[i]] + Without(batch, i), Applying(policy)) !=
            Resolve(render, actors, [batch[j]] + Without(batch, j), Applying(policy))
  {
    var le, c, d := NotAfter(render), batch[i], batch[j];
    var before := x => !le(c, x);
    CommandPreorder(render);
    TieMeansCollision(render, batch, c, d);
    var t := MovedToFront(batch, i, le, before);
    var u := MovedToFront(batch, j, le, before);
    var prefix := SortBy(Filter(batch, before), le);
    SortMultiset(Filter(batch, before), le);
    forall x | x in prefix && x.actor == c.actor ensures x.sequence < c.sequence {
      assert x in batch && !le(c, x) && !Rivals(c, x);
    }
    ResultsPart(actors, prefix, c, t, d, u, policy);
  }

  lemma ResultsPart(actors: Actors, prefix: seq<Command>, c: Command, t: seq<Command>, d: Command, u: seq<Command>,
                    policy: OverflowPolicy)
    requires Live(actors, c) && Collide(c, d)
    requires forall x :: x in prefix && x.actor == c.actor ==> x.sequence < c.sequence
    ensures ProcessAll(actors, prefix + [c] + t,
                       Applying(policy)) != ProcessAll(actors, prefix + [d] + u, Applying(policy))
  {
    var apply := Applying(policy);
    StaysBelow(actors, prefix, c.actor, c.sequence, apply);
    FirstResultsDiffer(ProcessAll(actors, prefix, apply).actors[c.actor], c, d, policy);
    ThenOne(actors, prefix, c, t, apply);
    ThenOne(actors, prefix, d, u, apply);
  }

  lemma ThenOne(actors: Actors, prefix: seq<Command>, c: Command, tail: seq<Command>, apply: Applier)
    requires Live(ProcessAll(actors, prefix, apply).actors, c)
    requires apply(ProcessAll(actors, prefix, apply).actors[c.actor], c).results != []
    ensures var reached := ProcessAll(actors, prefix, apply);
            var results := ProcessAll(actors, prefix + [c] + tail, apply).results;
            && |reached.results| < |results|
            && results[|reached.results|] == apply(reached.actors[c.actor], c).results[0]
  {
    var reached := ProcessAll(actors, prefix, apply);
    var rest := [c] + tail;
    assert prefix + [c] + tail == prefix + rest;
    ProcessAppend(actors, prefix, rest, apply);
    assert rest[0] == c;
  }

  ghost predicate CollidingLeaders(render: Render, actors: Actors, batch: seq<Command>)
  {
    exists c, d :: c in batch && d in batch && Collide(c, d) && Leads(NotAfter(render), actors, batch, c)
  }

  lemma NoCollidersIsUnambiguous(render: Render, actors: Actors, batch: seq<Command>)
    requires RendersApart(render, batch) && !CollidingLeaders(render, actors, batch)
    ensures Unambiguous(render, actors, batch)
  {
    forall c, d | c in batch && d in batch && Rivals(c, d) && Leads(NotAfter(render), actors, batch, c)
        && Leads(NotAfter(render), actors, batch, d)
      ensures c == d
    {
      TieMeansCollision(render, batch, c, d);
    }
  }

  ghost predicate ForgetsOrder(render: Render, actors: Actors, batch: seq<Command>, apply: Applier)
  {
    forall other :: multiset(other) == multiset(batch) ==>
      Resolve(render, actors, other, apply) == Resolve(render, actors, batch, apply)
  }

  lemma CollidersRemember(render: Render, actors: Actors, batch: seq<Command>, c: Command, d: Command,
                          policy: OverflowPolicy)
    requires RendersApart(render, batch)
    requires c in batch && d in batch && Collide(c, d) && Leads(NotAfter(render), actors, batch, c)
    ensures !ForgetsOrder(render, actors, batch, Applying(policy))
  {
    var i :| 0 <= i < |batch| && batch[i] == c;
    var j :| 0 <= j < |batch| && batch[j] == d;
    FirstIsPermutation(batch, i);
    FirstIsPermutation(batch, j);
    LeadersDecide(render, actors, batch, i, j, policy);
    TwoOrdersDiffer(render, actors, batch, Applying(policy), [batch[i]] + Without(batch, i),
                    [batch[j]] + Without(batch, j));
  }

  lemma TwoOrdersDiffer(render: Render, actors: Actors, batch: seq<Command>, apply: Applier, s: seq<Command>,
                        t: seq<Command>)
    requires multiset(s) == multiset(batch) && multiset(t) == multiset(batch)
    requires Resolve(render, actors, s, apply) != Resolve(render, actors, t, apply)
    ensures !ForgetsOrder(render, actors, batch, apply)
  {
  }

  /**
   A batch resolves to the same actors and results in every arrival order exactly when no
   leading equip or swap collides with another one.
   */
  lemma ArrivalOrderIsForgottenIff(render: Render, actors: Actors, batch: seq<Command>, policy: OverflowPolicy)
    requires RendersApart(render, batch)
    ensures ForgetsOrder(render, actors, batch, Applying(policy)) <==> !CollidingLeaders(render, actors, batch)
  {
    if CollidingLeaders(render, actors, batch) {
      var c, d :| c in batch && d in batch && Collide(c, d) && Leads(NotAfter(render), actors, batch, c);
      CollidersRemember(render, actors, batch, c, d, policy);
    } else {
      NoCollidersIsUnambiguous(render, actors, batch);
      forall other | multiset(other) == multiset(batch)
        ensures Resolve(render, actors, other, Applying(policy)) == Resolve(render, actors, batch, Applying(policy))
      {
        UnambiguousForgetsOrder(render, actors, batch, other, Applying(policy));
      }
    }
  }

  /**
   A batch whose order matters under any rendering: joined with their slots, both items read
   "a|b|c", so the two equips tie and the first to arrive wins.
   */
  lemma OrderCanMatter(render: Render, policy: OverflowPolicy)
    ensures var c, d := EquipCommand(1, 0, "a|b", "c"), EquipCommand(1, 0, "a", "b|c");
            var actor := MakeActorInventory(InventoryState(["a|b", "a"], 2));
            !ForgetsOrder(render, map[1 := actor], [c, d], Applying(policy))
  {
    var c, d := EquipCommand(1, 0, "a|b", "c"), EquipCommand(1, 0, "a", "b|c");
    var actors, batch := map[1 := MakeActorInventory(InventoryState(["a|b", "a"], 2))], [c, d];
    assert "a|b" + "|" + "c" == "a|b|c" == "a" + "|" + "b|c";
    assert Collide(c, d);
    assert Coordinates(batch) == {};
    TieMeansCollision(render, batch, c, d);
    TieMeansCollision(render, batch, c, c);
    assert Leads(NotAfter(render), actors, batch, c);
    CollidersRemember(render, actors, batch, c, d, policy);
  }

  // ----- replays and cuts -----

  lemma {:induction false} DeadBatch(actors: Actors, s: seq<Command>, apply: Applier)
    requires forall c :: c in s ==> !Live(actors, c)
    ensures ProcessAll(actors, s, apply) == Outcome(actors, [])
    decreases s
  {
    if s != [] {
      DeadBatch(actors, s[1..], apply);
    }
  }

  /** Resolving again any commands of a batch already resolved changes no actor and emits nothing. */
  lemma ReplayIsSilent(render: Render, actors: Actors, batch: seq<Command>, again: seq<Command>, apply: Applier)
    requires forall c :: c in again ==> c in batch
    ensures var after := Resolve(render, actors, batch, apply).actors;
            Resolve(render, after, again, apply) == Outcome(after, [])
  {
    var le := NotAfter(render);
    SortMultiset(batch, le);
    SortMultiset(again, le);
    SequencesGrow(actors, SortBy(batch, le), apply);
    DeadBatch(Resolve(render, actors, batch, apply).actors, SortBy(again, le), apply);
  }

  /** The same actors, and the same results up to their interleaving between actors. */
  ghost predicate Agree(a: Outcome, b: Outcome)
  {
    a.actors == b.actors && multiset(a.results) == multiset(b.results)
  }

  /** Commands of different actors commute. */
  lemma SwapTwo(actors: Actors, c: Command, d: Command, apply: Applier)
    requires c.actor != d.actor
    ensures var cd := Process(Process(actors, c, apply).actors, d, apply);
            var dc := Process(Process(actors, d, apply).actors, c, apply);
            && cd.actors == dc.actors
            && cd.results == Process(actors, d, apply).results && dc.results == Process(actors, c, apply).results
  {
    if Live(actors, c) && Live(actors, d) {
      var x := apply(actors[c.actor], c).actor.(lastSequence := c.sequence);
      var y := apply(actors[d.actor], d).actor.(lastSequence := d.sequence);
      UpdatesCommute(actors, c.actor, x, d.actor, y);
    }
  }

  lemma UpdatesCommute<V>(m: map<int, V>, k: int, x: V, l: int, y: V)
    requires k != l
    ensures m[k := x][l := y] == m[l := y][k := x]
  {
  }

  lemma {:induction false} MovePast(actors: Actors, c: Command, s: seq<Command>, apply: Applier)
    requires forall d :: d in s ==> d.actor != c.actor
    ensures var first := Process(actors, c, apply);
            var other := ProcessAll(actors, s, apply);
            && ProcessAll(first.actors, s, apply).actors == Process(other.actors, c, apply).actors
            && ProcessAll(first.actors, s, apply).results == other.results
            && Process(other.actors, c, apply).results == first.results
    decreases s
  {
    if s != [] {
      SwapTwo(actors, c, s[0], apply);
      MovePast(Process(actors, s[0], apply).actors, c, s[1..], apply);
    }
  }

  /** Moving the commands picked by `early` to the front, past other actors' commands only, changes nothing. */
  lemma {:induction false} EarlyFirst(actors: Actors, s: seq<Command>, early: Command -> bool, late: Command -> bool,
                                      apply: Applier)
    requires forall c :: late(c) == !early(c)
    requires forall i, j :: 0 <= i < j < |s| && late(s[i]) && early(s[j]) ==> s[i].actor != s[j].actor
    ensures Agree(ProcessAll(actors, s, apply), ProcessAll(actors, Filter(s, early) + Filter(s, late), apply))
    decreases s
  {
    if s != [] {
      var c, rest := s[0], s[1..];
      var first, front, back := Process(actors, c, apply), Filter(rest, early), Filter(rest, late);
      EarlyFirst(first.actors, rest, early, late, apply);
      forall d | late(c) && d in front ensures d.actor != c.actor {
        var j :| 0 <= j < |rest| && rest[j] == d;
        assert s[j + 1] == d;
      }
      FirstInPlace(actors, c, front, back, early(c), apply);
      FirstIsFiltered(s, early, late);
      SameAfter(first.results, ProcessAll(first.actors, rest, apply), ProcessAll(first.actors, front + back, apply));
    }
  }

  lemma FirstIsFiltered<T(!new)>(s: seq<T>, early: T -> bool, late: T -> bool)
    requires s != [] && late(s[0]) == !early(s[0])
    ensures var front, back := Filter(s[1..], early), Filter(s[1..], late);
            Filter(s, early) + Filter(s, late) ==
            if early(s[0]) then [s[0]] + (front + back) else front + ([s[0]] + back)
  {
  }

  lemma FirstInPlace(actors: Actors, c: Command, front: seq<Command>, back: seq<Command>, early: bool, apply: Applier)
    requires forall d :: !early && d in front ==> d.actor != c.actor
    ensures var first := Process(actors, c, apply);
            var rest := ProcessAll(first.actors, front + back, apply);
            Agree(Outcome(rest.actors, first.results + rest.results),
                  ProcessAll(actors, if early then [c] + (front + back) else front + ([c] + back), apply))
  {
    if early {
      KeepInFront(actors, c, front, back, apply);
    } else {
      MoveToBack(actors, c, front, back, apply);
    }
  }

  lemma SameAfter(results: seq<InventoryResult>, a: Outcome, b: Outcome)
    requires Agree(a, b)
    ensures Agree(Outcome(a.actors, results + a.results), Outcome(b.actors, results + b.results))
  {
  }

  lemma KeepInFront(actors: Actors, c: Command, front: seq<Command>, back: seq<Command>, apply: Applier)
    ensures var first := Process(actors, c, apply);
            var rest := ProcessAll(first.actors, front + back, apply);
            Outcome(rest.actors, first.results + rest.results) == ProcessAll(actors, [c] + (front + back), apply)
  {
    ProcessAppend(actors, [c], front + back, apply);
    ProcessOne(actors, c, apply);
  }

  lemma MoveToBack(actors: Actors, c: Command, front: seq<Command>, back: seq<Command>, apply: Applier)
    requires forall d :: d in front ==> d.actor != c.actor
    ensures var first := Process(actors, c, apply);
            var rest := ProcessAll(first.actors, front + back, apply);
            Agree(Outcome(rest.actors, first.results + rest.results), ProcessAll(actors, front + ([c] + back), apply))
  {
    var first, fronted := Process(actors, c, apply), ProcessAll(actors, front, apply);
    MovePast(actors, c, front, apply);
    ProcessAppend(first.actors, front, back, apply);
    ProcessAppend(actors, front, [c] + back, apply);
    ProcessAppend(fronted.actors, [c], back, apply);
    ProcessOne(fronted.actors, c, apply);
  }

  /** Sequences at or below the actor's watermark. */
  function UpTo(watermark: int -> int): Command -> bool
  {
    (c: Command) => c.sequence <= watermark(c.actor)
  }

  /**
   Cutting a stream at any per-actor sequence watermark and resolving the two parts one after
   the other gives the same final actors and the same results as one batch.
   */
  lemma CutsAreInvisible(render: Render, actors: Actors, batch: seq<Command>, watermark: int -> int, apply: Applier)
    ensures var early := UpTo(watermark);
            var first := Resolve(render, actors, Filter(batch, early), apply);
            var second := Resolve(render, first.actors, Filter(batch, c => !early(c)), apply);
            Agree(Resolve(render, actors, batch, apply), Outcome(second.actors, first.results + second.results))
  {
    var le, early := NotAfter(render), UpTo(watermark);
    var late := c => !early(c);
    var sorted := SortBy(batch, le);
    CommandPreorder(render);
    SortSorted(batch, le);
    forall i, j | 0 <= i < j < |sorted| && !early(sorted[i])
        && early(sorted[j]) ensures sorted[i].actor != sorted[j].actor {
      assert le(sorted[i], sorted[j]);
    }
    EarlyFirst(actors, sorted, early, late, apply);
    FilterSort(batch, le, early);
    FilterSort(batch, le, late);
    ProcessAppend(actors, SortBy(Filter(batch, early), le), SortBy(Filter(batch, late), le), apply);
  }
}
