/**
 * The World of lib/game/ecs/World.ts: an entity/component store with a
 * counter-allocated id space, and the ordered schedule of systems it drives.
 */
module Ecs {
  import opened Common
  import opened Decimal
  import opened Components
  import opened Systems
  import opened Schedule

  type EntityId = int

  /** Whether `components` holds every tag of `tags` (`componentTypes.every(...)`). */
  predicate HasAll(components: map<string, Component>, tags: seq<string>) {
    forall t :: t in tags ==> t in components
  }

  /** The systems whose cleanup hook is defined, in schedule order. */
  function WithCleanup(ss: seq<System>): seq<System>
    decreases |ss|
  {
    if ss == [] then []
    else WithCleanup(ss[..|ss| - 1]) + (if ss[|ss| - 1].hasCleanup then [ss[|ss| - 1]] else [])
  }

  /**
   * The systems whose `update` one frame calls: the enabled ones in schedule order, up
   * to and including the first enabled one that throws (the exception aborts the rest).
   */
  function RunTrace(ss: seq<System>, failing: set<System>): seq<System>
    reads ss
    decreases |ss|
  {
    if ss == [] then []
    else if !ss[0].enabled then RunTrace(ss[1..], failing)
    else if ss[0] in failing then [ss[0]]
    else [ss[0]] + RunTrace(ss[1..], failing)
  }

  /** Whether some enabled system of `ss` throws from its update. */
  predicate AnyFails(ss: seq<System>, failing: set<System>)
    reads ss
  {
    exists i :: 0 <= i < |ss| && ss[i].enabled && ss[i] in failing
  }

  /** The enabled systems of `ss`, in schedule order. */
  function EnabledOf(ss: seq<System>): seq<System>
    reads ss
    decreases |ss|
  {
    if ss == [] then [] else (if ss[0].enabled then [ss[0]] else []) + EnabledOf(ss[1..])
  }

  lemma {:induction false} EnabledOfMembers(ss: seq<System>)
    ensures forall s :: s in EnabledOf(ss) <==> s in ss && s.enabled
    decreases |ss|
  {
    if ss != [] {
      EnabledOfMembers(ss[1..]);
      assert forall s :: s in ss <==> s == ss[0] || s in ss[1..];
    }
  }

  /**
   * A frame calls `update` on exactly the enabled systems, in schedule order, when no
   * update throws; a trace ends with a throwing system exactly when some update throws.
   */
  lemma {:induction false} RunTraceSpec(ss: seq<System>, failing: set<System>)
    ensures forall s :: s in RunTrace(ss, failing) ==> s in ss && s.enabled
    ensures !AnyFails(ss, failing) ==> RunTrace(ss, failing) == EnabledOf(ss)
    ensures AnyFails(ss, failing) <==>
              RunTrace(ss, failing) != [] && RunTrace(ss, failing)[|RunTrace(ss, failing)| - 1] in failing
    decreases |ss|
  {
    if ss != [] {
      RunTraceSpec(ss[1..], failing);
      assert forall i :: 1 <= i < |ss| ==> ss[i] == ss[1..][i - 1];
      if AnyFails(ss[1..], failing) {
        var i :| 0 <= i < |ss[1..]| && ss[1..][i].enabled && ss[1..][i] in failing;
        assert ss[i + 1] == ss[1..][i];
      }
      if ss[0].enabled && ss[0] !in failing && RunTrace(ss[1..], failing) != [] {
        var t := RunTrace(ss[1..], failing);
        assert ([ss[0]] + t)[|t|] == t[|t| - 1];
      }
      if AnyFails(ss, failing) && !(ss[0].enabled && ss[0] in failing) {
        var i :| 0 <= i < |ss| && ss[i].enabled && ss[i] in failing;
        assert i > 0 && ss[1..][i - 1] == ss[i];
      }
    }
    if !AnyFails(ss, failing) {
      RunTraceNoFailure(ss, failing);
    }
  }

  lemma {:induction false} RunTraceNoFailure(ss: seq<System>, failing: set<System>)
    requires !AnyFails(ss, failing)
    ensures RunTrace(ss, failing) == EnabledOf(ss)
    decreases |ss|
  {
    if ss != [] {
      var rest := ss[1..];
      assert !(ss[0].enabled && ss[0] in failing);
      assert !AnyFails(rest, failing) by {
        forall i | 0 <= i < |rest|
          ensures !(rest[i].enabled && rest[i] in failing)
        {
          assert rest[i] == ss[i + 1];
        }
      }
      RunTraceNoFailure(rest, failing);
    }
  }

  /**
   * When `ss[k]` is the first enabled system whose update throws, the frame calls
   * `update` on exactly the enabled systems up to and including it.
   */
  lemma {:induction false} RunTraceStopsAtFirstFailure(ss: seq<System>, failing: set<System>, k: nat)
    requires k < |ss| && ss[k].enabled && ss[k] in failing
    requires !AnyFails(ss[..k], failing)
    ensures RunTrace(ss, failing) == EnabledOf(ss[..k + 1])
    decreases k
  {
    var pre := ss[..k + 1];
    assert pre[0] == ss[0];
    if k == 0 {
      assert pre[1..] == [];
    } else {
      assert !(ss[0].enabled && ss[0] in failing) by {
        assert ss[..k][0] == ss[0];
      }
      var rest := ss[1..];
      var restPre, ssPre := rest[..k - 1], ss[..k];
      assert !AnyFails(restPre, failing) by {
        forall i | 0 <= i < |restPre|
          ensures !(restPre[i].enabled && restPre[i] in failing)
        {
          assert restPre[i] == ssPre[i + 1];
        }
      }
      assert rest[k - 1] == ss[k];
      RunTraceStopsAtFirstFailure(rest, failing, k - 1);
      assert pre[1..] == rest[..k];
    }
  }

  /** A frame over a sorted schedule updates its systems in sorted order. */
  lemma {:induction false} RunTraceSorted(ss: seq<System>, failing: set<System>)
    requires Sorted(ss)
    ensures Sorted(RunTrace(ss, failing))
    decreases |ss|
  {
    if ss != [] {
      var rest := ss[1..];
      assert Sorted(rest) by {
        forall i, j | 0 <= i < j < |rest|
          ensures KeyLe(Key(rest[i]), Key(rest[j]))
        {
          assert rest[i] == ss[i + 1] && rest[j] == ss[j + 1];
        }
      }
      RunTraceSorted(rest, failing);
      RunTraceSpec(rest, failing);
      if ss[0].enabled && ss[0] !in failing {
        var t := RunTrace(rest, failing);
        forall j | 0 <= j < |t|
          ensures KeyLe(Key(ss[0]), Key(t[j]))
        {
          assert t[j] in rest;
          var m :| 0 <= m < |rest| && rest[m] == t[j];
          assert ss[m + 1] == t[j];
        }
        var r := [ss[0]] + t;
        forall i, j | 0 <= i < j < |r|
          ensures KeyLe(Key(r[i]), Key(r[j]))
        {
          if i == 0 {
            assert r[j] == t[j - 1];
          } else {
            assert r[i] == t[i - 1] && r[j] == t[j - 1];
          }
        }
      }
    }
  }

  class World {
    /** Each existing entity's components, keyed by tag. */
    var entities: map<EntityId, map<string, Component>>
    /** The existing entities in the order the store's map iterates them (creation order). */
    var ids: seq<EntityId>
    /** The schedule, kept in (group, priority) order. */
    var systems: seq<System>
    var nextId: EntityId

    ghost predicate Valid()
      reads this
    {
      1 <= nextId
      && (forall e :: e in entities <==> e in ids)
      && (forall i, j :: 0 <= i < j < |ids| ==> ids[i] < ids[j])
      && (forall i :: 0 <= i < |ids| ==> 1 <= ids[i] < nextId)
      && Sorted(systems)
    }

    constructor ()
      ensures Valid()
      ensures entities == map[] && ids == [] && systems == [] && nextId == 1
    {
      entities, ids, systems, nextId := map[], [], [], 1;
    }

    /**
     * createEntity: the id is the counter's value, larger than every existing id (so never
     * reused), and the new entity has no components.
     */
    method CreateEntity() returns (id: EntityId)
      requires Valid()
      modifies this
      ensures Valid()
      ensures id == old(nextId) && nextId == id + 1
      ensures id !in old(entities) && forall e :: e in old(entities) ==> e < id
      ensures entities == old(entities)[id := map[]]
      ensures ids == old(ids) + [id]
      ensures systems == old(systems)
    {
      id := nextId;
      nextId := nextId + 1;
      entities := entities[id := map[]];
      ids := ids + [id];
    }

    /** removeEntity: true iff the entity existed; afterwards it and all its components are gone. */
    method RemoveEntity(id: EntityId) returns (removed: bool)
      requires Valid()
      modifies this
      ensures Valid()
      ensures removed == (id in old(entities))
      ensures entities == old(entities) - {id}
      ensures !HasEntity(id) && forall t :: GetComponent(id, t) == None
      ensures nextId == old(nextId) && systems == old(systems)
    {
      removed := id in entities;
      if removed {
        var i := IndexOf(ids, id);
        ids := RemoveAt(ids, i);
        entities := entities - {id};
      }
    }

    predicate HasEntity(id: EntityId)
      reads this
    {
      id in entities
    }

    /** hasEntity holds exactly for the ids listed by getAllEntityIds, all issued by the counter. */
    lemma HasEntitySpec(id: EntityId)
      requires Valid()
      ensures HasEntity(id) <==> id in ids
      ensures HasEntity(id) ==> 1 <= id < nextId
    {
    }

    /**
     * addComponent: fails with "Entity N does not exist" for a missing entity; otherwise
     * stores the component under its tag, replacing any component with that tag.
     */
    method AddComponent(id: EntityId, c: Component) returns (r: Outcome)
      requires Valid()
      modifies this
      ensures Valid()
      ensures r == (if id in old(entities) then Pass
                    else Fail("Entity " + IntToString(id) + " does not exist"))
      ensures r.Pass? ==> entities == old(entities)[id := old(entities)[id][Tag(c) := c]]
      ensures r.Fail? ==> entities == old(entities)
      ensures ids == old(ids) && nextId == old(nextId) && systems == old(systems)
    {
      if id !in entities {
        return Fail("Entity " + IntToString(id) + " does not exist");
      }
      entities := entities[id := entities[id][Tag(c) := c]];
      r := Pass;
    }

    /** removeComponent: true iff the entity exists and has the tag; exactly that tag is removed. */
    method RemoveComponent(id: EntityId, tag: string) returns (removed: bool)
      requires Valid()
      modifies this
      ensures Valid()
      ensures removed == HasComponent(old(entities), id, tag)
      ensures removed ==> entities == old(entities)[id := old(entities)[id] - {tag}]
      ensures !removed ==> entities == old(entities)
      ensures ids == old(ids) && nextId == old(nextId) && systems == old(systems)
    {
      if id !in entities {
        return false;
      }
      removed := tag in entities[id];
      if removed {
        entities := entities[id := entities[id] - {tag}];
      }
    }

    /** getComponent: the component under `tag`, or none when the entity or the tag is missing. */
    function GetComponent(id: EntityId, tag: string): (r: Option<Component>)
      reads this
      ensures r.Some? <==> id in entities && tag in entities[id]
      ensures r.Some? ==> r.value == entities[id][tag]
    {
      if id !in entities then None
      else if tag !in entities[id] then None
      else Some(entities[id][tag])
    }

    static predicate HasComponent(store: map<EntityId, map<string, Component>>, id: EntityId, tag: string) {
      id in store && tag in store[id]
    }

    predicate HasComponents(id: EntityId, tags: seq<string>)
      reads this
    {
      id in entities && HasAll(entities[id], tags)
    }

    /**
     * The queries agree: hasComponent holds exactly when getComponent finds something, and
     * hasComponents exactly when the entity exists and getComponent finds every tag.
     */
    lemma QueriesAgree(id: EntityId, tags: seq<string>)
      ensures forall t :: HasComponent(entities, id, t) <==> GetComponent(id, t).Some?
      ensures HasComponents(id, tags) <==> HasEntity(id) && forall t :: t in tags ==> GetComponent(id, t).Some?
      ensures tags == [] ==> (HasComponents(id, tags) <==> HasEntity(id))
    {
    }

    /**
     * getEntitiesWithComponents: exactly the existing entities that hold every tag, in
     * creation order.
     */
    method GetEntitiesWithComponents(tags: seq<string>) returns (r: seq<EntityId>)
      requires Valid()
      ensures forall e :: e in r <==> HasComponents(e, tags)
      ensures forall i, j :: 0 <= i < j < |r| ==> r[i] < r[j]
    {
      r := [];
      var i := 0;
      while i < |ids|
        invariant 0 <= i <= |ids|
        invariant forall e :: e in r <==> e in ids[..i] && HasComponents(e, tags)
        invariant forall a, b :: 0 <= a < b < |r| ==> r[a] < r[b]
        invariant i < |ids| ==> forall a :: 0 <= a < |r| ==> r[a] < ids[i]
      {
        var e := ids[i];
        ghost var r0 := r;
        if HasAll(entities[e], tags) {
          r := r + [e];
        }
        if i + 1 < |ids| {
          assert e < ids[i + 1];
          forall a | 0 <= a < |r|
            ensures r[a] < ids[i + 1]
          {
            if a < |r0| { assert r[a] == r0[a] && r0[a] < e; }
          }
        }
        assert ids[..i + 1] == ids[..i] + [e];
        i := i + 1;
      }
      assert ids[..i] == ids;
    }

    /** getAllEntityIds: every existing entity once, in creation (ascending) order. */
    function GetAllEntityIds(): (r: seq<EntityId>)
      requires Valid()
      reads this
      ensures forall e :: e in r <==> e in entities
      ensures forall i, j :: 0 <= i < j < |r| ==> r[i] < r[j]
    {
      ids
    }

    /** getEntityCount: the number of existing entities, which is the length of getAllEntityIds. */
    function GetEntityCount(): (n: nat)
      requires Valid()
      reads this
      ensures n == |GetAllEntityIds()|
    {
      DistinctCard(ids, entities.Keys);
      |entities|
    }

    /**
     * addSystem: pushes the system and re-sorts the schedule stably by (group, priority);
     * reports whether the system's optional initialize hook runs.
     */
    method AddSystem(s: System) returns (initialized: bool)
      requires Valid()
      modifies this
      ensures Valid()
      ensures systems == StableSort(old(systems) + [s])
      ensures multiset(systems) == multiset(old(systems)) + multiset{s}
      ensures exists n :: 0 <= n <= |old(systems)|
                && systems == old(systems)[..n] + [s] + old(systems)[n..]
                && (forall i :: 0 <= i < n ==> KeyLe(Key(old(systems)[i]), Key(s)))
                && (forall i :: n <= i < |old(systems)| ==> !KeyLe(Key(old(systems)[i]), Key(s)))
      ensures initialized == s.hasInitialize
      ensures entities == old(entities) && ids == old(ids) && nextId == old(nextId)
    {
      var n := PushThenSortInserts(systems, s);
      StableSortCorrect(systems + [s]);
      systems := StableSort(systems + [s]);
      initialized := s.hasInitialize;
    }

    /**
     * removeSystem: a registered system's cleanup hook runs and its first occurrence
     * leaves the schedule; an unregistered system changes nothing.
     */
    method RemoveSystem(s: System) returns (cleanedUp: bool)
      requires Valid()
      modifies this
      ensures Valid()
      ensures s !in old(systems) ==> systems == old(systems) && !cleanedUp
      ensures s in old(systems) ==> cleanedUp == s.hasCleanup
      ensures s in old(systems) ==> systems == RemoveAt(old(systems), IndexOf(old(systems), s))
      ensures entities == old(entities) && ids == old(ids) && nextId == old(nextId)
    {
      var i := IndexOf(systems, s);
      cleanedUp := false;
      if i != -1 {
        cleanedUp := s.hasCleanup;
        systems := RemoveAt(systems, i);
      }
    }

    /** getSystems: the schedule, in (group, priority) order. */
    function GetSystems(): (r: seq<System>)
      requires Valid()
      reads this
      ensures Sorted(r)
    {
      systems
    }

    /**
     * updateSystems: calls `update` on the enabled systems in schedule order and skips the
     * disabled ones, which stay registered; an update that throws aborts the rest of the
     * frame (`failing` names the systems whose update throws this frame).
     */
    method UpdateSystems(failing: set<System>) returns (ran: seq<System>, aborted: bool)
      requires Valid()
      ensures ran == RunTrace(systems, failing)
      ensures aborted <==> AnyFails(systems, failing)
    {
      ran, aborted := [], false;
      var i := 0;
      while i < |systems|
        invariant 0 <= i <= |systems|
        invariant ran + RunTrace(systems[i..], failing) == RunTrace(systems, failing)
        invariant !AnyFails(systems[..i], failing)
      {
        var s := systems[i];
        assert systems[i..] == [s] + systems[i + 1..];
        if s.enabled {
          ran := ran + [s];
          if s in failing {
            RunTraceSpec(systems, failing);
            return ran, true;
          }
        }
        assert forall k :: 0 <= k <= i ==> systems[..i + 1][k] == systems[k];
        assert !AnyFails(systems[..i + 1], failing) by {
          assert forall k :: 0 <= k < i ==> systems[..i + 1][k] == systems[..i][k];
        }
        i := i + 1;
      }
      assert systems[..i] == systems;
    }

    /**
     * clear: runs every system's cleanup hook in schedule order, then empties the store and
     * the schedule and restarts ids at 1.
     */
    method Clear() returns (cleanedUp: seq<System>)
      requires Valid()
      modifies this
      ensures Valid()
      ensures cleanedUp == WithCleanup(old(systems))
      ensures entities == map[] && ids == [] && systems == [] && nextId == 1
    {
      cleanedUp := [];
      var i := 0;
      while i < |systems|
        invariant 0 <= i <= |systems|
        invariant cleanedUp == WithCleanup(systems[..i])
      {
        assert systems[..i + 1][..i] == systems[..i];
        if systems[i].hasCleanup {
          cleanedUp := cleanedUp + [systems[i]];
        }
        i := i + 1;
      }
      assert systems[..i] == systems;
      entities, ids, systems, nextId := map[], [], [], 1;
    }
  }

  /** A sequence without repeats has as many elements as the set of its elements. */
  lemma {:induction false} DistinctCard(s: seq<EntityId>, keys: set<EntityId>)
    requires forall i, j :: 0 <= i < j < |s| ==> s[i] < s[j]
    requires forall e :: e in keys <==> e in s
    ensures |keys| == |s|
    decreases |s|
  {
    if s != [] {
      var init, last := s[..|s| - 1], s[|s| - 1];
      assert s == init + [last];
      assert last !in init by {
        forall i | 0 <= i < |init| ensures init[i] < last {
          assert init[i] == s[i];
        }
      }
      forall e
        ensures e in keys - {last} <==> e in init
      {
        if e in init { assert e in s; }
      }
      DistinctCard(init, keys - {last});
      assert last in keys;
    } else {
      assert forall e :: e !in keys;
      assert keys == {};
    }
  }
}
