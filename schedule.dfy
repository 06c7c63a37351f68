/**
 * The system schedule order of World._sortSystems (lib/game/ecs/World.ts): systems are
 * ordered by execution group (input, logic, physics, render) and then by ascending
 * priority, with a STABLE sort, as ECMA-262 requires of Array.prototype.sort since
 * its 2019 edition. `StableSort` is a reference stable sort; the lemmas show that its
 * result is sorted, keeps every key's systems in their original relative order, is a
 * permutation, and is the only result with those properties.
 */
module Schedule {
  import opened Systems

  /** The sort key compared by the schedule comparator. */
  datatype SortKey = SortKey(rank: int, priority: int)

  function Key(s: System): SortKey {
    SortKey(Rank(s.group), s.priority)
  }

  /** The comparator's "not after": lower group rank first, then lower priority. */
  predicate KeyLe(a: SortKey, b: SortKey) {
    a.rank < b.rank || (a.rank == b.rank && a.priority <= b.priority)
  }

  predicate Sorted(ss: seq<System>) {
    forall i, j :: 0 <= i < j < |ss| ==> KeyLe(Key(ss[i]), Key(ss[j]))
  }

  /** The systems of `ss` whose key is `k`, in their order in `ss`. */
  function WithKey(ss: seq<System>, k: SortKey): seq<System>
    decreases |ss|
  {
    if ss == [] then []
    else WithKey(ss[..|ss| - 1], k) + (if Key(ss[|ss| - 1]) == k then [ss[|ss| - 1]] else [])
  }

  /**
   * One step of a stable insertion sort: scanning from the end, `x` goes right after
   * the last system whose key is not after its own.
   */
  function Insert(ss: seq<System>, x: System): seq<System>
    decreases |ss|
  {
    if ss == [] then [x]
    else if KeyLe(Key(ss[|ss| - 1]), Key(x)) then ss + [x]
    else Insert(ss[..|ss| - 1], x) + [ss[|ss| - 1]]
  }

  /** A reference stable sort by schedule key. */
  function StableSort(ss: seq<System>): seq<System>
    decreases |ss|
  {
    if ss == [] then [] else Insert(StableSort(ss[..|ss| - 1]), ss[|ss| - 1])
  }

  lemma {:induction false} WithKeyMember(ss: seq<System>, k: SortKey, e: System)
    requires e in WithKey(ss, k)
    ensures e in ss && Key(e) == k
    decreases |ss|
  {
    if ss != [] {
      if e in WithKey(ss[..|ss| - 1], k) {
        WithKeyMember(ss[..|ss| - 1], k, e);
      }
    }
  }

  lemma {:induction false} InsertMultiset(ss: seq<System>, x: System)
    ensures multiset(Insert(ss, x)) == multiset(ss) + multiset{x}
    decreases |ss|
  {
    if ss != [] && !KeyLe(Key(ss[|ss| - 1]), Key(x)) {
      InsertMultiset(ss[..|ss| - 1], x);
      assert ss == ss[..|ss| - 1] + [ss[|ss| - 1]];
    }
  }

  lemma {:induction false} InsertSorted(ss: seq<System>, x: System)
    requires Sorted(ss)
    ensures Sorted(Insert(ss, x))
    decreases |ss|
  {
    if ss != [] && !KeyLe(Key(ss[|ss| - 1]), Key(x)) {
      var init, last := ss[..|ss| - 1], ss[|ss| - 1];
      InsertSorted(init, x);
      InsertMultiset(init, x);
      var r := Insert(init, x);
      forall i | 0 <= i < |r|
        ensures KeyLe(Key(r[i]), Key(last))
      {
        assert r[i] in multiset(r);
        if r[i] != x {
          assert r[i] in multiset(init);
        }
      }
    }
  }

  /** Inserting adds `x` at the end of its key's subsequence and leaves every other key's alone. */
  lemma {:induction false} InsertWithKey(ss: seq<System>, x: System, k: SortKey)
    ensures WithKey(Insert(ss, x), k) == WithKey(ss, k) + (if Key(x) == k then [x] else [])
    decreases |ss|
  {
    if ss == [] {
      WithKeySnoc([], x, k);
      assert [] + [x] == [x];
    } else if KeyLe(Key(ss[|ss| - 1]), Key(x)) {
      WithKeySnoc(ss, x, k);
    } else {
      var init, last := ss[..|ss| - 1], ss[|ss| - 1];
      InsertWithKey(init, x, k);
      WithKeySnoc(Insert(init, x), last, k);
      WithKeySnoc(init, last, k);
      assert ss == init + [last];
      // `last` sorts strictly after `x`, so at most one of the two has key `k`.
      assert Key(last) != Key(x);
    }
  }

  lemma WithKeySnoc(ss: seq<System>, e: System, k: SortKey)
    ensures WithKey(ss + [e], k) == WithKey(ss, k) + (if Key(e) == k then [e] else [])
  {
    assert (ss + [e])[..|ss|] == ss;
  }

  /** The reference sort is sorted, a permutation, and stable: each key's systems keep their order. */
  lemma {:induction false} StableSortCorrect(ss: seq<System>)
    ensures Sorted(StableSort(ss))
    ensures multiset(StableSort(ss)) == multiset(ss)
    ensures forall k :: WithKey(StableSort(ss), k) == WithKey(ss, k)
    decreases |ss|
  {
    if ss != [] {
      var init, last := ss[..|ss| - 1], ss[|ss| - 1];
      StableSortCorrect(init);
      InsertSorted(StableSort(init), last);
      InsertMultiset(StableSort(init), last);
      assert ss == init + [last];
      forall k
        ensures WithKey(StableSort(ss), k) == WithKey(ss, k)
      {
        InsertWithKey(StableSort(init), last, k);
      }
    }
  }

  /**
   * A sorted sequence is determined by its per-key subsequences: any two sorted
   * sequences that agree on every key's subsequence are equal. So every stable sort
   * of the same input yields the same schedule.
   */
  lemma {:induction false} SortedUnique(a: seq<System>, b: seq<System>)
    requires Sorted(a) && Sorted(b)
    requires forall k :: WithKey(a, k) == WithKey(b, k)
    ensures a == b
    decreases |a| + |b|
  {
    if a == [] || b == [] {
      var s := if a == [] then b else a;
      forall k
        ensures WithKey(s, k) == []
      {
        assert WithKey(a, k) == WithKey(b, k);
      }
      NoKeysIsEmpty(s);
      return;
    }
    var a', b' := a[..|a| - 1], b[..|b| - 1];
    var la, lb := a[|a| - 1], b[|b| - 1];
    assert WithKey(a, Key(la)) == WithKey(b, Key(la));
    assert WithKey(a, Key(lb)) == WithKey(b, Key(lb));
    LastsAgree(a, b);
    forall k
      ensures WithKey(a', k) == WithKey(b', k)
    {
      assert WithKey(a, k) == WithKey(b, k);
      InitsAgree(a, b, k);
    }
    SortedUnique(a', b');
    assert a == a' + [la] && b == b' + [lb];
  }

  /** The last element of a sorted sequence has the largest key among those present. */
  lemma {:induction false} LastIsMax(a: seq<System>, e: System)
    requires Sorted(a) && a != [] && e in a
    ensures KeyLe(Key(e), Key(a[|a| - 1]))
  {
    var i :| 0 <= i < |a| && a[i] == e;
    if i < |a| - 1 {
      assert KeyLe(Key(a[i]), Key(a[|a| - 1]));
    }
  }

  /**
   * Two non-empty sorted sequences that agree on the subsequences of their last
   * systems' keys end with the same system.
   */
  lemma {:induction false} LastsAgree(a: seq<System>, b: seq<System>)
    requires Sorted(a) && Sorted(b) && a != [] && b != []
    requires WithKey(a, Key(a[|a| - 1])) == WithKey(b, Key(a[|a| - 1]))
    requires WithKey(a, Key(b[|b| - 1])) == WithKey(b, Key(b[|b| - 1]))
    ensures a[|a| - 1] == b[|b| - 1]
  {
    var la, lb := a[|a| - 1], b[|b| - 1];
    var ka, kb := Key(la), Key(lb);
    assert WithKey(a, ka) == WithKey(a[..|a| - 1], ka) + [la];
    assert WithKey(b, kb) == WithKey(b[..|b| - 1], kb) + [lb];
    assert la in WithKey(b, ka);
    assert lb in WithKey(a, kb);
    WithKeyMember(b, ka, la);
    WithKeyMember(a, kb, lb);
    LastIsMax(b, la);
    LastIsMax(a, lb);
    assert ka == kb;
    var w := WithKey(a, ka);
    assert w[|w| - 1] == la;
    assert w[|w| - 1] == lb;
  }

  /** Dropping a common last system keeps a key's subsequences equal. */
  lemma {:induction false} InitsAgree(a: seq<System>, b: seq<System>, k: SortKey)
    requires a != [] && b != [] && a[|a| - 1] == b[|b| - 1]
    requires WithKey(a, k) == WithKey(b, k)
    ensures WithKey(a[..|a| - 1], k) == WithKey(b[..|b| - 1], k)
  {
    var l := a[|a| - 1];
    var wa, wb := WithKey(a[..|a| - 1], k), WithKey(b[..|b| - 1], k);
    if Key(l) == k {
      assert WithKey(a, k) == wa + [l];
      assert WithKey(b, k) == wb + [l];
      assert (wa + [l])[..|wa|] == wa;
      assert (wb + [l])[..|wb|] == wb;
    } else {
      assert WithKey(a, k) == wa + [] == wa;
      assert WithKey(b, k) == wb + [] == wb;
    }
  }

  lemma {:induction false} NoKeysIsEmpty(s: seq<System>)
    requires forall k :: WithKey(s, k) == []
    ensures s == []
  {
    if s != [] {
      var k := Key(s[|s| - 1]);
      assert WithKey(s, k) == WithKey(s[..|s| - 1], k) + [s[|s| - 1]];
    }
  }

  /** Sorting an already sorted schedule changes nothing. */
  lemma SortedFixed(ss: seq<System>)
    requires Sorted(ss)
    ensures StableSort(ss) == ss
  {
    StableSortCorrect(ss);
    SortedUnique(StableSort(ss), ss);
  }

  /**
   * Pushing `x` onto a sorted schedule and re-sorting stably inserts `x` right after
   * every system whose key is at most its own: at the index `n` that splits the
   * schedule into the systems not after `x` and the systems strictly after it.
   */
  lemma {:induction false} PushThenSortInserts(ss: seq<System>, x: System) returns (n: nat)
    requires Sorted(ss)
    ensures n <= |ss|
    ensures StableSort(ss + [x]) == ss[..n] + [x] + ss[n..]
    ensures forall i :: 0 <= i < n ==> KeyLe(Key(ss[i]), Key(x))
    ensures forall i :: n <= i < |ss| ==> !KeyLe(Key(ss[i]), Key(x))
  {
    assert (ss + [x])[..|ss|] == ss;
    SortedFixed(ss);
    n := InsertSplit(ss, x);
  }

  lemma {:induction false} InsertSplit(ss: seq<System>, x: System) returns (n: nat)
    requires Sorted(ss)
    ensures n <= |ss|
    ensures Insert(ss, x) == ss[..n] + [x] + ss[n..]
    ensures forall i :: 0 <= i < n ==> KeyLe(Key(ss[i]), Key(x))
    ensures forall i :: n <= i < |ss| ==> !KeyLe(Key(ss[i]), Key(x))
    decreases |ss|
  {
    if ss == [] {
      n := 0;
    } else if KeyLe(Key(ss[|ss| - 1]), Key(x)) {
      n := |ss|;
      assert ss[..n] == ss && ss[n..] == [];
      AllNotAfter(ss, x);
    } else {
      var init, last := ss[..|ss| - 1], ss[|ss| - 1];
      SortedInit(ss);
      n := InsertSplit(init, x);
      SnocSplit(init, last, n);
      assert ss == init + [last];
      AfterSplit(ss, init, x, n);
    }
  }

  lemma {:induction false} SortedInit(ss: seq<System>)
    requires Sorted(ss) && ss != []
    ensures Sorted(ss[..|ss| - 1])
  {
    var init := ss[..|ss| - 1];
    forall i, j | 0 <= i < j < |init|
      ensures KeyLe(Key(init[i]), Key(init[j]))
    {
      assert init[i] == ss[i] && init[j] == ss[j];
    }
  }

  /** When the last system of a sorted schedule is not after `x`, no system is. */
  lemma {:induction false} AllNotAfter(ss: seq<System>, x: System)
    requires Sorted(ss) && ss != [] && KeyLe(Key(ss[|ss| - 1]), Key(x))
    ensures forall i :: 0 <= i < |ss| ==> KeyLe(Key(ss[i]), Key(x))
  {
    forall i | 0 <= i < |ss|
      ensures KeyLe(Key(ss[i]), Key(x))
    {
      if i < |ss| - 1 {
        assert KeyLe(Key(ss[i]), Key(ss[|ss| - 1]));
      }
    }
  }

  /** A split of the prefix whose tail is after `x`, extended by a last system after `x`. */
  lemma {:induction false} AfterSplit(ss: seq<System>, init: seq<System>, x: System, n: nat)
    requires ss != [] && init == ss[..|ss| - 1] && n <= |init|
    requires !KeyLe(Key(ss[|ss| - 1]), Key(x))
    requires forall i :: n <= i < |init| ==> !KeyLe(Key(init[i]), Key(x))
    ensures forall i :: n <= i < |ss| ==> !KeyLe(Key(ss[i]), Key(x))
  {
    forall i | n <= i < |ss|
      ensures !KeyLe(Key(ss[i]), Key(x))
    {
      if i < |init| {
        assert init[i] == ss[i];
      }
    }
  }

  /** Appending `e` and then splitting at `n` splits the original at `n`. */
  lemma SnocSplit(s: seq<System>, e: System, n: nat)
    requires n <= |s|
    ensures (s + [e])[..n] == s[..n]
    ensures (s + [e])[n..] == s[n..] + [e]
  {
  }
}
