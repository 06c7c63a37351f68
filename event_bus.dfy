/**
 * The synchronous publish/subscribe hub of lib/game/events/EventBus.ts: per-type
 * buckets of subscriptions in subscription order, per-listener failure isolation with
 * one aggregated `system:error` event, and a bounded event history.
 *
 * Listeners are arbitrary code; here each subscription carries the `Reaction` its
 * listener has when called: it returns, or it throws an error with a message.
 */
module Events {
  import opened Common
  import opened Decimal

  /** An event: `{type, data, timestamp}`. */
  datatype Event = Event(eventType: string, data: Payload, timestamp: int)

  /** Event payloads: the kinds the core produces, and any other payload it only passes along. */
  datatype Payload =
    | Opaque(value: string)
    | KeyPressed(key: string, code: string, repeat: bool, ctrlKey: bool, shiftKey: bool, altKey: bool)
    | TransitionRequest(targetState: string, context: string)
    | StateChanged(fromState: string, toState: string, context: string)
    | SystemError(originalEvent: Event, errors: seq<string>, listenerCount: nat)

  /** What a listener does when called. */
  datatype Reaction = Returns | Throws(message: string)

  datatype Subscription = Subscription(id: string, eventType: string, listener: Reaction, subscriptionTime: int)

  /** A history entry: the event, the number of listeners it had, and when it was processed. */
  datatype HistoryEntry = HistoryEntry(event: Event, listeners: nat, processedAt: int)

  /**
   * What one `emit` did: the subscriptions whose listener ran (by id, in call order),
   * the errors it collected, whether it added a history entry, the `system:error` event
   * it sent (if any) and the `system:error` subscriptions that received it.
   */
  datatype EmitReport = EmitReport(delivered: seq<string>, errors: seq<string>, recorded: bool,
                                   systemError: Option<Event>, errorDelivered: seq<string>)

  datatype Stats = Stats(totalSubscriptions: nat, eventTypes: nat, historySize: nat, maxHistorySize: int)

  const SystemErrorType: string := "system:error"

  /** The event types the input system and the state manager exchange. */
  const KeyPressedType: string := "input:key_pressed"
  const TransitionRequestType: string := "state:transition_request"
  const StateChangedType: string := "state:changed"

  const DefaultMaxHistorySize: int := 1000

  const IdPrefix: string := "subscription_"

  /** The id of the n-th subscription since the bus was created or cleared. */
  function SubscriptionId(n: nat): string {
    IdPrefix + NatToString(n)
  }

  lemma SubscriptionIdInjective(a: nat, b: nat)
    ensures SubscriptionId(a) == SubscriptionId(b) <==> a == b
  {
    assert SubscriptionId(a)[|IdPrefix|..] == NatToString(a);
    assert SubscriptionId(b)[|IdPrefix|..] == NatToString(b);
    NatToStringInjective(a, b);
  }

  /** The ids handed out by the first `c` subscriptions. */
  ghost function Issued(c: nat): set<string> {
    set n: nat | 1 <= n <= c :: SubscriptionId(n)
  }

  /** The next id is not among those already handed out. */
  lemma NextIdFresh(c: nat)
    ensures SubscriptionId(c + 1) !in Issued(c)
  {
    forall n: nat | 1 <= n <= c
      ensures SubscriptionId(n) != SubscriptionId(c + 1)
    {
      SubscriptionIdInjective(n, c + 1);
    }
  }

  // ------------------------------------------------------------ buckets

  function IdSet(b: seq<Subscription>): set<string> {
    set s | s in b :: s.id
  }

  /** No two subscriptions of `b` share an id (the bucket is a map keyed by id). */
  predicate DistinctIds(b: seq<Subscription>)
    decreases |b|
  {
    b == [] || (b[0].id !in IdSet(b[1..]) && DistinctIds(b[1..]))
  }

  /** The ids of a bucket, in its order. */
  function Ids(b: seq<Subscription>): (r: seq<string>)
    ensures |r| == |b| && forall i :: 0 <= i < |b| ==> r[i] == b[i].id
  {
    seq(|b|, i requires 0 <= i < |b| => b[i].id)
  }

  /** The bucket without the subscription keyed `id` (`Map.delete`). */
  function Without(b: seq<Subscription>, id: string): (r: seq<Subscription>)
    ensures forall s :: s in r <==> s in b && s.id != id
    decreases |b|
  {
    if b == [] then []
    else if b[0].id == id then Without(b[1..], id)
    else [b[0]] + Without(b[1..], id)
  }

  lemma {:induction false} WithoutDistinct(b: seq<Subscription>, id: string)
    requires DistinctIds(b)
    ensures DistinctIds(Without(b, id))
    decreases |b|
  {
    if b != [] {
      WithoutDistinct(b[1..], id);
      var r := Without(b, id);
      if b[0].id != id {
        assert r == [b[0]] + Without(b[1..], id);
        assert r[1..] == Without(b[1..], id);
      }
    }
  }

  lemma {:induction false} AppendDistinct(b: seq<Subscription>, sub: Subscription)
    requires DistinctIds(b) && sub.id !in IdSet(b)
    ensures DistinctIds(b + [sub])
    decreases |b|
  {
    if b != [] {
      assert (b + [sub])[1..] == b[1..] + [sub];
      AppendDistinct(b[1..], sub);
    }
  }

  /**
   * A well-formed bucket of type `t`: non-empty, keyed by distinct ids that the counter
   * `c` has handed out, holding only subscriptions to `t`.
   */
  ghost predicate BucketOk(t: string, b: seq<Subscription>, c: nat) {
    |b| > 0 && DistinctIds(b) && IdSet(b) <= Issued(c)
    && forall s :: s in b ==> s.eventType == t
  }

  /**
   * The listener-map invariant: `types` lists each bucket once, every bucket is
   * well-formed, and no id is in two buckets.
   */
  ghost predicate ListenersOk(types: seq<string>, buckets: map<string, seq<Subscription>>, c: nat) {
    (forall t :: t in buckets <==> t in types)
    && (forall i, j :: 0 <= i < j < |types| ==> types[i] != types[j])
    && (forall t :: t in buckets ==> BucketOk(t, buckets[t], c))
    && (forall t, u :: t in buckets && u in buckets && t != u ==> IdSet(buckets[t]) !! IdSet(buckets[u]))
  }

  lemma IssuedGrows(c: nat)
    ensures Issued(c) <= Issued(c + 1)
  {
  }

  /** Subscribing keeps the invariant: the new id is fresh, so buckets stay keyed and disjoint. */
  lemma {:induction false} SubscribeKeepsOk(types: seq<string>, buckets: map<string, seq<Subscription>>, c: nat, sub: Subscription)
    requires ListenersOk(types, buckets, c)
    requires sub.id == SubscriptionId(c + 1)
    ensures forall t :: t in buckets ==> sub.id !in IdSet(buckets[t])
    ensures var t := sub.eventType;
      ListenersOk(if t in buckets then types else types + [t],
                  buckets[t := (if t in buckets then buckets[t] else []) + [sub]], c + 1)
  {
    var t := sub.eventType;
    var old_b := if t in buckets then buckets[t] else [];
    var types' := if t in buckets then types else types + [t];
    var buckets' := buckets[t := old_b + [sub]];
    NextIdFresh(c);
    IssuedGrows(c);
    assert IdSet(old_b + [sub]) == IdSet(old_b) + {sub.id};
    assert sub.id !in IdSet(old_b) by {
      if t in buckets { assert IdSet(old_b) <= Issued(c); }
    }
    AppendDistinct(old_b, sub);
    forall u | u in buckets'
      ensures BucketOk(u, buckets'[u], c + 1)
    {
      if u != t { assert BucketOk(u, buckets[u], c); }
    }
    forall u | u in buckets
      ensures sub.id !in IdSet(buckets[u])
    {
      assert BucketOk(u, buckets[u], c);
    }
    forall u, v | u in buckets' && v in buckets' && u != v
      ensures IdSet(buckets'[u]) !! IdSet(buckets'[v])
    {
      if u == t {
        assert IdSet(buckets[v]) <= Issued(c);
      } else if v == t {
        assert IdSet(buckets[u]) <= Issued(c);
      }
    }
    assert forall i, j :: 0 <= i < j < |types'| ==> types'[i] != types'[j];
  }

  /** Removing one id from its bucket, and the bucket itself if emptied, keeps the invariant. */
  lemma {:induction false} UnsubscribeKeepsOk(types: seq<string>, buckets: map<string, seq<Subscription>>, c: nat, t: string, id: string)
    requires ListenersOk(types, buckets, c)
    requires t in buckets
    ensures id in IdSet(buckets[t]) ==> forall u :: u in buckets && u != t ==> id !in IdSet(buckets[u])
    ensures var rest := Without(buckets[t], id);
      rest != [] ==> ListenersOk(types, buckets[t := rest], c)
    ensures var rest := Without(buckets[t], id);
      rest == [] ==> ListenersOk(RemoveAt(types, IndexOf(types, t)), buckets - {t}, c)
  {
    var rest := Without(buckets[t], id);
    assert BucketOk(t, buckets[t], c);
    WithoutDistinct(buckets[t], id);
    if id in IdSet(buckets[t]) {
      forall u | u in buckets && u != t
        ensures id !in IdSet(buckets[u])
      {
        assert IdSet(buckets[t]) !! IdSet(buckets[u]);
      }
    }
    assert IdSet(rest) <= IdSet(buckets[t]);
    if rest == [] {
      DropTypeKeepsOk(types, buckets, c, t);
    } else {
      var buckets' := buckets[t := rest];
      forall u | u in buckets'
        ensures BucketOk(u, buckets'[u], c)
      {
        if u != t { assert BucketOk(u, buckets[u], c); }
      }
    }
  }

  /** Under the invariant, a bucket holds the id exactly when the search in type order finds one. */
  lemma {:induction false} HolderExists(types: seq<string>, buckets: map<string, seq<Subscription>>, c: nat, id: string)
    requires ListenersOk(types, buckets, c)
    ensures FirstHolder(types, buckets, id).Some? <==> exists t :: t in buckets && id in IdSet(buckets[t])
    ensures FirstHolder(types, buckets, id).None? ==> forall t :: t in buckets ==> id !in IdSet(buckets[t])
  {
    assert forall j :: 0 <= j < |types| ==> types[j] in types;
  }

  /** Dropping a whole bucket, and its type from the type order, keeps the invariant. */
  lemma {:induction false} DropTypeKeepsOk(types: seq<string>, buckets: map<string, seq<Subscription>>, c: nat, t: string)
    requires ListenersOk(types, buckets, c)
    requires t in buckets
    ensures ListenersOk(RemoveAt(types, IndexOf(types, t)), buckets - {t}, c)
  {
    var i := IndexOf(types, t);
    var types' := RemoveAt(types, i);
    assert types == types[..i] + [t] + types[i + 1..];
    assert types' == types[..i] + types[i + 1..];
    forall u
      ensures u in buckets - {t} <==> u in types'
    {
      if u in types && u != t {
        var j :| 0 <= j < |types| && types[j] == u;
        assert j != i;
        if j < i { assert types'[j] == u; } else { assert types'[j - 1] == u; }
      }
    }
    forall a, b | 0 <= a < b < |types'|
      ensures types'[a] != types'[b]
    {
      var a0 := if a < i then a else a + 1;
      var b0 := if b < i then b else b + 1;
      assert types'[a] == types[a0] && types'[b] == types[b0];
    }
  }

  /** The error messages a dispatch over `b` collects, in call order. */
  function Thrown(b: seq<Subscription>): seq<string>
    decreases |b|
  {
    if b == [] then []
    else Thrown(b[..|b| - 1]) + (match b[|b| - 1].listener
                                 case Throws(m) => [m]
                                 case Returns => [])
  }

  /**
   * One error is collected per throwing listener: none exactly when no listener throws,
   * and at most one per subscription.
   */
  lemma {:induction false} ThrownSpec(b: seq<Subscription>)
    ensures |Thrown(b)| <= |b|
    ensures Thrown(b) == [] <==> forall s :: s in b ==> s.listener == Returns
    decreases |b|
  {
    if b != [] {
      ThrownSpec(b[..|b| - 1]);
      assert b == b[..|b| - 1] + [b[|b| - 1]];
    }
  }

  /**
   * The dispatch loop of emit: every listener is called once, in bucket order; a throwing
   * listener's error is collected and the loop goes on.
   */
  method Dispatch(b: seq<Subscription>) returns (delivered: seq<string>, errors: seq<string>)
    ensures delivered == Ids(b)
    ensures errors == Thrown(b)
  {
    delivered, errors := [], [];
    var i := 0;
    while i < |b|
      invariant 0 <= i <= |b|
      invariant delivered == Ids(b[..i])
      invariant errors == Thrown(b[..i])
    {
      delivered := delivered + [b[i].id];
      match b[i].listener {
        case Throws(m) => errors := errors + [m];
        case Returns =>
      }
      assert b[..i + 1][..i] == b[..i];
      i := i + 1;
    }
    assert b[..i] == b;
  }

  /** The first of `ts` whose bucket holds a subscription with `id`. */
  function FirstHolder(ts: seq<string>, buckets: map<string, seq<Subscription>>, id: string): (r: Option<string>)
    ensures r.Some? ==> r.value in buckets && id in IdSet(buckets[r.value])
    ensures r.Some? ==> exists k :: 0 <= k < |ts| && ts[k] == r.value && NoHolderBefore(ts, buckets, id, k)
    ensures r.None? <==> forall t :: t in ts && t in buckets ==> id !in IdSet(buckets[t])
    decreases |ts|
  {
    if ts == [] then None
    else if ts[0] in buckets && id in IdSet(buckets[ts[0]]) then
      assert NoHolderBefore(ts, buckets, id, 0);
      Some(ts[0])
    else
      assert forall t :: t in ts ==> t == ts[0] || t in ts[1..];
      var r := FirstHolder(ts[1..], buckets, id);
      if r.Some? then
        var k :| 0 <= k < |ts[1..]| && ts[1..][k] == r.value && NoHolderBefore(ts[1..], buckets, id, k);
        assert ts[k + 1] == r.value;
        assert NoHolderBefore(ts, buckets, id, k + 1) by {
          forall j | 0 <= j < k + 1
            ensures !Holds(ts[j], buckets, id)
          {
            if j > 0 { assert ts[j] == ts[1..][j - 1]; }
          }
        }
        r
      else r
  }

  /** Whether `t`'s bucket holds a subscription with `id`. */
  predicate Holds(t: string, buckets: map<string, seq<Subscription>>, id: string) {
    t in buckets && id in IdSet(buckets[t])
  }

  /** No type of `ts` before index `k` holds `id`. */
  predicate NoHolderBefore(ts: seq<string>, buckets: map<string, seq<Subscription>>, id: string, k: nat)
    requires k <= |ts|
  {
    forall j :: 0 <= j < k ==> !Holds(ts[j], buckets, id)
  }

  /** The concatenation of the buckets of `ts`, in that order (getAllSubscriptions). */
  function Flatten(ts: seq<string>, buckets: map<string, seq<Subscription>>): seq<Subscription>
    decreases |ts|
  {
    if ts == [] then []
    else Flatten(ts[..|ts| - 1], buckets)
         + (if ts[|ts| - 1] in buckets then buckets[ts[|ts| - 1]] else [])
  }

  /** The sum of the bucket sizes of `ts` (getStats' totalSubscriptions). */
  function Total(ts: seq<string>, buckets: map<string, seq<Subscription>>): nat
    decreases |ts|
  {
    if ts == [] then 0
    else Total(ts[..|ts| - 1], buckets)
         + (if ts[|ts| - 1] in buckets then |buckets[ts[|ts| - 1]]| else 0)
  }

  /** The subscription count of getStats is the length of getAllSubscriptions. */
  lemma {:induction false} TotalIsFlattenLength(ts: seq<string>, buckets: map<string, seq<Subscription>>)
    ensures Total(ts, buckets) == |Flatten(ts, buckets)|
    decreases |ts|
  {
    if ts != [] {
      TotalIsFlattenLength(ts[..|ts| - 1], buckets);
    }
  }

  // ------------------------------------------------------------ history

  /**
   * The history after `_addToHistory`'s truncation: when longer than `max`, the oldest
   * `|h| - max` entries are spliced off (all of them when `max` is not positive).
   */
  function Trim(h: seq<HistoryEntry>, max: int): seq<HistoryEntry> {
    if |h| <= max then h
    else if max <= 0 then []
    else h[|h| - max..]
  }

  /** Truncation keeps the newest min(|h|, max) entries, never more than max. */
  lemma {:induction false} TrimSpec(h: seq<HistoryEntry>, max: int)
    ensures |Trim(h, max)| == Min(|h|, Max(max, 0))
    ensures Trim(h, max) == h[|h| - |Trim(h, max)|..]
  {
  }

  /** JavaScript's `Array.prototype.reverse`. */
  function Reverse<T>(s: seq<T>): seq<T>
    decreases |s|
  {
    if s == [] then [] else [s[|s| - 1]] + Reverse(s[..|s| - 1])
  }

  lemma {:induction false} ReverseAt<T>(s: seq<T>)
    ensures |Reverse(s)| == |s|
    ensures forall i :: 0 <= i < |s| ==> Reverse(s)[i] == s[|s| - 1 - i]
    decreases |s|
  {
    if s != [] {
      ReverseAt(s[..|s| - 1]);
    }
  }

  /** The end index JavaScript's `slice(0, end)` uses on a sequence of length `len`. */
  function SliceEnd(len: nat, end: int): (r: nat)
    ensures r <= len
  {
    if end < 0 then Max(len + end, 0) else Min(end, len)
  }

  class EventBus {
    /** The event types with a bucket, in the listener map's insertion order. */
    var types: seq<string>
    /** Each event type's subscriptions, in subscription order. */
    var buckets: map<string, seq<Subscription>>
    var history: seq<HistoryEntry>
    var counter: nat
    const maxHistorySize: int
    const enableErrorLogging: bool

    /**
     * The bus invariant: `types` lists each bucket once; every stored bucket is non-empty
     * and holds only subscriptions to its own type; ids are distinct across all buckets
     * and were all handed out by the counter; the history respects its bound.
     */
    ghost predicate Valid()
      reads this
    {
      ListenersOk(types, buckets, counter) && |history| <= Max(maxHistorySize, 0)
    }

    /** A bus with no subscriptions and no history; options default to 1000 entries and logging on. */
    constructor (maxHistorySize: Option<int>, enableErrorLogging: Option<bool>)
      ensures Valid()
      ensures types == [] && buckets == map[] && history == [] && counter == 0
      ensures this.maxHistorySize == maxHistorySize.GetOr(DefaultMaxHistorySize)
      ensures this.enableErrorLogging == enableErrorLogging.GetOr(true)
    {
      types, buckets, history, counter := [], map[], [], 0;
      this.maxHistorySize := maxHistorySize.GetOr(DefaultMaxHistorySize);
      this.enableErrorLogging := enableErrorLogging.GetOr(true);
    }

    /**
     * subscribe: the id is `subscription_N` for the incremented counter N, different from
     * every id in use; the subscription is appended to its type's bucket, which is created
     * (at the end of the type order) when missing.
     */
    method Subscribe(eventType: string, listener: Reaction, now: int) returns (id: string)
      requires Valid()
      modifies this
      ensures Valid()
      ensures counter == old(counter) + 1 && id == SubscriptionId(counter)
      ensures forall t :: t in old(buckets) ==> id !in IdSet(old(buckets)[t])
      ensures types == if eventType in old(buckets) then old(types) else old(types) + [eventType]
      ensures buckets == old(buckets)[eventType :=
                (if eventType in old(buckets) then old(buckets)[eventType] else [])
                + [Subscription(id, eventType, listener, now)]]
      ensures history == old(history)
    {
      id := SubscriptionId(counter + 1);
      var sub := Subscription(id, eventType, listener, now);
      SubscribeKeepsOk(types, buckets, counter, sub);
      var b := if eventType in buckets then buckets[eventType] else [];
      types := if eventType in buckets then types else types + [eventType];
      buckets := buckets[eventType := b + [sub]];
      counter := counter + 1;
    }

    /**
     * unsubscribe: true iff some bucket holds the id; that subscription is removed and a
     * bucket left empty is dropped, so afterwards no subscription has the id.
     */
    method Unsubscribe(id: string) returns (found: bool)
      requires Valid()
      modifies this
      ensures Valid()
      ensures found <==> exists t :: t in old(buckets) && id in IdSet(old(buckets)[t])
      ensures forall t :: t in buckets ==> id !in IdSet(buckets[t])
      ensures !found ==> types == old(types) && buckets == old(buckets)
      ensures found ==>
        var t := old(FirstHolder(types, buckets, id)).value;
        var rest := Without(old(buckets)[t], id);
        if rest == [] then buckets == old(buckets) - {t} && types == RemoveAt(old(types), IndexOf(old(types), t))
        else buckets == old(buckets)[t := rest] && types == old(types)
      ensures counter == old(counter) && history == old(history)
    {
      HolderExists(types, buckets, counter, id);
      assert forall j :: 0 <= j < |types| ==> types[j] in types;
      var k := FindHolder(types, buckets, id);
      if k == |types| {
        return false;
      }
      RemoveFromBucket(types[k], id);
      return true;
    }

    /**
     * The search of unsubscribe: the position in type order of the first bucket holding
     * `id`, or the number of types when none does.
     */
    static method FindHolder(types: seq<string>, buckets: map<string, seq<Subscription>>, id: string) returns (k: nat)
      requires forall j :: 0 <= j < |types| ==> types[j] in buckets
      ensures k <= |types|
      ensures k == |types| <==> FirstHolder(types, buckets, id).None?
      ensures k < |types| ==> FirstHolder(types, buckets, id) == Some(types[k])
    {
      k := 0;
      while k < |types| && id !in IdSet(buckets[types[k]])
        invariant 0 <= k <= |types|
        invariant FirstHolder(types[k..], buckets, id) == FirstHolder(types, buckets, id)
      {
        assert types[k..] == [types[k]] + types[k + 1..];
        k := k + 1;
      }
      if k == |types| {
        assert types[k..] == [];
      } else {
        assert types[k..][0] == types[k];
      }
    }

    /** Deletes `id` from the bucket of `t`, and the bucket itself when that empties it. */
    method RemoveFromBucket(t: string, id: string)
      requires Valid() && t in buckets && id in IdSet(buckets[t])
      modifies this
      ensures Valid()
      ensures forall u :: u in buckets ==> id !in IdSet(buckets[u])
      ensures var rest := Without(old(buckets)[t], id);
        if rest == [] then buckets == old(buckets) - {t} && types == RemoveAt(old(types), IndexOf(old(types), t))
        else buckets == old(buckets)[t := rest] && types == old(types)
      ensures counter == old(counter) && history == old(history)
    {
      UnsubscribeKeepsOk(types, buckets, counter, t, id);
      var rest := Without(buckets[t], id);
      if rest == [] {
        buckets := buckets - {t};
        types := RemoveAt(types, IndexOf(types, t));
      } else {
        buckets := buckets[t := rest];
      }
    }

    /** unsubscribeAll: removes the type's whole bucket and returns how many subscriptions it held. */
    method UnsubscribeAll(eventType: string) returns (count: nat)
      requires Valid()
      modifies this
      ensures Valid()
      ensures count == GetListenerCountIn(old(buckets), eventType)
      ensures eventType !in buckets && buckets == old(buckets) - {eventType}
      ensures eventType in old(buckets) ==> types == RemoveAt(old(types), IndexOf(old(types), eventType))
      ensures eventType !in old(buckets) ==> types == old(types)
      ensures counter == old(counter) && history == old(history)
    {
      if eventType !in buckets {
        return 0;
      }
      count := |buckets[eventType]|;
      DropTypeKeepsOk(types, buckets, counter, eventType);
      buckets := buckets - {eventType};
      types := RemoveAt(types, IndexOf(types, eventType));
    }

    /** The history an emit of `e` at time `now` leaves, starting from history `h`. */
    ghost function HistoryAfter(h: seq<HistoryEntry>, e: Event, now: int): seq<HistoryEntry>
      reads this
    {
      if e.eventType in buckets && |buckets[e.eventType]| > 0
      then Trim(h + [HistoryEntry(e, |buckets[e.eventType]|, now)], maxHistorySize)
      else h
    }

    /** The history after emitting `es` in order, starting from history `h`. */
    ghost function HistoryAfterAll(h: seq<HistoryEntry>, es: seq<Event>, now: int): seq<HistoryEntry>
      reads this
      decreases |es|
    {
      if es == [] then h else HistoryAfterAll(HistoryAfter(h, es[0], now), es[1..], now)
    }

    /**
     * emit: with no bucket for the type, nothing happens. Otherwise every subscriber of the
     * type is called once in subscription order, errors are collected without stopping the
     * loop, the event is recorded with the bucket size, and if any listener threw exactly
     * one `system:error` event carrying the event, the errors and the listener count goes
     * to the `system:error` subscribers, whose own errors are ignored.
     */
    method Emit(e: Event, now: int) returns (report: EmitReport)
      requires Valid()
      modifies this
      ensures Valid()
      ensures types == old(types) && buckets == old(buckets) && counter == old(counter)
      ensures history == old(HistoryAfter(history, e, now))
      ensures var subs := GetBucket(e.eventType);
        && report.delivered == Ids(subs)
        && report.errors == Thrown(subs)
        && report.recorded == (subs != [])
        && report.systemError == (if Thrown(subs) == [] then None
                                  else Some(Event(SystemErrorType, SystemError(e, Thrown(subs), |subs|), now)))
        && report.errorDelivered == (if Thrown(subs) == [] then [] else Ids(GetBucket(SystemErrorType)))
    {
      if e.eventType !in buckets || |buckets[e.eventType]| == 0 {
        return EmitReport([], [], false, None, []);
      }
      var subs := buckets[e.eventType];
      var listenerCount := |subs|;
      var delivered, errors := Dispatch(subs);
      AddToHistory(e, listenerCount, now);
      var systemError: Option<Event> := None;
      var errorDelivered: seq<string> := [];
      if |errors| > 0 {
        var se := Event(SystemErrorType, SystemError(e, errors, listenerCount), now);
        systemError := Some(se);
        if SystemErrorType in buckets {
          var ignored;
          errorDelivered, ignored := Dispatch(buckets[SystemErrorType]);
        }
      }
      report := EmitReport(delivered, errors, true, systemError, errorDelivered);
    }

    /** emitEvent: emits `{type, data, timestamp: now}`. */
    method EmitEvent(eventType: string, data: Payload, now: int) returns (report: EmitReport)
      requires Valid()
      modifies this
      ensures Valid()
      ensures types == old(types) && buckets == old(buckets) && counter == old(counter)
      ensures history == old(HistoryAfter(history, Event(eventType, data, now), now))
      ensures var subs, e := GetBucket(eventType), Event(eventType, data, now);
        && report.delivered == Ids(subs)
        && report.errors == Thrown(subs)
        && report.recorded == (subs != [])
        && report.systemError == (if Thrown(subs) == [] then None
                                  else Some(Event(SystemErrorType, SystemError(e, Thrown(subs), |subs|), now)))
        && report.errorDelivered == (if Thrown(subs) == [] then [] else Ids(GetBucket(SystemErrorType)))
    {
      report := Emit(Event(eventType, data, now), now);
    }

    /** _addToHistory: appends the entry and drops the oldest entries beyond the bound. */
    method AddToHistory(e: Event, listeners: nat, now: int)
      requires Valid()
      modifies this
      ensures Valid()
      ensures history == Trim(old(history) + [HistoryEntry(e, listeners, now)], maxHistorySize)
      ensures types == old(types) && buckets == old(buckets) && counter == old(counter)
    {
      TrimSpec(history + [HistoryEntry(e, listeners, now)], maxHistorySize);
      history := Trim(history + [HistoryEntry(e, listeners, now)], maxHistorySize);
    }

    /** The type's bucket, empty when it has none. */
    function GetBucket(eventType: string): seq<Subscription>
      reads this
    {
      if eventType in buckets then buckets[eventType] else []
    }

    static function GetListenerCountIn(buckets: map<string, seq<Subscription>>, eventType: string): nat {
      if eventType in buckets then |buckets[eventType]| else 0
    }

    /** getListenerCount: the size of the type's bucket, 0 when it has none. */
    function GetListenerCount(eventType: string): (n: nat)
      requires Valid()
      reads this
      ensures n == 0 <==> eventType !in GetSubscribedEventTypes()
      ensures n == |GetBucket(eventType)|
    {
      GetListenerCountIn(buckets, eventType)
    }

    /** getSubscribedEventTypes: the types that have at least one subscription, each once. */
    function GetSubscribedEventTypes(): (r: seq<string>)
      requires Valid()
      reads this
      ensures forall t :: t in r <==> t in buckets && |buckets[t]| > 0
      ensures forall i, j :: 0 <= i < j < |r| ==> r[i] != r[j]
    {
      types
    }

    /** getAllSubscriptions: every subscription, bucket by bucket in type order. */
    method GetAllSubscriptions() returns (r: seq<Subscription>)
      requires Valid()
      ensures r == Flatten(types, buckets)
      ensures |r| == Total(types, buckets)
    {
      r := [];
      var k := 0;
      while k < |types|
        invariant 0 <= k <= |types|
        invariant r == Flatten(types[..k], buckets)
      {
        var b := buckets[types[k]];
        var j := 0;
        while j < |b|
          invariant 0 <= j <= |b|
          invariant r == Flatten(types[..k], buckets) + b[..j]
        {
          r := r + [b[j]];
          assert b[..j + 1] == b[..j] + [b[j]];
          j := j + 1;
        }
        assert types[..k + 1][..k] == types[..k];
        assert b[..j] == b;
        k := k + 1;
      }
      assert types[..k] == types;
      TotalIsFlattenLength(types, buckets);
    }

    /**
     * getEventHistory: the history newest first, cut to `limit` entries (JavaScript's
     * `slice(0, limit)`, where a negative limit counts from the end).
     */
    function GetEventHistory(limit: Option<int>): (r: seq<HistoryEntry>)
      reads this
      ensures |r| == (if limit.None? then |history| else SliceEnd(|history|, limit.value))
      ensures forall i :: 0 <= i < |r| ==> r[i] == history[|history| - 1 - i]
    {
      ReverseAt(history);
      var newestFirst := Reverse(history);
      if limit.None? then newestFirst else newestFirst[..SliceEnd(|newestFirst|, limit.value)]
    }

    /** getStats: the total subscription count, the number of types, and the history size and bound. */
    method GetStats() returns (s: Stats)
      requires Valid()
      ensures s.totalSubscriptions == Total(types, buckets)
      ensures s.eventTypes == |types| && s.historySize == |history|
      ensures s.maxHistorySize == maxHistorySize
    {
      var total := 0;
      var k := 0;
      while k < |types|
        invariant 0 <= k <= |types|
        invariant total == Total(types[..k], buckets)
      {
        total := total + |buckets[types[k]]|;
        assert types[..k + 1][..k] == types[..k];
        k := k + 1;
      }
      assert types[..k] == types;
      s := Stats(total, |types|, |history|, maxHistorySize);
    }

    /** clear: drops every subscription and the history, and restarts ids at subscription_1. */
    method Clear()
      requires Valid()
      modifies this
      ensures Valid()
      ensures types == [] && buckets == map[] && history == [] && counter == 0
    {
      types, buckets, history, counter := [], map[], [], 0;
    }
  }
}
